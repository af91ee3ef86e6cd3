/** The mutable difference bound matrix that the analyser works on.

    Every method updates the matrix in place and is specified by the value
    functions of module Zones. */
module Dbm {
  import opened Bounds
  import opened Zones

  /** The matrix of a new DBM: clocks are non-negative and otherwise free. */
  function FreshMatrix(n: nat): (r: Matrix)
    ensures |r| == n
    ensures forall i: nat, j: nat {:trigger r[i][j]} :: i < n && j < n ==>
      r[i][j] == if i == j || i == 0 then Fin(0) else Inf
  {
    seq(n, i requires 0 <= i < n => seq(n, j requires 0 <= j < n => if i == j || i == 0 then Fin(0) else Inf))
  }

  /** The solutions are those with no clock below the reference. */
  ghost predicate OnlyAbove(m: Matrix) {
    forall v :: |v| == |m| ==> (Sat(m, v) <==> forall i :: 0 <= i < |m| ==> v[0] <= v[i])
  }

  lemma FreshIsNonNegative(n: nat)
    ensures OnlyAbove(FreshMatrix(n))
  {
    var m := FreshMatrix(n);
    forall v | |v| == n && Sat(m, v)
      ensures forall i :: 0 <= i < n ==> v[0] <= v[i]
    {
      forall i | 0 <= i < n
        ensures v[0] <= v[i]
      {
        assert Holds(m, v, 0, i);
      }
    }
  }

  /** How far a pivot round has got: the cells before (i, j) in row-major order
      are updated.  The in-place round agrees with Phase unless the pivot's own
      diagonal entry is negative. */
  ghost predicate RoundProgress(was: Matrix, now: Matrix, k: nat, i: nat, j: nat)
    requires k < |was|
  {
    && SameSolutions(was, now)
    && Tighter(now, was)
    && (!Negative(was[k][k]) ==>
          forall x: nat, y: nat :: x < |was| && y < |was| ==>
            now[x][y] == if x < i || (x == i && y < j) then Phase(was, k)[x][y] else was[x][y])
  }

  /** One relaxation step keeps the solutions. */
  lemma StepSame(m: Matrix, i: nat, k: nat, j: nat)
    requires i < |m| && k < |m| && j < |m| && Lt(Add(m[i][k], m[k][j]), m[i][j])
    ensures SameSolutions(m, Put(m, i, j, Add(m[i][k], m[k][j])))
  {
    forall v
      ensures Sat(m, v) <==> Sat(Put(m, i, j, Add(m[i][k], m[k][j])), v)
    {
      PutSat(m, i, j, m[i][k].v + m[k][j].v, v);
      if Sat(m, v) {
        assert Holds(m, v, i, k) && Holds(m, v, k, j);
      }
    }
  }

  lemma RoundStep(was: Matrix, now: Matrix, k: nat, i: nat, j: nat)
    requires k < |was| && i < |was| && j < |was| && RoundProgress(was, now, k, i, j) && now[i][k].Fin?
    ensures
      var sum := Add(now[i][k], now[k][j]);
      RoundProgress(was, if Lt(sum, now[i][j]) then Put(now, i, j, sum) else now, k, i, j + 1)
    ensures
      var sum := Add(now[i][k], now[k][j]);
      (if Lt(sum, now[i][j]) then Put(now, i, j, sum) else now)[i][k].Fin?
  {
    var sum := Add(now[i][k], now[k][j]);
    var next := if Lt(sum, now[i][j]) then Put(now, i, j, sum) else now;
    assert Tighter(next, was) by {
      assert Le(now[i][j], was[i][j]);
    }
    if next != now {
      StepSame(now, i, k, j);
    }
    if !Negative(was[k][k]) {
      assert now[i][k] == was[i][k] && now[k][j] == was[k][j] by {
        assert Phase(was, k)[i][k] == was[i][k] && Phase(was, k)[k][j] == was[k][j];
      }
    }
  }

  lemma RoundSkip(was: Matrix, now: Matrix, k: nat, i: nat)
    requires k < |was| && i < |was| && RoundProgress(was, now, k, i, 0) && now[i][k].Inf?
    ensures RoundProgress(was, now, k, i, |was|)
  {
  }

  lemma RoundRow(was: Matrix, now: Matrix, k: nat, i: nat)
    requires k < |was| && i < |was| && RoundProgress(was, now, k, i, |was|)
    ensures RoundProgress(was, now, k, i + 1, 0)
  {
  }

  lemma RoundDone(m: Matrix, was: Matrix, now: Matrix, k: nat)
    requires k < |was| && PartialClosure(m, was, k) && RoundProgress(was, now, k, |was|, 0)
    ensures PartialClosure(m, now, k + 1)
  {
    forall i: nat, j: nat | i < |m| && j < |m|
      ensures Le(now[i][j], m[i][j])
    {
      assert Le(now[i][j], was[i][j]) && Le(was[i][j], m[i][j]);
    }
    if NonNegativeDiagonal(now) {
      forall i | 0 <= i < |was|
        ensures !Negative(was[i][i])
      {
        assert Le(now[i][i], was[i][i]);
      }
      assert now == Phase(was, k) by {
        assert forall x :: 0 <= x < |was| ==> now[x] == Phase(was, k)[x];
      }
      PartialClosureStep(m, was, k);
    }
  }

  class DBM {
    var matrix: Matrix
    var frozen: set<nat>

    constructor (size: nat)
      ensures matrix == FreshMatrix(size) && frozen == {}
      ensures OnlyAbove(matrix)
    {
      matrix := FreshMatrix(size);
      frozen := {};
      FreshIsNonNegative(size);
    }

    constructor Copy(m: Matrix, f: set<nat>)
      ensures matrix == m && frozen == f
    {
      matrix := m;
      frozen := f;
    }

    method SetConstraint(i: nat, j: nat, b: Bound)
      requires i < |matrix| && j < |matrix|
      modifies this`matrix
      ensures matrix == Put(old(matrix), i, j, b)
    {
      matrix := matrix[i := matrix[i][j := b]];
    }

    /** In-place all-pairs shortest paths. */
    method Minimize()
      modifies this`matrix
      ensures IsClosure(old(matrix), matrix)
    {
      var n := |matrix|;
      var k := 0;
      while k < n
        invariant k <= n == |matrix|
        invariant PartialClosure(old(matrix), matrix, k)
      {
        ghost var was := matrix;
        var i := 0;
        while i < n
          invariant i <= n == |matrix|
          invariant RoundProgress(was, matrix, k, i, 0)
        {
          if matrix[i][k].Fin? {
            var j := 0;
            while j < n
              invariant j <= n == |matrix| && matrix[i][k].Fin?
              invariant RoundProgress(was, matrix, k, i, j)
            {
              RoundStep(was, matrix, k, i, j);
              if matrix[k][j].Fin? {
                var newBound := Add(matrix[i][k], matrix[k][j]);
                if matrix[i][j].Inf? || newBound.v < matrix[i][j].v {
                  SetConstraint(i, j, newBound);
                }
              }
              j := j + 1;
            }
          } else {
            RoundSkip(was, matrix, k, i);
          }
          RoundRow(was, matrix, k, i);
          i := i + 1;
        }
        RoundDone(old(matrix), was, matrix, k);
        k := k + 1;
      }
      PartialClosureDone(old(matrix), matrix);
    }

    /** Scans the diagonal. */
    method DiagonalIsNonNegative() returns (ok: bool)
      ensures ok <==> NonNegativeDiagonal(matrix)
    {
      var i := 0;
      while i < |matrix|
        invariant i <= |matrix|
        invariant forall x :: 0 <= x < i ==> !Negative(matrix[x][x])
      {
        if Negative(matrix[i][i]) {
          return false;
        }
        i := i + 1;
      }
      return true;
    }

    method MinimizeAndCheck() returns (ok: bool)
      modifies this`matrix
      ensures IsClosure(old(matrix), matrix)
      ensures ok <==> HasSolution(old(matrix))
    {
      Minimize();
      ok := DiagonalIsNonNegative();
    }

    method IsConsistent() returns (ok: bool)
      ensures ok <==> HasSolution(matrix)
    {
      ok := DiagonalIsNonNegative();
      if !ok {
        forall v | Sat(matrix, v)
          ensures false
        {
          SatDiagonal(matrix, v);
        }
        return;
      }
      var temp := new DBM.Copy(matrix, frozen);
      ok := temp.MinimizeAndCheck();
    }

    /** Tightens one entry and restores the closure by looking only at paths through
        that entry.  False means that nothing is left; on a canonical matrix the
        closure is complete and the answer exact. */
    method Tighten(i: nat, j: nat, bound: int) returns (ok: bool)
      requires i < |matrix| && j < |matrix|
      modifies this`matrix
      ensures |matrix| == |old(matrix)|
      ensures forall v :: Sat(matrix, v) <==> Sat(old(matrix), v) && v[i] - v[j] <= bound
      ensures !ok ==> forall v :: !Sat(matrix, v)
      ensures Canonical(old(matrix)) ==> (ok <==> exists v :: Sat(old(matrix), v) && v[i] - v[j] <= bound)
      ensures Canonical(old(matrix)) && ok ==> matrix == TightenMatrix(old(matrix), i, j, bound)
    {
      ghost var m := matrix;
      if matrix[i][j].Fin? && matrix[i][j].v <= bound {
        AlreadyTight(m, i, j, bound);
        return true;
      }
      SetConstraint(i, j, Fin(bound));
      ghost var cut := matrix;
      CutSat(m, i, j, bound);
      var ji := matrix[j][i];
      if Negative(Add(Fin(bound), ji)) {
        NothingLeft(m, cut, i, j, bound);
        SetConstraint(i, i, Add(Fin(bound), ji));
        return false;
      }
      if Canonical(m) {
        TightenStart(m, i, j, bound);
        TightenEmpty(m, i, j, bound);
      }
      CloseThrough(i, j, bound, m);
      ok := DiagonalIsNonNegative();
      if !ok {
        forall v | Sat(matrix, v)
          ensures false
        {
          SatDiagonal(matrix, v);
        }
      }
    }

    /** The re-closing loops of Tighten: any pair (a, b) can only improve via
        a -> i -> j -> b. */
    method CloseThrough(i: nat, j: nat, bound: int, ghost m: Matrix)
      requires i < |m| && j < |m| && matrix == Put(m, i, j, Fin(bound))
      requires Canonical(m) ==> TightenProgress(m, matrix, i, j, bound, 0, 0)
      modifies this`matrix
      ensures SameSolutions(old(matrix), matrix) && |matrix| == |m|
      ensures Canonical(m) ==> matrix == TightenMatrix(m, i, j, bound) && NonNegativeDiagonal(matrix)
    {
      var n := |matrix|;
      ghost var cut := matrix;
      var a := 0;
      while a < n
        invariant a <= n == |matrix| && SameSolutions(cut, matrix)
        invariant Canonical(m) ==> TightenProgress(m, matrix, i, j, bound, a, 0)
      {
        var ai := matrix[a][i];
        if ai.Fin? {
          CloseRow(i, j, bound, a, m, cut);
        } else if Canonical(m) {
          TightenSkip(m, matrix, i, j, bound, a);
        }
        if Canonical(m) {
          TightenRow(m, matrix, i, j, bound, a);
        }
        a := a + 1;
      }
      if Canonical(m) {
        TightenDone(m, matrix, i, j, bound);
      }
    }

    method CloseRow(i: nat, j: nat, bound: int, a: nat, ghost m: Matrix, ghost cut: Matrix)
      requires i < |m| && j < |m| && a < |m| == |matrix| && matrix[a][i].Fin?
      requires cut == Put(m, i, j, Fin(bound)) && SameSolutions(cut, matrix)
      requires Canonical(m) ==> TightenProgress(m, matrix, i, j, bound, a, 0)
      modifies this`matrix
      ensures |matrix| == |m| && SameSolutions(cut, matrix)
      ensures Canonical(m) ==> TightenProgress(m, matrix, i, j, bound, a, |m|)
    {
      hide Canonical, SameSolutions, Implies, TightenProgress;
      var n, aVia := |matrix|, matrix[a][i].v + bound;
      Through(m, cut, matrix, i, j, bound, a);
      if Canonical(m) {
        TightenRead(m, matrix, i, j, bound, a);
      }
      var b := 0;
      while b < n
        invariant b <= n == |matrix| && SameSolutions(cut, matrix)
        invariant Canonical(m) ==> TightenProgress(m, matrix, i, j, bound, a, b) && m[a][i] == Fin(aVia - bound)
      {
        if Canonical(m) {
          TightenStep(m, matrix, i, j, bound, a, b);
        }
        var jb := matrix[j][b];
        if jb.Fin? && (matrix[a][b].Inf? || aVia + jb.v < matrix[a][b].v) {
          StepThrough(cut, matrix, j, aVia, a, b);
          SetConstraint(a, b, Fin(aVia + jb.v));
        }
        b := b + 1;
      }
    }

    /** k-extrapolation, then closure if anything changed. */
    method Extrapolate(k: int)
      modifies this`matrix
      ensures k < 0 ==> matrix == old(matrix)
      ensures k >= 0 ==> Reclosed(RelaxMatrix(old(matrix), k, frozen), matrix)
      ensures k >= 0 && Canonical(old(matrix)) ==> matrix == ExtrapolateMatrix(old(matrix), k, frozen)
    {
      if |matrix| == 0 || k < 0 {
        if k >= 0 && Canonical(matrix) {
          RelaxHasSolution(matrix, k, frozen);
        }
        return;
      }
      var n := |matrix|;
      ghost var m, r := matrix, RelaxMatrix(matrix, k, frozen);
      var changed := false;
      var i := 0;
      while i < n
        invariant i <= n == |matrix|
        invariant EditProgress(m, r, matrix, i, 0) && (!changed ==> matrix == m)
      {
        if i !in frozen {
          var j := 0;
          while j < n
            invariant j <= n == |matrix|
            invariant EditProgress(m, r, matrix, i, j) && (!changed ==> matrix == m)
          {
            EditStep(m, r, matrix, i, j, r[i][j]);
            if i != j && j !in frozen && matrix[i][j].Fin? {
              if matrix[i][j].v > k {
                SetConstraint(i, j, Inf);
                changed := true;
              } else if matrix[i][j].v < -k {
                SetConstraint(i, j, Fin(-k));
                changed := true;
              }
            }
            j := j + 1;
          }
        } else {
          assert forall y: nat :: y < n ==> m[i][y] == r[i][y];
        }
        EditRow(m, r, matrix, i);
        i := i + 1;
      }
      EditDone(m, r, matrix);
      if changed {
        Minimize();
      }
      if Canonical(m) {
        RelaxHasSolution(m, k, frozen);
        ClosesTo(r, matrix, changed);
      }
    }

    method IncludedIn(other: DBM) returns (b: bool)
      ensures b <==> Tighter(matrix, other.matrix)
    {
      if |matrix| != |other.matrix| {
        return false;
      }
      var i := 0;
      while i < |matrix|
        invariant i <= |matrix|
        invariant forall x: nat, y: nat :: x < i && y < |matrix| ==> Le(matrix[x][y], other.matrix[x][y])
      {
        var j := 0;
        while j < |matrix|
          invariant j <= |matrix|
          invariant forall x: nat, y: nat :: (x < i && y < |matrix|) || (x == i && y < j) ==>
            Le(matrix[x][y], other.matrix[x][y])
        {
          if other.matrix[i][j].Fin? && (matrix[i][j].Inf? || matrix[i][j].v > other.matrix[i][j].v) {
            return false;
          }
          j := j + 1;
        }
        i := i + 1;
      }
      return true;
    }

    /** Null stands for the exception on mismatched sizes. */
    method Intersection(other: DBM) returns (result: DBM?)
      ensures result == null <==> |matrix| != |other.matrix|
      ensures result != null ==> fresh(result) && |result.matrix| == |matrix|
      ensures result != null ==> forall v :: Sat(result.matrix, v) <==> Sat(matrix, v) && Sat(other.matrix, v)
      ensures result != null ==>
        (NonNegativeDiagonal(result.matrix) <==> exists v :: Sat(matrix, v) && Sat(other.matrix, v))
    {
      hide OnlyAbove, IntersectMatrix;
      if |matrix| != |other.matrix| {
        return null;
      }
      result := new DBM(|matrix|);
      TakeLower(other, result);
      IntersectSats(matrix, other.matrix);
      result.Minimize();
    }

    /** The lower of both entries, cell by cell. */
    method TakeLower(other: DBM, result: DBM)
      requires |matrix| == |other.matrix| == |result.matrix| && result != this && result != other
      modifies result`matrix
      ensures result.matrix == IntersectMatrix(matrix, other.matrix)
    {
      var n := |matrix|;
      ghost var m, r := result.matrix, IntersectMatrix(matrix, other.matrix);
      var i := 0;
      while i < n
        invariant i <= n && EditProgress(m, r, result.matrix, i, 0)
      {
        var j := 0;
        while j < n
          invariant j <= n && EditProgress(m, r, result.matrix, i, j)
        {
          EditStep(m, r, result.matrix, i, j, r[i][j]);
          if matrix[i][j].Inf? {
            result.SetConstraint(i, j, other.matrix[i][j]);
          } else if other.matrix[i][j].Inf? {
            result.SetConstraint(i, j, matrix[i][j]);
          } else {
            result.SetConstraint(i, j, Min(matrix[i][j], other.matrix[i][j]));
          }
          j := j + 1;
        }
        EditRow(m, r, result.matrix, i);
        i := i + 1;
      }
      EditDone(m, r, result.matrix);
    }

    /** Sets one clock to zero: the zone of a canonical matrix becomes the exact
        image. */
    method ResetClock(x: nat)
      requires x < |matrix|
      modifies this`matrix
      ensures x == 0 ==> matrix == old(matrix)
      ensures x > 0 ==> Reclosed(ResetMatrix(old(matrix), x), matrix)
      ensures Canonical(old(matrix)) ==> matrix == Reindex(old(matrix), ResetMap(|old(matrix)|, x))
    {
      hide ResetMatrix, Reindex, ResetMap, Canonical, Reclosed;
      ghost var m := matrix;
      if x == 0 {
        ResetNothing(m);
        return;
      }
      var changed := ResetEntries(x);
      ghost var r := matrix;
      if changed {
        Minimize();
      }
      if Canonical(m) {
        ResetCanonical(m, x);
        ClosesTo(r, matrix, changed);
      }
      IsReclosed(r, matrix, changed);
    }

    /** The entries of a reset clock, before the closure. */
    method ResetEntries(x: nat) returns (changed: bool)
      requires 0 < x < |matrix|
      modifies this`matrix
      ensures matrix == ResetMatrix(old(matrix), x)
      ensures !changed && Canonical(old(matrix)) ==> matrix == old(matrix)
    {
      ghost var m := matrix;
      var n := |matrix|;
      changed := false;
      if matrix[0][x] != Fin(0) {
        SetConstraint(0, x, Fin(0));
        changed := true;
      }
      if matrix[x][0] != Fin(0) {
        SetConstraint(x, 0, Fin(0));
        changed := true;
      }
      var k := 0;
      while k < n
        invariant k <= n == |matrix|
        invariant ResetProgress(m, matrix, x, k) && (!changed ==> matrix == m)
      {
        ResetStep(m, matrix, x, k);
        var copied := CopyReference(x, k);
        changed := changed || copied;
        k := k + 1;
      }
      if Canonical(m) {
        PutSame(m, x, x);
      }
      SetConstraint(x, x, Fin(0));
      ResetDone(m, matrix, x);
    }

    /** Clock x gets the bounds of the reference variable against clock k. */
    method CopyReference(x: nat, k: nat) returns (changed: bool)
      requires x < |matrix| && k < |matrix|
      modifies this`matrix
      ensures
        var next := Put(old(matrix), x, k, old(matrix)[0][k]);
        matrix == Put(next, k, x, next[k][0]) && (!changed ==> matrix == old(matrix))
    {
      changed := false;
      PutSame(matrix, x, k);
      var row0 := matrix[0][k];
      if matrix[x][k] != row0 {
        SetConstraint(x, k, row0);
        changed := true;
      }
      PutSame(matrix, k, x);
      var col0 := matrix[k][0];
      if matrix[k][x] != col0 {
        SetConstraint(k, x, col0);
        changed := true;
      }
    }

    /** Projects one clock away and frees it above zero. */
    method ForgetClock(x: nat)
      requires x < |matrix|
      modifies this
      ensures x == 0 ==> matrix == old(matrix)
      ensures x > 0 ==> Reclosed(FreedMatrix(old(matrix), x), matrix)
      ensures x > 0 && Canonical(old(matrix)) ==> matrix == ForgetMatrix(old(matrix), x)
      ensures frozen == if x == 0 then old(frozen) else old(frozen) - {x}
    {
      if x == 0 {
        return;
      }
      ghost var m := matrix;
      var n := |matrix|;
      var changed := false;
      var i := 0;
      while i < n
        invariant i <= n == |matrix|
        invariant forall a: nat, b: nat :: a < n && b < n ==>
          matrix[a][b] == if a != b && ((a == x && b < i) || (b == x && a < i)) then Inf else m[a][b]
        invariant (!changed ==> matrix == m) && frozen == old(frozen)
      {
        if i != x {
          if matrix[x][i] != Inf {
            SetConstraint(x, i, Inf);
            changed := true;
          }
          if matrix[i][x] != Inf {
            SetConstraint(i, x, Inf);
            changed := true;
          }
        }
        i := i + 1;
      }
      // matrix[x][0] is Inf by now.
      if matrix[0][x] != Fin(0) {
        SetConstraint(0, x, Fin(0));
        changed := true;
      }
      if matrix[x][x] != Fin(0) {
        SetConstraint(x, x, Fin(0));
        changed := true;
      }
      frozen := frozen - {x};
      ghost var f := matrix;
      FreedDone(m, f, x);
      if changed {
        Minimize();
      }
      if Canonical(m) {
        FreedCloses(m, f, x);
        ClosesTo(f, matrix, changed);
      }
    }

    /** Drops a row and a column, and renumbers the clocks above it. */
    method RemoveClock(x: nat)
      modifies this
      ensures x == 0 || x >= |old(matrix)| ==> matrix == old(matrix) && frozen == old(frozen)
      ensures 0 < x < |old(matrix)| ==>
        && matrix == Reindex(old(matrix), SkipMap(|old(matrix)|, x))
        && frozen == Renumber(old(frozen), x)
    {
      if x >= |matrix| || x == 0 {
        return;
      }
      var n := |matrix|;
      ghost var m, r := FreshMatrix(n - 1), Reindex(matrix, SkipMap(n, x));
      var result := new DBM(n - 1);
      var i := 0;
      while i < n
        invariant i <= n && |result.matrix| == n - 1 && fresh(result)
        invariant matrix == old(matrix) && frozen == old(frozen)
        invariant EditProgress(m, r, result.matrix, if i <= x then i else i - 1, 0)
      {
        if i != x {
          var newI := After(x, i);
          SkipEntries(matrix, x, i);
          CopyRow(result, i, newI, x, m, r);
          EditRow(m, r, result.matrix, newI);
        }
        i := i + 1;
      }
      EditDone(m, r, result.matrix);
      matrix := result.matrix;
      frozen := Renumber(frozen, x);
    }

    /** Row i, without column x, becomes row newI of the result. */
    method CopyRow(result: DBM, i: nat, newI: nat, x: nat, ghost m: Matrix, ghost r: Matrix)
      requires i < |matrix| && x < |matrix| && newI < |m| && result != this
      requires |m| == |r| == |result.matrix| == |matrix| - 1 && EditProgress(m, r, result.matrix, newI, 0)
      requires forall j: nat {:trigger matrix[i][j]} :: j < |matrix| && j != x ==> matrix[i][j] == r[newI][After(x, j)]
      modifies result`matrix
      ensures |result.matrix| == |m| && EditProgress(m, r, result.matrix, newI, |m|)
    {
      var j := 0;
      while j < |matrix|
        invariant j <= |matrix| && |result.matrix| == |m|
        invariant EditProgress(m, r, result.matrix, newI, if j <= x then j else j - 1)
      {
        if j != x {
          var newJ := After(x, j);
          EditStep(m, r, result.matrix, newI, newJ, matrix[i][j]);
          result.SetConstraint(newI, newJ, matrix[i][j]);
        }
        j := j + 1;
      }
    }

    /** A copy restricted to alpha <= x <= beta, or the empty DBM. */
    method RestrictClock(x: nat, alpha: int, beta: Bound) returns (result: DBM)
      ensures fresh(result)
      ensures x >= |matrix| ==> result.matrix == matrix && result.frozen == frozen
      ensures x < |matrix| ==>
        if exists v :: InRange(matrix, v, x, alpha, beta)
        then
          && Closed(result.matrix) && (ZeroDiagonal(matrix) ==> Canonical(result.matrix))
          && forall v :: Sat(result.matrix, v) <==> InRange(matrix, v, x, alpha, beta)
        else result.matrix == []
    {
      result := new DBM.Copy(matrix, frozen);
      if x >= |matrix| {
        return;
      }
      ghost var m := matrix;
      if result.matrix[0][x].Inf? || alpha > -result.matrix[0][x].v {
        result.SetConstraint(0, x, Fin(-alpha));
      }
      ghost var m1 := result.matrix;
      var upper := result.matrix[x][0];
      if beta.Fin? && (upper.Inf? || beta.v < upper.v) {
        result.SetConstraint(x, 0, beta);
      }
      ghost var m2 := result.matrix;
      forall v
        ensures Sat(m2, v) <==> InRange(m, v, x, alpha, beta)
      {
        RestrictSat(m, m1, m2, x, alpha, beta, v);
      }
      var ok := result.MinimizeAndCheck();
      if !ok {
        result := new DBM(0);
      } else {
        if ZeroDiagonal(m) {
          RestrictDone(m, m1, m2, x, alpha, beta);
        }
      }
    }
  }

  /** Cells before (i, j) come from r, the others from m. */
  ghost predicate EditProgress(m: Matrix, r: Matrix, now: Matrix, i: nat, j: nat) {
    && |m| == |r| == |now|
    && forall x: nat, y: nat :: x < |m| && y < |m| ==>
         now[x][y] == if x < i || (x == i && y < j) then r[x][y] else m[x][y]
  }

  lemma EditStep(m: Matrix, r: Matrix, now: Matrix, i: nat, j: nat, b: Bound)
    requires i < |m| && j < |m| && EditProgress(m, r, now, i, j) && b == r[i][j]
    ensures EditProgress(m, r, Put(now, i, j, b), i, j + 1)
    ensures b == now[i][j] ==> EditProgress(m, r, now, i, j + 1)
  {
  }

  lemma EditRow(m: Matrix, r: Matrix, now: Matrix, i: nat)
    requires i < |m|
    ensures EditProgress(m, r, now, i, |m|) ==> EditProgress(m, r, now, i + 1, 0)
    ensures EditProgress(m, r, now, i, 0) && m[i] == r[i] ==> EditProgress(m, r, now, i + 1, 0)
  {
  }

  lemma EditDone(m: Matrix, r: Matrix, now: Matrix)
    requires EditProgress(m, r, now, |m|, 0)
    ensures now == r
  {
    assert forall x :: 0 <= x < |m| ==> now[x] == r[x];
  }

  /** Every solution of m keeps a and j within x. */
  ghost predicate Implies(m: Matrix, a: nat, j: nat, x: int)
    requires a < |m| && j < |m|
  {
    forall v :: Sat(m, v) ==> v[a] - v[j] <= x
  }

  lemma AlreadyTight(m: Matrix, i: nat, j: nat, bound: int)
    requires i < |m| && j < |m| && Le(m[i][j], Fin(bound))
    ensures forall v :: Sat(m, v) ==> v[i] - v[j] <= bound
    ensures Canonical(m) ==> TightenMatrix(m, i, j, bound) == m && exists v :: Sat(m, v)
  {
    forall v | Sat(m, v)
      ensures v[i] - v[j] <= bound
    {
      assert Holds(m, v, i, j);
    }
    if Canonical(m) {
      TightenNoOp(m, i, j, bound);
      var v := ClosedHasSolution(m);
    }
  }

  /** Setting an entry adds its constraint when it is tighter than before. */
  lemma CutSat(m: Matrix, i: nat, j: nat, bound: int)
    requires i < |m| && j < |m| && Lt(Fin(bound), m[i][j])
    ensures forall v :: Sat(Put(m, i, j, Fin(bound)), v) <==> Sat(m, v) && v[i] - v[j] <= bound
  {
    forall v
      ensures Sat(Put(m, i, j, Fin(bound)), v) <==> Sat(m, v) && v[i] - v[j] <= bound
    {
      PutSat(m, i, j, bound, v);
    }
  }

  lemma NothingLeft(m: Matrix, cut: Matrix, i: nat, j: nat, bound: int)
    requires i < |m| && j < |m| && cut == Put(m, i, j, Fin(bound)) && Negative(Add(Fin(bound), cut[j][i]))
    ensures forall v :: !Sat(cut, v)
    ensures forall v :: !Sat(Put(cut, i, i, Add(Fin(bound), cut[j][i])), v)
  {
    forall v | Sat(cut, v)
      ensures false
    {
      OppositeEntries(cut, v, i, j);
    }
    var worse := Put(cut, i, i, Add(Fin(bound), cut[j][i]));
    assert Negative(worse[i][i]);
    forall v | Sat(worse, v)
      ensures false
    {
      SatDiagonal(worse, v);
    }
  }

  lemma OppositeEntries(m: Matrix, v: seq<int>, i: nat, j: nat)
    requires i < |m| && j < |m| && Sat(m, v)
    ensures !Negative(Add(m[i][j], m[j][i]))
  {
    assert Holds(m, v, i, j) && Holds(m, v, j, i);
  }

  lemma Through(m: Matrix, cut: Matrix, now: Matrix, i: nat, j: nat, bound: int, a: nat)
    requires i < |m| && j < |m| && a < |m| == |now| && now[a][i].Fin?
    requires cut == Put(m, i, j, Fin(bound)) && SameSolutions(cut, now)
    ensures Implies(cut, a, j, now[a][i].v + bound)
  {
    forall v | Sat(cut, v)
      ensures v[a] - v[j] <= now[a][i].v + bound
    {
      assert Sat(now, v) && Holds(now, v, a, i) && Holds(cut, v, i, j);
    }
  }

  lemma StepThrough(cut: Matrix, now: Matrix, j: nat, aVia: int, a: nat, b: nat)
    requires j < |cut| && a < |cut| == |now| && b < |now| && SameSolutions(cut, now) && Implies(cut, a, j, aVia)
    requires now[j][b].Fin? && Lt(Fin(aVia + now[j][b].v), now[a][b])
    ensures SameSolutions(cut, Put(now, a, b, Fin(aVia + now[j][b].v)))
  {
    forall v
      ensures Sat(cut, v) <==> Sat(Put(now, a, b, Fin(aVia + now[j][b].v)), v)
    {
      PutSat(now, a, b, aVia + now[j][b].v, v);
      if Sat(cut, v) {
        assert Sat(now, v) && Holds(now, v, j, b);
      }
    }
  }

  /** A tightening that changes entry (i, j) and does not empty the zone. */
  ghost predicate Improves(m: Matrix, i: nat, j: nat, bound: int) {
    && Canonical(m) && i < |m| && j < |m| && i != j
    && Lt(Fin(bound), m[i][j]) && !Negative(Add(Fin(bound), m[j][i]))
  }

  /** The cells before (a, b), and the tightened cell itself, are updated. */
  ghost predicate TightenProgress(m: Matrix, now: Matrix, i: nat, j: nat, bound: int, a: nat, b: nat) {
    && Improves(m, i, j, bound) && |m| == |now|
    && forall x: nat, y: nat :: x < |m| && y < |m| ==>
         now[x][y] == if x < a || (x == a && y < b) || (x == i && y == j)
                      then TightenMatrix(m, i, j, bound)[x][y] else m[x][y]
  }

  lemma TightenStart(m: Matrix, i: nat, j: nat, bound: int)
    requires Canonical(m) && i < |m| && j < |m| && Lt(Fin(bound), m[i][j])
    requires !Negative(Add(Fin(bound), Put(m, i, j, Fin(bound))[j][i]))
    ensures TightenProgress(m, Put(m, i, j, Fin(bound)), i, j, bound, 0, 0)
  {
  }

  /** The row and the column that the in-place update reads never change. */
  lemma TightenFixed(m: Matrix, i: nat, j: nat, bound: int)
    requires Improves(m, i, j, bound)
    ensures forall x: nat :: x < |m| ==> TightenMatrix(m, i, j, bound)[x][i] == m[x][i]
    ensures forall y: nat :: y < |m| ==> TightenMatrix(m, i, j, bound)[j][y] == m[j][y]
  {
  }

  lemma TightenRead(m: Matrix, now: Matrix, i: nat, j: nat, bound: int, a: nat)
    requires a < |m| && TightenProgress(m, now, i, j, bound, a, 0)
    ensures now[a][i] == m[a][i]
  {
    TightenFixed(m, i, j, bound);
  }

  lemma TightenStep(m: Matrix, now: Matrix, i: nat, j: nat, bound: int, a: nat, b: nat)
    requires a < |m| && b < |m| && TightenProgress(m, now, i, j, bound, a, b) && m[a][i].Fin?
    ensures now[a][i] == m[a][i]
    ensures
      var sum := Add(Fin(m[a][i].v + bound), now[j][b]);
      TightenProgress(m, if Lt(sum, now[a][b]) then Put(now, a, b, sum) else now, i, j, bound, a, b + 1)
  {
    TightenFixed(m, i, j, bound);
    assert now[j][b] == m[j][b] && now[a][i] == m[a][i];
  }

  lemma TightenSkip(m: Matrix, now: Matrix, i: nat, j: nat, bound: int, a: nat)
    requires a < |m| && TightenProgress(m, now, i, j, bound, a, 0) && now[a][i].Inf?
    ensures TightenProgress(m, now, i, j, bound, a, |m|)
  {
    TightenFixed(m, i, j, bound);
  }

  lemma TightenRow(m: Matrix, now: Matrix, i: nat, j: nat, bound: int, a: nat)
    requires a < |m| && TightenProgress(m, now, i, j, bound, a, |m|)
    ensures TightenProgress(m, now, i, j, bound, a + 1, 0)
  {
  }

  lemma TightenDone(m: Matrix, now: Matrix, i: nat, j: nat, bound: int)
    requires TightenProgress(m, now, i, j, bound, |m|, 0)
    ensures now == TightenMatrix(m, i, j, bound) && NonNegativeDiagonal(now)
  {
    TightenClosed(m, i, j, bound);
    assert forall x :: 0 <= x < |m| ==> now[x] == TightenMatrix(m, i, j, bound)[x];
  }

  lemma TightenNoOp(m: Matrix, i: nat, j: nat, b: int)
    requires Canonical(m) && i < |m| && j < |m| && Le(m[i][j], Fin(b))
    ensures TightenMatrix(m, i, j, b) == m
    ensures !Negative(Add(Fin(b), m[j][i]))
  {
    var r := TightenMatrix(m, i, j, b);
    assert Triangle(m, j, i, j) && Triangle(m, i, j, i);
    forall x: nat | x < |m|
      ensures r[x] == m[x]
    {
      forall y: nat | y < |m|
        ensures r[x][y] == m[x][y]
      {
        assert Triangle(m, x, i, y) && Triangle(m, i, j, y);
      }
    }
  }

  ghost function IntersectMatrix(a: Matrix, b: Matrix): (r: Matrix)
    requires |a| == |b|
    ensures |r| == |a|
    ensures forall i: nat, j: nat {:trigger r[i][j]} :: i < |a| && j < |a| ==> r[i][j] == Min(a[i][j], b[i][j])
  {
    seq(|a|, i requires 0 <= i < |a| => seq(|a|, j requires 0 <= j < |a| => Min(a[i][j], b[i][j])))
  }

  lemma IntersectSat(a: Matrix, b: Matrix, v: seq<int>)
    requires |a| == |b|
    ensures Sat(IntersectMatrix(a, b), v) <==> Sat(a, v) && Sat(b, v)
  {
    var r := IntersectMatrix(a, b);
    if Sat(a, v) && Sat(b, v) {
      forall i: nat, j: nat | i < |r| && j < |r|
        ensures Holds(r, v, i, j)
      {
        assert Holds(a, v, i, j) && Holds(b, v, i, j);
      }
    }
    if Sat(r, v) {
      TighterSat(r, a, v);
      TighterSat(r, b, v);
    }
  }

  lemma IntersectSats(a: Matrix, b: Matrix)
    requires |a| == |b|
    ensures forall v :: Sat(IntersectMatrix(a, b), v) <==> Sat(a, v) && Sat(b, v)
  {
    forall v
      ensures Sat(IntersectMatrix(a, b), v) <==> Sat(a, v) && Sat(b, v)
    {
      IntersectSat(a, b, v);
    }
  }

  /** x reads the reference variable; the other clocks stay. */
  ghost function ResetMap(n: nat, x: nat): (s: seq<nat>)
    requires x < n
    ensures |s| == n && IndicesInto(s, n)
    ensures forall i :: 0 <= i < n ==> s[i] == if i == x then 0 else i
  {
    seq(n, i requires 0 <= i < n => if i == x then 0 else i as nat)
  }

  /** Resetting x keeps the solutions up to x, which now equals the reference. */
  lemma ResetExact(m: Matrix, x: nat, v: seq<int>)
    requires Canonical(m) && 0 < x < |m| && |v| == |m|
    ensures Sat(Reindex(m, ResetMap(|m|, x)), v) <==> v[x] == v[0] && exists w :: Sat(m, w) && AgreeOff(v, w, x)
  {
    var sigma := ResetMap(|m|, x);
    var r := Reindex(m, sigma);
    if Sat(r, v) {
      var w := ReindexExact(m, sigma, v);
      assert AgreeOff(v, w, x) && v[x] == w[sigma[x]];
    }
    if w :| v[x] == v[0] && Sat(m, w) && AgreeOff(v, w, x) {
      PickSat(m, sigma, w);
      assert Pick(w, sigma) == v;
    }
  }

  /** Removing x projects the solutions. */
  lemma RemoveExact(m: Matrix, x: nat, v: seq<int>)
    requires Canonical(m) && 0 < x < |m| && |v| == |m| - 1
    ensures Sat(Reindex(m, SkipMap(|m|, x)), v) <==> exists w :: Sat(m, w) && v == w[..x] + w[x + 1..]
  {
    var sigma := SkipMap(|m|, x);
    if Sat(Reindex(m, sigma), v) {
      var w := ReindexExact(m, sigma, v);
      assert v == w[..x] + w[x + 1..];
    }
    if w :| Sat(m, w) && v == w[..x] + w[x + 1..] {
      PickSat(m, sigma, w);
      assert Pick(w, sigma) == v;
    }
  }

  lemma PutSame(m: Matrix, i: nat, j: nat)
    requires i < |m| && j < |m|
    ensures Put(m, i, j, m[i][j]) == m
  {
    assert m[i][j := m[i][j]] == m[i];
  }

  /** The matrix that a clock operation leaves: r, or a closure of r. */
  ghost predicate Reclosed(r: Matrix, now: Matrix) {
    now == r || IsClosure(r, now)
  }

  lemma IsReclosed(r: Matrix, now: Matrix, changed: bool)
    requires if changed then IsClosure(r, now) else now == r
    ensures Reclosed(r, now)
  {
  }

  /** The reference is left alone. */
  lemma ResetNothing(m: Matrix)
    requires |m| > 0
    ensures Canonical(m) ==> m == Reindex(m, ResetMap(|m|, 0))
  {
    assert forall i :: 0 <= i < |m| ==> m[i] == Reindex(m, ResetMap(|m|, 0))[i];
  }

  /** For a consistent r with zero diagonal that is the closure, if r was closed
      itself unless it was changed. */
  lemma ClosesTo(r: Matrix, now: Matrix, changed: bool)
    requires ZeroDiagonal(r) && HasSolution(r)
    requires if changed then IsClosure(r, now) else now == r == Close(r)
    ensures now == Close(r)
  {
    if changed {
      CloseUnique(r, now);
    }
  }

  /** Row and column x are copies of those of the reference variable, up to k. */
  ghost predicate ResetProgress(m: Matrix, now: Matrix, x: nat, k: nat) {
    && 0 < x < |m| == |now|
    && now[0][x] == now[x][0] == (if k > 0 then m[0][0] else Fin(0))
    && (forall i: nat, j: nat :: i < |m| && j < |m| && i != x && j != x ==> now[i][j] == m[i][j])
    && (forall i: nat :: i < |m| && i != x ==>
          && now[x][i] == (if i < k then m[0][i] else if i == 0 then Fin(0) else m[x][i])
          && now[i][x] == (if i < k then m[i][0] else if i == 0 then Fin(0) else m[i][x]))
  }

  lemma ResetStep(m: Matrix, now: Matrix, x: nat, k: nat)
    requires k < |m| && ResetProgress(m, now, x, k)
    ensures
      var next := Put(now, x, k, now[0][k]);
      ResetProgress(m, Put(next, k, x, next[k][0]), x, k + 1)
  {
  }

  lemma ResetDone(m: Matrix, now: Matrix, x: nat)
    requires ResetProgress(m, now, x, |m|) && now[x][x] == Fin(0)
    ensures now == ResetMatrix(m, x)
  {
    assert forall i :: 0 <= i < |m| ==> now[i] == ResetMatrix(m, x)[i];
  }

  /** Row and column x are those of the reference variable. */
  ghost function ResetMatrix(m: Matrix, x: nat): (r: Matrix)
    requires x < |m|
    ensures |r| == |m|
    ensures forall i: nat, j: nat {:trigger r[i][j]} :: i < |m| && j < |m| ==>
      r[i][j] == if i == x && j == x then Fin(0) else m[if i == x then 0 else i][if j == x then 0 else j]
  {
    seq(|m|, i requires 0 <= i < |m| =>
      seq(|m|, j requires 0 <= j < |m| =>
        if i == x && j == x then Fin(0) else m[if i == x then 0 else i][if j == x then 0 else j]))
  }

  lemma ResetCanonical(m: Matrix, x: nat)
    requires Canonical(m) && x < |m|
    ensures ResetMatrix(m, x) == Reindex(m, ResetMap(|m|, x))
    ensures ZeroDiagonal(ResetMatrix(m, x)) && HasSolution(ResetMatrix(m, x))
      && Close(ResetMatrix(m, x)) == ResetMatrix(m, x)
  {
    var r := Reindex(m, ResetMap(|m|, x));
    assert forall i :: 0 <= i < |m| ==> ResetMatrix(m, x)[i] == r[i];
    ReindexCanonical(m, ResetMap(|m|, x));
    CloseIdempotent(r);
    var v := ClosedHasSolution(r);
  }

  /** v respects the constraints that do not mention clock x. */
  ghost predicate SatOff(m: Matrix, v: seq<int>, x: nat) {
    |v| == |m| && forall i: nat, j: nat :: i < |m| && j < |m| && i != x && j != x ==> Holds(m, v, i, j)
  }

  /** Off x the constraints of any matrix, canonical or not, stay as they are, and
      x equals the reference variable. */
  lemma ResetSat(m: Matrix, x: nat, v: seq<int>)
    requires 0 < x < |m| && m[0][0] == Fin(0)
    ensures Sat(ResetMatrix(m, x), v) <==>
      SatOff(m, v, x) && v[x] == v[0]
  {
    var r := ResetMatrix(m, x);
    if Sat(r, v) {
      assert Holds(r, v, 0, x) && Holds(r, v, x, 0);
      forall i: nat, j: nat | i < |m| && j < |m| && i != x && j != x
        ensures Holds(m, v, i, j)
      {
        assert Holds(r, v, i, j);
      }
    }
    if SatOff(m, v, x) && v[x] == v[0] {
      forall i: nat, j: nat | i < |m| && j < |m|
        ensures Holds(r, v, i, j)
      {
        assert Holds(m, v, if i == x then 0 else i, if j == x then 0 else j);
      }
    }
  }

  ghost function SkipMap(n: nat, x: nat): (s: seq<nat>)
    requires x < n
    ensures |s| == n - 1 && IndicesInto(s, n)
    ensures forall i :: 0 <= i < n - 1 ==> s[i] == if i < x then i else i + 1
  {
    seq(n - 1, i requires 0 <= i < n - 1 => if i < x then i as nat else i + 1)
  }

  /** Where index j goes when x is gone. */
  function After(x: nat, j: nat): nat
    requires j != x
  {
    if j < x then j else j - 1
  }

  lemma SkipEntries(m: Matrix, x: nat, i: nat)
    requires x < |m| && i < |m| && i != x
    ensures
      var r := Reindex(m, SkipMap(|m|, x));
      && |r| == |m| - 1 && After(x, i) < |r|
      && forall j: nat {:trigger m[i][j]} :: j < |m| && j != x ==> m[i][j] == r[After(x, i)][After(x, j)]
  {
  }

  /** The frozen clocks after clock x is gone. */
  function Renumber(frozen: set<nat>, x: nat): set<nat> {
    set f | f in frozen && f != x :: if f < x then f else f - 1
  }

  /** The matrix that ForgetClock hands to the closure. */
  ghost function FreedMatrix(m: Matrix, x: nat): (r: Matrix)
    requires x < |m|
    ensures |r| == |m|
    ensures forall i: nat, j: nat {:trigger r[i][j]} :: i < |m| && j < |m| ==>
      r[i][j] == if j == x && (i == x || i == 0) then Fin(0) else if i == x || j == x then Inf else m[i][j]
  {
    seq(|m|, i requires 0 <= i < |m| =>
      seq(|m|, j requires 0 <= j < |m| =>
        if j == x && (i == x || i == 0) then Fin(0) else if i == x || j == x then Inf else m[i][j]))
  }

  lemma FreedDone(m: Matrix, f: Matrix, x: nat)
    requires x < |m| == |f|
    requires forall i: nat, j: nat :: i < |m| && j < |m| ==>
      f[i][j] == if j == x && (i == x || i == 0) then Fin(0) else if i == x || j == x then Inf else m[i][j]
    ensures f == FreedMatrix(m, x)
  {
    assert forall i :: 0 <= i < |m| ==> f[i] == FreedMatrix(m, x)[i];
  }

  /** Off x the constraints of any matrix, canonical or not, stay as they are, and
      x is only kept at or above the reference variable. */
  lemma FreedSat(m: Matrix, x: nat, v: seq<int>)
    requires 0 < x < |m|
    ensures Sat(FreedMatrix(m, x), v) <==> SatOff(m, v, x) && v[0] <= v[x]
  {
    var r := FreedMatrix(m, x);
    if Sat(r, v) {
      assert Holds(r, v, 0, x);
      forall i: nat, j: nat | i < |m| && j < |m| && i != x && j != x
        ensures Holds(m, v, i, j)
      {
        assert Holds(r, v, i, j);
      }
    }
    if SatOff(m, v, x) && v[0] <= v[x] {
      forall i: nat, j: nat | i < |m| && j < |m|
        ensures Holds(r, v, i, j)
      {
        if i != x && j != x {
          assert Holds(m, v, i, j);
        }
      }
    }
  }

  /** It closes to ForgetMatrix. */
  lemma FreedCloses(m: Matrix, f: Matrix, x: nat)
    requires Canonical(m) && 0 < x < |m| && f == FreedMatrix(m, x)
    ensures ZeroDiagonal(f) && HasSolution(f) && Close(f) == ForgetMatrix(m, x)
    ensures f == m ==> f == ForgetMatrix(m, x)
  {
    var r := ForgetMatrix(m, x);
    ForgetCanonical(m, x);
    forall v
      ensures Sat(f, v) <==> Sat(r, v)
    {
      if Sat(r, v) {
        TighterSat(r, f, v);
      }
      if Sat(f, v) {
        forall a: nat, b: nat | a < |r| && b < |r|
          ensures Holds(r, v, a, b)
        {
          assert Holds(f, v, a, b) && Holds(f, v, a, 0) && Holds(f, v, 0, x);
        }
      }
    }
    var v := ClosedHasSolution(r);
    assert Sat(f, v);
    CanonicalUnique(Close(f), r);
    if f == m {
      CloseIdempotent(m);
    }
  }

  /** v is a solution whose clock x lies in [alpha, beta]. */
  ghost predicate InRange(m: Matrix, v: seq<int>, x: nat, alpha: int, beta: Bound)
    requires x < |m|
  {
    Sat(m, v) && alpha <= v[x] - v[0] && Within(v[x] - v[0], beta)
  }

  lemma RelaxHasSolution(m: Matrix, k: int, frozen: set<nat>)
    requires Canonical(m) && k >= 0
    ensures HasSolution(RelaxMatrix(m, k, frozen))
    ensures RelaxMatrix(m, k, frozen) == m ==> ExtrapolateMatrix(m, k, frozen) == m
  {
    var r := RelaxMatrix(m, k, frozen);
    var v := ClosedHasSolution(m);
    TighterSat(m, r, v);
    if r == m {
      CloseIdempotent(m);
    }
  }

  lemma RestrictDone(m: Matrix, m1: Matrix, m2: Matrix, x: nat, alpha: int, beta: Bound)
    requires x < |m| && ZeroDiagonal(m) && HasSolution(m2)
    requires m1 == if m[0][x].Inf? || alpha > -m[0][x].v then Put(m, 0, x, Fin(-alpha)) else m
    requires m2 == if beta.Fin? && (m1[x][0].Inf? || beta.v < m1[x][0].v) then Put(m1, x, 0, beta) else m1
    requires forall v :: Sat(m2, v) <==> InRange(m, v, x, alpha, beta)
    ensures ZeroDiagonal(m2)
  {
    var v :| Sat(m2, v);
    assert InRange(m, v, x, alpha, beta);
  }

  lemma RestrictSat(m: Matrix, m1: Matrix, m2: Matrix, x: nat, alpha: int, beta: Bound, v: seq<int>)
    requires x < |m|
    requires m1 == if m[0][x].Inf? || alpha > -m[0][x].v then Put(m, 0, x, Fin(-alpha)) else m
    requires m2 == if beta.Fin? && (m1[x][0].Inf? || beta.v < m1[x][0].v) then Put(m1, x, 0, beta) else m1
    ensures Sat(m2, v) <==> InRange(m, v, x, alpha, beta)
  {
    if m1 != m {
      PutSat(m, 0, x, -alpha, v);
    } else if Sat(m, v) {
      assert Holds(m, v, 0, x);
    }
    if m2 != m1 {
      PutSat(m1, x, 0, beta.v, v);
    } else if Sat(m1, v) {
      assert Holds(m1, v, x, 0);
    }
  }
}
