/** Difference bound matrices as values: solutions, closure, canonical forms.

    Entry m[i][j] bounds x_i - x_j.  Quantified facts are stated through the
    named atoms Holds and Triangle, so that the lemmas below instantiate them
    one index triple at a time. */
module Zones {
  import opened Bounds

  ghost predicate IsSquare(m: seq<seq<Bound>>) {
    forall i :: 0 <= i < |m| ==> |m[i]| == |m|
  }

  type Matrix = m: seq<seq<Bound>> | IsSquare(m) witness []

  function Put(m: Matrix, i: nat, j: nat, b: Bound): (r: Matrix)
    requires i < |m| && j < |m|
  {
    m[i := m[i][j := b]]
  }

  // ---------------------------------------------------------------- solutions

  predicate Holds(m: Matrix, v: seq<int>, i: nat, j: nat)
    requires |v| == |m| && i < |m| && j < |m|
  {
    Within(v[i] - v[j], m[i][j])
  }

  /** v is a solution of every difference constraint in m. */
  ghost predicate Sat(m: Matrix, v: seq<int>) {
    |v| == |m| && forall i: nat, j: nat :: i < |m| && j < |m| ==> Holds(m, v, i, j)
  }

  /** v respects the constraints between the variables of s only. */
  ghost predicate SatOn(m: Matrix, v: seq<int>, s: set<nat>) {
    |v| == |m| && forall i: nat, j: nat :: i in s && j in s && i < |m| && j < |m| ==> Holds(m, v, i, j)
  }

  ghost predicate SameSolutions(a: Matrix, b: Matrix) {
    forall v :: Sat(a, v) <==> Sat(b, v)
  }

  ghost predicate HasSolution(m: Matrix) {
    exists v :: Sat(m, v)
  }

  /** Every entry of a is at least as tight as that of b. */
  predicate Tighter(a: Matrix, b: Matrix) {
    |a| == |b| && forall i: nat, j: nat :: i < |a| && j < |a| ==> Le(a[i][j], b[i][j])
  }

  lemma TighterSat(a: Matrix, b: Matrix, v: seq<int>)
    requires Tighter(a, b) && Sat(a, v)
    ensures Sat(b, v)
  {
    forall i: nat, j: nat | i < |b| && j < |b|
      ensures Holds(b, v, i, j)
    {
      assert Holds(a, v, i, j);
      assert Le(a[i][j], b[i][j]);
    }
  }

  function Shift(v: seq<int>, d: int): (w: seq<int>)
    ensures |w| == |v| && forall i :: 0 <= i < |v| ==> w[i] == v[i] + d
  {
    seq(|v|, i requires 0 <= i < |v| => v[i] + d)
  }

  lemma ShiftSat(m: Matrix, v: seq<int>, d: int)
    requires Sat(m, v)
    ensures Sat(m, Shift(v, d))
  {
    forall i: nat, j: nat | i < |m| && j < |m|
      ensures Holds(m, Shift(v, d), i, j)
    {
      assert Holds(m, v, i, j);
    }
  }

  // ------------------------------------------------------------ closed forms

  predicate Triangle(m: Matrix, i: nat, k: nat, j: nat)
    requires i < |m| && k < |m| && j < |m|
  {
    Le(m[i][j], Add(m[i][k], m[k][j]))
  }

  /** All triangle inequalities through the pivots below k hold. */
  ghost predicate ClosedBelow(m: Matrix, k: nat) {
    forall i: nat, l: nat, j: nat :: i < |m| && l < |m| && l < k && j < |m| ==> Triangle(m, i, l, j)
  }

  ghost predicate NonNegativeDiagonal(m: Matrix) {
    forall i :: 0 <= i < |m| ==> !Negative(m[i][i])
  }

  ghost predicate ZeroDiagonal(m: Matrix) {
    forall i :: 0 <= i < |m| ==> m[i][i] == Fin(0)
  }

  ghost predicate Closed(m: Matrix) {
    NonNegativeDiagonal(m) && ClosedBelow(m, |m|)
  }

  ghost predicate Canonical(m: Matrix) {
    ZeroDiagonal(m) && Closed(m)
  }

  lemma SatDiagonal(m: Matrix, v: seq<int>)
    requires Sat(m, v)
    ensures NonNegativeDiagonal(m)
  {
    forall i | 0 <= i < |m|
      ensures !Negative(m[i][i])
    {
      assert Holds(m, v, i, i);
    }
  }

  /** A solution on s extends to one more variable: the bounds that closedness
      leaves for x_k never cross. */
  lemma ExtendOne(m: Matrix, v: seq<int>, s: set<nat>, k: nat) returns (w: seq<int>)
    requires Closed(m) && SatOn(m, v, s) && k < |m| && k !in s
    ensures SatOn(m, w, s + {k}) && w == v[k := w[k]]
  {
    var low, lowAt := Inf, 0;
    var high, highAt := Inf, 0;
    var q := 0;
    while q < |m|
      invariant 0 <= q <= |m|
      invariant low.Fin? ==> lowAt < |m| && lowAt in s && m[lowAt][k].Fin? && low.v == v[lowAt] - m[lowAt][k].v
      invariant high.Fin? ==> highAt < |m| && highAt in s && m[k][highAt].Fin? && high.v == v[highAt] + m[k][highAt].v
      invariant forall i: nat :: i < q && i in s && m[i][k].Fin? ==> low.Fin? && v[i] - m[i][k].v <= low.v
      invariant forall j: nat :: j < q && j in s && m[k][j].Fin? ==> high.Fin? && high.v <= v[j] + m[k][j].v
    {
      if q in s && m[q][k].Fin? && (low.Inf? || low.v < v[q] - m[q][k].v) {
        low, lowAt := Fin(v[q] - m[q][k].v), q;
      }
      if q in s && m[k][q].Fin? && (high.Inf? || v[q] + m[k][q].v < high.v) {
        high, highAt := Fin(v[q] + m[k][q].v), q;
      }
      q := q + 1;
    }
    var x := if low.Fin? then low.v else if high.Fin? then high.v else 0;
    w := v[k := x];
    forall i: nat, j: nat | i in s + {k} && j in s + {k} && i < |m| && j < |m|
      ensures Holds(m, w, i, j)
    {
      if i != k && j != k {
        assert Holds(m, v, i, j);
      } else if i == k && j != k && low.Fin? {
        assert Triangle(m, lowAt, k, j);
        assert Holds(m, v, lowAt, j);
      }
    }
  }

  /** The extension lemma: on a closed matrix every partial solution extends to
      a full one. */
  lemma Extend(m: Matrix, v: seq<int>, s: set<nat>) returns (w: seq<int>)
    requires Closed(m) && SatOn(m, v, s)
    ensures Sat(m, w) && forall i: nat :: i in s && i < |m| ==> w[i] == v[i]
  {
    w := v;
    var done: set<nat> := s;
    var k: nat := 0;
    while k < |m|
      invariant 0 <= k <= |m|
      invariant SatOn(m, w, done)
      invariant s <= done && forall i: nat :: i < k ==> i in done
      invariant forall i: nat :: i >= k && i in done ==> i in s
      invariant forall i: nat :: i in s && i < |m| ==> w[i] == v[i]
    {
      if k !in done {
        w := ExtendOne(m, w, done, k);
        done := done + {k};
      }
      k := k + 1;
    }
    forall i: nat, j: nat | i < |m| && j < |m|
      ensures Holds(m, w, i, j)
    {
    }
  }

  /** Every difference that the entries (i, j) and (j, i) allow is realised by a
      solution: finite bounds are attained, and Inf bounds are unbounded. */
  lemma Realize(m: Matrix, i: nat, j: nat, d: int) returns (v: seq<int>)
    requires Closed(m) && i < |m| && j < |m| && i != j
    requires Within(d, m[i][j]) && Within(-d, m[j][i])
    ensures Sat(m, v) && v[i] - v[j] == d && v[0] == 0
  {
    var base := seq(|m|, _ => 0)[i := d];
    forall a: nat, b: nat | a in {i, j} && b in {i, j} && a < |m| && b < |m|
      ensures Holds(m, base, a, b)
    {
    }
    v := Extend(m, base, {i, j});
    ShiftSat(m, v, -v[0]);
    v := Shift(v, -v[0]);
  }

  /** Closed matrices have solutions, with the reference variable at zero. */
  lemma ClosedHasSolution(m: Matrix) returns (v: seq<int>)
    requires Closed(m)
    ensures Sat(m, v) && (|m| > 0 ==> v[0] == 0)
  {
    v := Extend(m, seq(|m|, _ => 0), {});
    if |m| > 0 {
      ShiftSat(m, v, -v[0]);
      v := Shift(v, -v[0]);
    }
  }

  /** A canonical zone lies inside another zone exactly when its matrix is
      tighter, entry by entry. */
  lemma InclusionIsSemantic(a: Matrix, b: Matrix)
    requires Canonical(a) && |a| == |b|
    ensures Tighter(a, b) <==> forall v :: Sat(a, v) ==> Sat(b, v)
  {
    if Tighter(a, b) {
      forall v | Sat(a, v)
        ensures Sat(b, v)
      {
        TighterSat(a, b, v);
      }
    }
    if forall v :: Sat(a, v) ==> Sat(b, v) {
      forall i: nat, j: nat | i < |a| && j < |a|
        ensures Le(a[i][j], b[i][j])
      {
        if i == j {
          var v := ClosedHasSolution(a);
          assert Holds(b, v, i, i);
        } else if b[i][j].Fin? {
          assert Triangle(a, j, i, j);
          var low := if a[j][i].Fin? then -a[j][i].v else b[i][j].v + 1;
          var d := if a[i][j].Fin? then a[i][j].v else Max(low, b[i][j].v + 1);
          var v := Realize(a, i, j, d);
          assert Holds(b, v, i, j);
        }
      }
    }
  }

  /** A canonical matrix is determined by its solutions. */
  lemma CanonicalUnique(a: Matrix, b: Matrix)
    requires Canonical(a) && Canonical(b) && |a| == |b| && SameSolutions(a, b)
    ensures a == b
  {
    InclusionIsSemantic(a, b);
    InclusionIsSemantic(b, a);
    forall i: nat | i < |a|
      ensures a[i] == b[i]
    {
      forall j: nat | j < |a|
        ensures a[i][j] == b[i][j]
      {
        assert Le(a[i][j], b[i][j]) && Le(b[i][j], a[i][j]);
      }
    }
  }

  // ------------------------------------------------------------------ closure

  /** One pivot round of the shortest-path closure. */
  function Phase(m: Matrix, k: nat): (r: Matrix)
    requires k < |m|
    ensures |r| == |m|
    ensures forall i: nat, j: nat {:trigger r[i][j]} :: i < |m| && j < |m| ==>
      r[i][j] == Min(m[i][j], Add(m[i][k], m[k][j]))
  {
    seq(|m|, i requires 0 <= i < |m| =>
      seq(|m|, j requires 0 <= j < |m| => Min(m[i][j], Add(m[i][k], m[k][j]))))
  }

  lemma PhaseSat(m: Matrix, k: nat, v: seq<int>)
    requires k < |m|
    ensures Sat(m, v) <==> Sat(Phase(m, k), v)
  {
    var r := Phase(m, k);
    if Sat(m, v) {
      forall i: nat, j: nat | i < |m| && j < |m|
        ensures Holds(r, v, i, j)
      {
        assert Holds(m, v, i, j) && Holds(m, v, i, k) && Holds(m, v, k, j);
      }
    }
    if Sat(r, v) {
      TighterSat(r, m, v);
    }
  }

  /** A round with a non-negative pivot keeps the triangles of the earlier
      pivots and adds its own. */
  lemma PhaseClosed(m: Matrix, k: nat)
    requires k < |m| && ClosedBelow(m, k) && !Negative(m[k][k])
    ensures ClosedBelow(Phase(m, k), k + 1)
  {
    var r := Phase(m, k);
    forall i: nat, l: nat, j: nat | i < |m| && l < |m| && l < k + 1 && j < |m|
      ensures Triangle(r, i, l, j)
    {
      if l < k {
        assert Triangle(m, i, l, j) && Triangle(m, k, l, j) && Triangle(m, i, l, k) && Triangle(m, k, l, k);
      }
    }
  }

  lemma PhaseTighter(m: Matrix, c: Matrix, k: nat)
    requires k < |c| && Tighter(c, m)
    ensures Tighter(Phase(c, k), m)
  {
    var r := Phase(c, k);
    forall i: nat, j: nat | i < |r| && j < |r|
      ensures Le(r[i][j], m[i][j])
    {
      assert Le(c[i][j], m[i][j]);
    }
  }

  /** c keeps the solutions of m, only tightens it, and is closed for the first
      k pivots unless a diagonal entry is negative. */
  ghost predicate PartialClosure(m: Matrix, c: Matrix, k: nat) {
    && SameSolutions(m, c) && Tighter(c, m)
    && (NonNegativeDiagonal(c) ==> ClosedBelow(c, k))
  }

  lemma PartialClosureStep(m: Matrix, c: Matrix, k: nat)
    requires k < |c| && PartialClosure(m, c, k)
    ensures PartialClosure(m, Phase(c, k), k + 1)
  {
    var r := Phase(c, k);
    forall v
      ensures Sat(m, v) <==> Sat(r, v)
    {
      PhaseSat(c, k, v);
    }
    PhaseTighter(m, c, k);
    if NonNegativeDiagonal(r) {
      forall i | 0 <= i < |c|
        ensures !Negative(c[i][i])
      {
        assert !Negative(r[i][i]);
      }
      PhaseClosed(c, k);
    }
  }

  /** The closure of a square matrix: the solutions stay, the diagonal decides
      satisfiability, and satisfiable closures are closed. */
  ghost predicate IsClosure(m: Matrix, c: Matrix) {
    && SameSolutions(m, c) && Tighter(c, m)
    && (NonNegativeDiagonal(c) <==> HasSolution(m))
    && (HasSolution(m) ==> Closed(c))
    && (HasSolution(m) && ZeroDiagonal(m) ==> Canonical(c))
  }

  lemma PartialClosureDone(m: Matrix, c: Matrix)
    requires PartialClosure(m, c, |m|)
    ensures IsClosure(m, c)
  {
    if NonNegativeDiagonal(c) {
      var v := ClosedHasSolution(c);
      assert Sat(m, v);
    }
    if HasSolution(m) {
      var v :| Sat(m, v);
      SatDiagonal(c, v);
      forall i | 0 <= i < |m| && m[i][i] == Fin(0)
        ensures c[i][i] == Fin(0)
      {
        assert Le(c[i][i], m[i][i]);
      }
    }
  }

  /** Closures exist, since the pivot rounds build one. */
  lemma ClosureExists(m: Matrix)
    ensures exists c: Matrix :: IsClosure(m, c)
  {
    var c := m;
    var k: nat := 0;
    while k < |m|
      invariant k <= |m| == |c| && PartialClosure(m, c, k)
    {
      PartialClosureStep(m, c, k);
      c := Phase(c, k);
      k := k + 1;
    }
    PartialClosureDone(m, c);
  }

  ghost function Close(m: Matrix): (c: Matrix)
    ensures IsClosure(m, c)
  {
    ClosureExists(m);
    var c: Matrix :| IsClosure(m, c);
    c
  }

  /** A satisfiable matrix with a zero diagonal has one closure. */
  lemma CloseUnique(m: Matrix, c: Matrix)
    requires IsClosure(m, c) && ZeroDiagonal(m) && HasSolution(m)
    ensures c == Close(m)
  {
    CanonicalUnique(c, Close(m));
  }

  lemma CloseIdempotent(m: Matrix)
    requires Canonical(m)
    ensures Close(m) == m
  {
    var v := ClosedHasSolution(m);
    CanonicalUnique(Close(m), m);
  }

  // -------------------------------------------------- incremental tightening

  /** The O(n^2) update: only paths through the new edge i -> j can improve. */
  function TightenMatrix(m: Matrix, i: nat, j: nat, b: int): (r: Matrix)
    requires i < |m| && j < |m|
    ensures |r| == |m|
    ensures forall x: nat, y: nat {:trigger r[x][y]} :: x < |m| && y < |m| ==>
      r[x][y] == Min(m[x][y], Add(Add(m[x][i], Fin(b)), m[j][y]))
  {
    seq(|m|, x requires 0 <= x < |m| =>
      seq(|m|, y requires 0 <= y < |m| => Min(m[x][y], Add(Add(m[x][i], Fin(b)), m[j][y]))))
  }

  lemma TightenClosed(m: Matrix, i: nat, j: nat, b: int)
    requires Canonical(m) && i < |m| && j < |m| && !Negative(Add(Fin(b), m[j][i]))
    ensures Canonical(TightenMatrix(m, i, j, b)) && Tighter(TightenMatrix(m, i, j, b), m)
  {
    var r := TightenMatrix(m, i, j, b);
    forall x: nat, l: nat, y: nat | x < |m| && l < |m| && y < |m|
      ensures Triangle(r, x, l, y)
    {
      assert Triangle(m, x, l, y) && Triangle(m, j, l, y) && Triangle(m, x, l, i) && Triangle(m, j, l, i);
    }
    forall x | 0 <= x < |m|
      ensures r[x][x] == Fin(0)
    {
      assert Triangle(m, j, x, i);
    }
  }

  lemma TightenSat(m: Matrix, i: nat, j: nat, b: int, v: seq<int>)
    requires Canonical(m) && i < |m| && j < |m|
    ensures Sat(TightenMatrix(m, i, j, b), v) <==> Sat(m, v) && v[i] - v[j] <= b
  {
    var r := TightenMatrix(m, i, j, b);
    if Sat(m, v) && v[i] - v[j] <= b {
      forall x: nat, y: nat | x < |m| && y < |m|
        ensures Holds(r, v, x, y)
      {
        assert Holds(m, v, x, y) && Holds(m, v, x, i) && Holds(m, v, j, y);
      }
    }
    if Sat(r, v) {
      TighterSat(r, m, v);
      assert Holds(r, v, i, j);
    }
  }

  /** The incremental update computes the full closure of the edited matrix. */
  lemma TightenIsClose(m: Matrix, i: nat, j: nat, b: int)
    requires Canonical(m) && i < |m| && j < |m| && i != j
    requires Lt(Fin(b), m[i][j]) && !Negative(Add(Fin(b), m[j][i]))
    ensures TightenMatrix(m, i, j, b) == Close(Put(m, i, j, Fin(b)))
  {
    var r, p := TightenMatrix(m, i, j, b), Put(m, i, j, Fin(b));
    TightenClosed(m, i, j, b);
    forall v
      ensures Sat(r, v) <==> Sat(p, v)
    {
      TightenSat(m, i, j, b, v);
      PutSat(m, i, j, b, v);
    }
    var v := ClosedHasSolution(r);
    assert Sat(p, v);
    CanonicalUnique(r, Close(p));
  }

  /** Overwriting an entry with a smaller bound intersects the solutions with
      that one constraint. */
  lemma PutSat(m: Matrix, i: nat, j: nat, b: int, v: seq<int>)
    requires i < |m| && j < |m| && Le(Fin(b), m[i][j])
    ensures Sat(Put(m, i, j, Fin(b)), v) <==> Sat(m, v) && v[i] - v[j] <= b
  {
    var p := Put(m, i, j, Fin(b));
    if Sat(m, v) && v[i] - v[j] <= b {
      forall x: nat, y: nat | x < |m| && y < |m|
        ensures Holds(p, v, x, y)
      {
        assert Holds(m, v, x, y);
      }
    }
    if Sat(p, v) {
      TighterSat(p, m, v);
      assert Holds(p, v, i, j);
    }
  }

  /** The tightened zone is empty exactly when the new edge closes a negative
      cycle with the opposite entry. */
  lemma TightenEmpty(m: Matrix, i: nat, j: nat, b: int)
    requires Canonical(m) && i < |m| && j < |m|
    ensures Negative(Add(Fin(b), m[j][i])) <==> !exists v :: Sat(m, v) && v[i] - v[j] <= b
  {
    if Negative(Add(Fin(b), m[j][i])) {
      forall v | Sat(m, v)
        ensures v[i] - v[j] > b
      {
        assert Holds(m, v, j, i);
      }
    } else {
      TightenClosed(m, i, j, b);
      var v := ClosedHasSolution(TightenMatrix(m, i, j, b));
      TightenSat(m, i, j, b, v);
    }
  }

  // ------------------------------------------------------------ extrapolation

  /** Bounds above k are dropped, bounds below -k are raised to -k; the rows and
      columns of frozen clocks stay. */
  function RelaxEntry(b: Bound, k: int): Bound {
    if b.Inf? then Inf else if b.v > k then Inf else if b.v < -k then Fin(-k) else b
  }

  function RelaxMatrix(m: Matrix, k: int, frozen: set<nat>): (r: Matrix)
    ensures |r| == |m|
    ensures forall i: nat, j: nat {:trigger r[i][j]} :: i < |m| && j < |m| ==>
      r[i][j] == if i == j || i in frozen || j in frozen then m[i][j] else RelaxEntry(m[i][j], k)
  {
    seq(|m|, i requires 0 <= i < |m| =>
      seq(|m|, j requires 0 <= j < |m| =>
        if i == j || i in frozen || j in frozen then m[i][j] else RelaxEntry(m[i][j], k)))
  }

  ghost function ExtrapolateMatrix(m: Matrix, k: int, frozen: set<nat>): (r: Matrix)
    ensures |r| == |m|
  {
    Close(RelaxMatrix(m, k, frozen))
  }

  /** Extrapolation of a canonical zone is canonical and loses no solution, and
      every bound below k survives. */
  lemma ExtrapolateCorrect(m: Matrix, k: int, frozen: set<nat>)
    requires Canonical(m) && k >= 0
    ensures Canonical(ExtrapolateMatrix(m, k, frozen))
    ensures Tighter(m, ExtrapolateMatrix(m, k, frozen))
    ensures forall i: nat, j: nat :: i < |m| && j < |m| && Le(m[i][j], Fin(k)) ==>
      Le(ExtrapolateMatrix(m, k, frozen)[i][j], Fin(Max(m[i][j].v, -k)))
  {
    var r := RelaxMatrix(m, k, frozen);
    var v := ClosedHasSolution(m);
    TighterSat(m, r, v);
    forall w | Sat(m, w)
      ensures Sat(Close(r), w)
    {
      TighterSat(m, r, w);
    }
    InclusionIsSemantic(m, Close(r));
    forall i: nat, j: nat | i < |m| && j < |m| && Le(m[i][j], Fin(k))
      ensures Le(Close(r)[i][j], Fin(Max(m[i][j].v, -k)))
    {
      assert Le(Close(r)[i][j], r[i][j]);
    }
  }

  // ------------------------------------------------- reindexing and projection

  ghost predicate IndicesInto(sigma: seq<nat>, n: nat) {
    forall i :: 0 <= i < |sigma| ==> sigma[i] < n
  }

  /** Variable i of the result is variable sigma[i] of m. */
  ghost function Reindex(m: Matrix, sigma: seq<nat>): (r: Matrix)
    requires IndicesInto(sigma, |m|)
    ensures |r| == |sigma|
    ensures forall i: nat, j: nat {:trigger r[i][j]} :: i < |r| && j < |r| ==> r[i][j] == m[sigma[i]][sigma[j]]
  {
    seq(|sigma|, i requires 0 <= i < |sigma| =>
      seq(|sigma|, j requires 0 <= j < |sigma| => m[sigma[i]][sigma[j]]))
  }

  ghost function Pick(v: seq<int>, sigma: seq<nat>): (w: seq<int>)
    requires IndicesInto(sigma, |v|)
    ensures |w| == |sigma| && forall i :: 0 <= i < |sigma| ==> w[i] == v[sigma[i]]
  {
    seq(|sigma|, i requires 0 <= i < |sigma| => v[sigma[i]])
  }

  lemma ReindexCanonical(m: Matrix, sigma: seq<nat>)
    requires Canonical(m) && IndicesInto(sigma, |m|)
    ensures Canonical(Reindex(m, sigma))
  {
    var r := Reindex(m, sigma);
    forall i: nat, k: nat, j: nat | i < |r| && k < |r| && j < |r|
      ensures Triangle(r, i, k, j)
    {
      assert Triangle(m, sigma[i], sigma[k], sigma[j]);
    }
  }

  lemma PickSat(m: Matrix, sigma: seq<nat>, v: seq<int>)
    requires Sat(m, v) && IndicesInto(sigma, |m|)
    ensures Sat(Reindex(m, sigma), Pick(v, sigma))
  {
    var r, w := Reindex(m, sigma), Pick(v, sigma);
    forall i: nat, j: nat | i < |r| && j < |r|
      ensures Holds(r, w, i, j)
    {
      assert Holds(m, v, sigma[i], sigma[j]);
    }
  }

  /** Every solution of the reindexed matrix comes from one of m: the image is
      exact, by the extension lemma. */
  lemma ReindexExact(m: Matrix, sigma: seq<nat>, w: seq<int>) returns (v: seq<int>)
    requires Canonical(m) && IndicesInto(sigma, |m|) && Sat(Reindex(m, sigma), w)
    ensures Sat(m, v) && Pick(v, sigma) == w
  {
    var r := Reindex(m, sigma);
    v := seq(|m|, _ => 0);
    var done: set<nat> := {};
    var k: nat := 0;
    while k < |sigma|
      invariant k <= |sigma| && |v| == |m|
      invariant forall i: nat :: i < k ==> sigma[i] in done
      invariant forall s: nat :: s in done ==> exists i: nat :: i < k && sigma[i] == s
      invariant forall i: nat :: i < k ==> v[sigma[i]] == w[i]
    {
      forall i: nat | i < k && sigma[i] == sigma[k]
        ensures w[i] == w[k]
      {
        assert Holds(r, w, i, k) && Holds(r, w, k, i);
      }
      v := v[sigma[k] := w[k]];
      done := done + {sigma[k]};
      k := k + 1;
    }
    forall a: nat, b: nat | a in done && b in done && a < |m| && b < |m|
      ensures Holds(m, v, a, b)
    {
      var i: nat :| i < k && sigma[i] == a;
      var j: nat :| j < k && sigma[j] == b;
      assert Holds(r, w, i, j);
    }
    v := Extend(m, v, done);
  }

  /** x becomes an arbitrary value at or above the reference variable. */
  ghost function ForgetMatrix(m: Matrix, x: nat): (r: Matrix)
    requires 0 < x < |m|
    ensures |r| == |m|
    ensures forall i: nat, j: nat {:trigger r[i][j]} :: i < |m| && j < |m| ==>
      r[i][j] == if j == x then (if i == x then Fin(0) else m[i][0]) else if i == x then Inf else m[i][j]
  {
    seq(|m|, i requires 0 <= i < |m| =>
      seq(|m|, j requires 0 <= j < |m| =>
        if j == x then (if i == x then Fin(0) else m[i][0]) else if i == x then Inf else m[i][j]))
  }

  lemma ForgetCanonical(m: Matrix, x: nat)
    requires Canonical(m) && 0 < x < |m|
    ensures Canonical(ForgetMatrix(m, x))
  {
    var r := ForgetMatrix(m, x);
    forall i: nat, k: nat, j: nat | i < |r| && k < |r| && j < |r|
      ensures Triangle(r, i, k, j)
    {
      assert Triangle(m, i, k, j) && Triangle(m, i, k, 0);
    }
  }

  ghost predicate AgreeOff(v: seq<int>, w: seq<int>, x: nat) {
    |v| == |w| && forall i :: 0 <= i < |v| && i != x ==> v[i] == w[i]
  }

  ghost function Below(n: nat): (s: set<nat>)
    ensures forall i: nat :: i in s <==> i < n
  {
    if n == 0 then {} else Below(n - 1) + {n - 1}
  }

  /** Forgetting x is exact: the solutions are those of m with x_x replaced by
      any value at or above x_0. */
  lemma ForgetExact(m: Matrix, x: nat, v: seq<int>)
    requires Canonical(m) && 0 < x < |m| && |v| == |m|
    ensures Sat(ForgetMatrix(m, x), v) <==> v[x] >= v[0] && exists w :: Sat(m, w) && AgreeOff(v, w, x)
  {
    var r := ForgetMatrix(m, x);
    if Sat(r, v) {
      assert Holds(r, v, 0, x);
      var s := Below(|m|) - {x};
      forall i: nat, j: nat | i in s && j in s
        ensures Holds(m, v, i, j)
      {
        assert Holds(r, v, i, j);
      }
      var w := Extend(m, v, s);
      assert AgreeOff(v, w, x);
    }
    if w :| v[x] >= v[0] && Sat(m, w) && AgreeOff(v, w, x) {
      forall i: nat, j: nat | i < |m| && j < |m|
        ensures Holds(r, v, i, j)
      {
        assert Holds(m, w, i, j) && Holds(m, w, i, 0);
      }
    }
  }
}
