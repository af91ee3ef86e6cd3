/** The 32-bit layer: the closure with an INF sentinel and saturating sums.

    The rest of the model works with unbounded bounds.  Here the pivot loops run
    on int32 entries, as the C++ class does, and are related to that model. */
module Saturation {
  import opened Bounds
  import opened Zones
  import opened Walks

  const INT_MIN: int := -0x8000_0000
  const INT_MAX: int := 0x7fff_ffff
  const INF_TIME: int := INT_MAX

  type Int32 = x: int | -0x8000_0000 <= x <= 0x7fff_ffff

  function SafeAdd(lhs: Int32, rhs: Int32): Int32 {
    if lhs == INF_TIME || rhs == INF_TIME then INF_TIME
    else if (rhs > 0 && lhs > INT_MAX - rhs) || (rhs < 0 && lhs < INT_MIN - rhs) then
      if rhs > 0 then INF_TIME else INT_MIN
    else lhs + rhs
  }

  function ToBound(x: Int32): Bound {
    if x == INF_TIME then Inf else Fin(x)
  }

  ghost predicate IsSquare32(m: seq<seq<Int32>>) {
    forall i :: 0 <= i < |m| ==> |m[i]| == |m|
  }

  type Matrix32 = m: seq<seq<Int32>> | IsSquare32(m) witness []

  /** The bounds that an int32 matrix stands for. */
  ghost function Meaning(m: Matrix32): (r: Matrix)
    ensures |r| == |m|
    ensures forall i: nat, j: nat {:trigger r[i][j]} :: i < |m| && j < |m| ==> r[i][j] == ToBound(m[i][j])
  {
    seq(|m|, i requires 0 <= i < |m| => seq(|m|, j requires 0 <= j < |m| => ToBound(m[i][j])))
  }

  /** A saturated sum is never tighter than the exact one, and never invents
      a bound. */
  lemma SafeAddSound(lhs: Int32, rhs: Int32)
    ensures Le(Add(ToBound(lhs), ToBound(rhs)), ToBound(SafeAdd(lhs, rhs)))
    ensures INT_MIN <= lhs + rhs < INF_TIME && lhs != INF_TIME && rhs != INF_TIME ==>
      ToBound(SafeAdd(lhs, rhs)) == Add(ToBound(lhs), ToBound(rhs))
  {
  }

  /** One relaxation as coded: skip INF operands, replace INF or larger entries. */
  function Relaxed(ik: Int32, kj: Int32, ij: Int32): Int32 {
    if ik == INF_TIME || kj == INF_TIME then ij
    else
      var newBound := SafeAdd(ik, kj);
      if ij == INF_TIME || newBound < ij then newBound else ij
  }

  function Put32(m: Matrix32, i: nat, j: nat, x: Int32): Matrix32
    requires i < |m| && j < |m|
  {
    var row: seq<Int32> := m[i][j := x];
    m[i := row]
  }

  lemma MeaningPut(m: Matrix32, i: nat, j: nat, x: Int32)
    requires i < |m| && j < |m|
    ensures Meaning(Put32(m, i, j, x)) == Put(Meaning(m), i, j, ToBound(x))
  {
    var a, b := Meaning(Put32(m, i, j, x)), Put(Meaning(m), i, j, ToBound(x));
    forall p: nat | p < |m|
      ensures a[p] == b[p]
    {
      assert forall q: nat :: q < |m| ==> a[p][q] == b[p][q];
    }
  }

  /** A relaxation keeps the solutions, saturated or not. */
  lemma RelaxedSame(m: Matrix32, i: nat, k: nat, j: nat)
    requires i < |m| && k < |m| && j < |m|
    ensures SameSolutions(Meaning(m), Meaning(Put32(m, i, j, Relaxed(m[i][k], m[k][j], m[i][j]))))
  {
    var x, b := Relaxed(m[i][k], m[k][j], m[i][j]), Meaning(m);
    MeaningPut(m, i, j, x);
    SafeAddSound(m[i][k], m[k][j]);
    if x == m[i][j] {
      assert m[i][j := x] == m[i];
      assert Put32(m, i, j, x) == m;
    } else {
      forall v
        ensures Sat(b, v) <==> Sat(Put(b, i, j, Fin(x)), v)
      {
        PutSat(b, i, j, x, v);
        if Sat(b, v) {
          assert Holds(b, v, i, k) && Holds(b, v, k, j);
        }
      }
    }
  }

  /** When the exact result is small, saturation cannot change it: a sum that
      overflows is a sum that the exact relaxation discards. */
  lemma RelaxedExact(ik: Int32, kj: Int32, ij: Int32, w: int)
    requires 0 <= w < INT_MAX
    requires EntryWithin(ToBound(ij), w)
    requires EntryWithin(Min(ToBound(ij), Add(ToBound(ik), ToBound(kj))), w)
    ensures ToBound(Relaxed(ik, kj, ij)) == Min(ToBound(ij), Add(ToBound(ik), ToBound(kj)))
  {
  }

  /** The matrices for which the 32-bit closure is exact. */
  ghost predicate Small(m: Matrix, b: nat) {
    && |m| > 0 && HasSolution(m) && ZeroDiagonal(m)
    && EntriesWithin(m, b) && (|m| - 1) * b < INT_MAX
  }

  /** How far the 32-bit rounds have got: always the same solutions; on small
      matrices, the exact intermediate matrix. */
  ghost predicate Progress(m: Matrix, b: nat, now: Matrix32, k: nat) {
    && |now| == |m| && k <= |m|
    && var same, exact := SameSolutions(m, Meaning(now)), Small(m, b) ==> Meaning(now) == Rounds(m, k);
       same && exact
  }

  ghost predicate InRound(m: Matrix, b: nat, was: Matrix32, now: Matrix32, k: nat, i: nat, j: nat) {
    var same, exact := SameSolutions(m, Meaning(now)), Small(m, b) ==> Mixed(Meaning(was), Meaning(now), k, i, j);
    var before := Progress(m, b, was, k);
    |was| == |now| == |m| && k < |m| && before && same && exact
  }

  /** The cells before (i, j) hold the entries of the next round. */
  ghost predicate Mixed(was: Matrix, now: Matrix, k: nat, i: nat, j: nat) {
    && k < |was| == |now|
    && forall x: nat, y: nat :: x < |was| && y < |was| ==>
         now[x][y] == if x < i || (x == i && y < j) then Phase(was, k)[x][y] else was[x][y]
  }

  lemma RoundBounds(m: Matrix, b: nat, was: Matrix32, k: nat)
    requires Small(m, b) && Progress(m, b, was, k) && k < |m|
    ensures EntriesWithin(Meaning(was), (|m| - 1) * b)
    ensures EntriesWithin(Phase(Meaning(was), k), (|m| - 1) * b)
    ensures NonNegativeDiagonal(Meaning(was))
  {
    hide ShortestVia, EntriesWithin, EntryWithin;
    var c := Meaning(was);
    RoundsShortest(m, k);
    PartialClosureWithin(m, c, k, b);
    ShortestStep(m, c, k);
    PartialClosureWithin(m, Phase(c, k), k + 1, b);
    var v :| Sat(m, v);
    SatDiagonal(c, v);
  }

  lemma MixedStep(was: Matrix, now: Matrix, k: nat, i: nat, j: nat, x: Bound)
    requires i < |was| && j < |was| && Mixed(was, now, k, i, j) && !Negative(was[k][k])
    requires x == Min(now[i][j], Add(now[i][k], now[k][j]))
    ensures now[i][j] == was[i][j] && x == Phase(was, k)[i][j]
    ensures Mixed(was, Put(now, i, j, x), k, i, j + 1)
  {
    assert Phase(was, k)[i][k] == was[i][k] && Phase(was, k)[k][j] == was[k][j];
  }

  lemma StepExact(m: Matrix, b: nat, was: Matrix32, now: Matrix32, k: nat, i: nat, j: nat)
    requires Small(m, b) && InRound(m, b, was, now, k, i, j) && i < |m| && j < |m|
    ensures
      var x := Relaxed(now[i][k], now[k][j], now[i][j]);
      Mixed(Meaning(was), Meaning(Put32(now, i, j, x)), k, i, j + 1)
  {
    var w, c, d := (|m| - 1) * b, Meaning(was), Meaning(now);
    RoundBounds(m, b, was, k);
    Scale(0, |m| - 1, b);
    var x := Relaxed(now[i][k], now[k][j], now[i][j]);
    var exact := Min(d[i][j], Add(d[i][k], d[k][j]));
    assert !Negative(c[k][k]);
    MixedStep(c, d, k, i, j, exact);
    assert EntryWithin(c[i][j], w) && EntryWithin(Phase(c, k)[i][j], w);
    RelaxedExact(now[i][k], now[k][j], now[i][j], w);
    MeaningPut(now, i, j, x);
  }

  lemma RoundStep(m: Matrix, b: nat, was: Matrix32, now: Matrix32, k: nat, i: nat, j: nat)
    requires InRound(m, b, was, now, k, i, j) && i < |m| && j < |m|
    ensures
      var x := Relaxed(now[i][k], now[k][j], now[i][j]);
      InRound(m, b, was, Put32(now, i, j, x), k, i, j + 1)
  {
    RelaxedSame(now, i, k, j);
    if Small(m, b) {
      StepExact(m, b, was, now, k, i, j);
    }
  }

  lemma RoundSkip(m: Matrix, b: nat, was: Matrix32, now: Matrix32, k: nat, i: nat)
    requires InRound(m, b, was, now, k, i, 0) && i < |m| && now[i][k] == INF_TIME
    ensures InRound(m, b, was, now, k, i, |m|)
  {
    if Small(m, b) {
      RoundBounds(m, b, was, k);
      var c := Meaning(was);
      assert !Negative(c[k][k]) && Meaning(now)[i][k] == c[i][k];
    }
  }

  lemma RoundRow(m: Matrix, b: nat, was: Matrix32, now: Matrix32, k: nat, i: nat)
    requires InRound(m, b, was, now, k, i, |m|) && i < |m|
    ensures InRound(m, b, was, now, k, i + 1, 0)
  {
  }

  lemma RoundDone(m: Matrix, b: nat, was: Matrix32, now: Matrix32, k: nat)
    requires InRound(m, b, was, now, k, |m|, 0)
    ensures Progress(m, b, now, k + 1)
  {
    if Small(m, b) {
      var c, d := Meaning(was), Meaning(now);
      assert d == Phase(c, k) by {
        assert forall x :: 0 <= x < |m| ==> d[x] == Phase(c, k)[x];
      }
    }
  }

  lemma ProgressDone(m: Matrix, b: nat, now: Matrix32)
    requires Progress(m, b, now, |m|) && Small(m, b)
    ensures Meaning(now) == Close(m)
  {
    RoundsShortest(m, |m|);
    PartialClosureDone(m, Meaning(now));
    CloseUnique(m, Meaning(now));
  }

  // ------------------------------------------------------------------ exact sums

  /** The saturating sum of two entries is the true one. */
  predicate IsTrueSum(x: Int32, y: Int32) {
    x != INF_TIME && y != INF_TIME ==> ToBound(SafeAdd(x, y)) == Add(ToBound(x), ToBound(y))
  }

  /** The true sum of two bounds is an int32 below the sentinel. */
  predicate Fits(x: Bound, y: Bound) {
    x.Fin? && y.Fin? ==> INT_MIN <= x.v + y.v < INF_TIME
  }

  /** The sum that round x forms for the entry (y, z). */
  ghost predicate SumAt(m: Matrix, x: nat, y: nat, z: nat) {
    x < |m| && y < |m| && z < |m| ==> Fits(Rounds(m, x)[y][x], Rounds(m, x)[x][z])
  }

  /** The sums before the one of round k for the entry (i, j). */
  ghost predicate FitBefore(m: Matrix, k: nat, i: nat, j: nat) {
    forall x: nat, y: nat, z: nat :: x < |m| && y < |m| && z < |m| && Earlier(x, y, z, k, i, j) ==> SumAt(m, x, y, z)
  }

  predicate Earlier(x: nat, y: nat, z: nat, k: nat, i: nat, j: nat) {
    x < k || (x == k && (y < i || (y == i && z < j)))
  }

  /** All sums of the closure fit. */
  ghost predicate SumsFit(m: Matrix) {
    FitBefore(m, |m|, 0, 0)
  }

  /** exact says whether all sums so far were the true ones. */
  ghost predicate Tracks(m: Matrix, b: nat, exact: bool, k: nat, i: nat, j: nat) {
    Small(m, b) ==> (exact <==> FitBefore(m, k, i, j))
  }

  lemma TracksStep(m: Matrix, b: nat, was: Matrix32, now: Matrix32, exact: bool, k: nat, i: nat, j: nat)
    requires InRound(m, b, was, now, k, i, j) && i < |m| && j < |m| && Tracks(m, b, exact, k, i, j)
    ensures Tracks(m, b, exact && IsTrueSum(now[i][k], now[k][j]), k, i, j + 1)
  {
    if Small(m, b) {
      var c, d := Meaning(was), Meaning(now);
      RoundBounds(m, b, was, k);
      assert !Negative(c[k][k]) && Phase(c, k)[i][k] == c[i][k] && Phase(c, k)[k][j] == c[k][j];
      assert d[i][k] == c[i][k] && d[k][j] == c[k][j] && c == Rounds(m, k);
      assert IsTrueSum(now[i][k], now[k][j]) <==> SumAt(m, k, i, j);
      FitNext(m, k, i, j);
    }
  }

  lemma FitNext(m: Matrix, k: nat, i: nat, j: nat)
    requires k < |m| && i < |m| && j < |m|
    ensures FitBefore(m, k, i, j + 1) <==> FitBefore(m, k, i, j) && SumAt(m, k, i, j)
  {
    if FitBefore(m, k, i, j + 1) {
      assert Earlier(k, i, j, k, i, j + 1);
      forall x: nat, y: nat, z: nat | x < |m| && y < |m| && z < |m| && Earlier(x, y, z, k, i, j)
        ensures SumAt(m, x, y, z)
      {
        assert Earlier(x, y, z, k, i, j + 1);
      }
    }
  }

  /** A row without a bound on the pivot forms no sums. */
  lemma TracksSkip(m: Matrix, b: nat, was: Matrix32, now: Matrix32, exact: bool, k: nat, i: nat)
    requires InRound(m, b, was, now, k, i, 0) && i < |m| && now[i][k] == INF_TIME && Tracks(m, b, exact, k, i, 0)
    ensures Tracks(m, b, exact, k, i, |m|)
  {
    if Small(m, b) {
      RoundBounds(m, b, was, k);
      var c := Meaning(was);
      assert !Negative(c[k][k]) && Meaning(now)[i][k] == c[i][k] == Inf && c == Rounds(m, k);
      forall x: nat, y: nat, z: nat | FitBefore(m, k, i, 0) && x < |m| && y < |m| && z < |m|
        && Earlier(x, y, z, k, i, |m|)
        ensures SumAt(m, x, y, z)
      {
        assert Earlier(x, y, z, k, i, 0) || (x == k && y == i);
      }
      forall x: nat, y: nat, z: nat | FitBefore(m, k, i, |m|) && x < |m| && y < |m| && z < |m|
        && Earlier(x, y, z, k, i, 0)
        ensures SumAt(m, x, y, z)
      {
        assert Earlier(x, y, z, k, i, |m|);
      }
    }
  }

  /** The end of a row is the start of the next, and so with rounds. */
  lemma TracksRow(m: Matrix, b: nat, exact: bool, k: nat, i: nat)
    requires Tracks(m, b, exact, k, i, |m|)
    ensures Tracks(m, b, exact, k, i + 1, 0)
  {
    assert forall x: nat, y: nat, z: nat :: z < |m| ==>
      (Earlier(x, y, z, k, i, |m|) <==> Earlier(x, y, z, k, i + 1, 0));
  }

  lemma TracksRound(m: Matrix, b: nat, exact: bool, k: nat)
    requires Tracks(m, b, exact, k, |m|, 0)
    ensures Tracks(m, b, exact, k + 1, 0, 0)
  {
    assert forall x: nat, y: nat, z: nat :: y < |m| ==>
      (Earlier(x, y, z, k, |m|, 0) <==> Earlier(x, y, z, k + 1, 0, 0));
  }

  class DBM32 {
    var matrix: Matrix32
    /** No sum so far was cut off. */
    ghost var exact: bool

    constructor (m: Matrix32)
      ensures matrix == m
    {
      matrix := m;
    }

    /** The innermost loop body. */
    method Relax(i: nat, k: nat, j: nat)
      requires i < |matrix| && k < |matrix| && j < |matrix|
      modifies this
      ensures matrix == (var m := old(matrix); Put32(m, i, j, Relaxed(m[i][k], m[k][j], m[i][j])))
      ensures exact == (old(exact) && IsTrueSum(old(matrix)[i][k], old(matrix)[k][j]))
    {
      ghost var m := matrix;
      exact := exact && IsTrueSum(matrix[i][k], matrix[k][j]);
      assert m[i][j := m[i][j]] == m[i] && m[i := m[i]] == m;
      if matrix[k][j] != INF_TIME {
        var newBound := SafeAdd(matrix[i][k], matrix[k][j]);
        if matrix[i][j] == INF_TIME || newBound < matrix[i][j] {
          matrix := Put32(matrix, i, j, newBound);
        }
      }
    }

    /** The innermost loop. */
    method RelaxRow(i: nat, k: nat, ghost m: Matrix, ghost b: nat, ghost was: Matrix32)
      requires InRound(m, b, was, matrix, k, i, 0) && i < |m| && Tracks(m, b, exact, k, i, 0)
      modifies this
      ensures InRound(m, b, was, matrix, k, i, |m|) && Tracks(m, b, exact, k, i, |m|)
    {
      var n := |matrix|;
      var j := 0;
      while j < n
        invariant j <= n == |m| && InRound(m, b, was, matrix, k, i, j) && Tracks(m, b, exact, k, i, j)
      {
        RoundStep(m, b, was, matrix, k, i, j);
        TracksStep(m, b, was, matrix, exact, k, i, j);
        Relax(i, k, j);
        j := j + 1;
      }
    }

    /** The pivot loops on int32 entries.  The solutions never change; and on a
        consistent matrix whose entries are below INT_MAX / (n - 1), the result
        is the unbounded closure, and exact tells whether every sum was the true
        one.  b is any bound on the entries. */
    method Minimize(ghost b: nat)
      modifies this
      ensures |matrix| == |old(matrix)|
      ensures SameSolutions(Meaning(old(matrix)), Meaning(matrix))
      ensures Small(Meaning(old(matrix)), b) ==> Meaning(matrix) == Close(Meaning(old(matrix)))
      ensures Small(Meaning(old(matrix)), b) ==> (exact <==> SumsFit(Meaning(old(matrix))))
    {
      hide Small, Progress, InRound, Tracks, SumsFit;
      var n := |matrix|;
      ghost var m := Meaning(matrix);
      exact := true;
      RoundsStart(m, b, matrix);
      var k := 0;
      while k < n
        invariant k <= n == |matrix| == |m| && Progress(m, b, matrix, k) && Tracks(m, b, exact, k, 0, 0)
      {
        ghost var was := matrix;
        RoundOpens(m, b, was, k);
        var i := 0;
        while i < n
          invariant i <= n == |matrix| == |m| && InRound(m, b, was, matrix, k, i, 0) && Tracks(m, b, exact, k, i, 0)
        {
          if matrix[i][k] != INF_TIME {
            RelaxRow(i, k, m, b, was);
          } else {
            TracksSkip(m, b, was, matrix, exact, k, i);
            RoundSkip(m, b, was, matrix, k, i);
          }
          RoundRow(m, b, was, matrix, k, i);
          TracksRow(m, b, exact, k, i);
          i := i + 1;
        }
        RoundDone(m, b, was, matrix, k);
        TracksRound(m, b, exact, k);
        k := k + 1;
      }
      RoundsDone(m, b, matrix, exact);
    }
  }

  lemma RoundsStart(m: Matrix, b: nat, now: Matrix32)
    requires m == Meaning(now)
    ensures Progress(m, b, now, 0) && Tracks(m, b, true, 0, 0, 0)
  {
  }

  lemma RoundsDone(m: Matrix, b: nat, now: Matrix32, exact: bool)
    requires Progress(m, b, now, |m|) && Tracks(m, b, exact, |m|, 0, 0)
    ensures SameSolutions(m, Meaning(now))
    ensures Small(m, b) ==> Meaning(now) == Close(m) && (exact <==> SumsFit(m))
  {
    if Small(m, b) {
      ProgressDone(m, b, now);
    }
  }

  /** What the pivot loops keep; the entry conditions of a round. */
  lemma RoundOpens(m: Matrix, b: nat, now: Matrix32, k: nat)
    requires Progress(m, b, now, k) && k < |m|
    ensures InRound(m, b, now, now, k, 0, 0)
  {
  }

  // ------------------------------------------------------------- when all sums fit

  /** A walk around n clocks, as an int32 matrix. */
  function Cycle(n: nat, b: Int32): (m: Matrix32)
    ensures |m| == n
    ensures forall i: nat, j: nat {:trigger m[i][j]} :: i < n && j < n ==>
      m[i][j] == if i == j then 0 else if j == i + 1 || (i == n - 1 && j == 0) then b else INF_TIME
  {
    seq(n, i requires 0 <= i < n =>
      seq(n, j requires 0 <= j < n =>
        if i == j then 0 else if j == i + 1 || (i == n - 1 && j == 0) then b else INF_TIME))
  }

  lemma CycleIsSmall(n: nat, b: Int32)
    requires n >= 2 && 0 <= b && (n - 1) * b < INT_MAX
    ensures Small(Meaning(Cycle(n, b)), b) && IsCycle(Meaning(Cycle(n, b)), b)
  {
    var m := Meaning(Cycle(n, b));
    Scale(1, n - 1, b);
    assert IsCycle(m, b);
    forall i: nat, j: nat | i < n && j < n
      ensures EntryWithin(m[i][j], b)
    {
    }
    var v := CycleSolution(m, b, 0);
  }

  /** In its last round the two longest ways meet: twice (n - 1) b. */
  lemma CycleSum(n: nat, b: Int32)
    requires n >= 2 && 0 <= b && (n - 1) * b < INT_MAX
    ensures Rounds(Meaning(Cycle(n, b)), n - 1)[0][n - 1] == Fin((n - 1) * b)
    ensures Rounds(Meaning(Cycle(n, b)), n - 1)[n - 1][n - 2] == Fin((n - 1) * b)
  {
    var m := Meaning(Cycle(n, b));
    CycleIsSmall(n, b);
    CycleRound(m, b, n - 1, 0);
    CycleRound(m, b, n - 1, n - 1);
  }

  /** Entries of every round lie within (n - 1) b, so sums within twice that. */
  lemma SumsAreSmall(m: Matrix, b: nat)
    requires Small(m, b) && 2 * (|m| - 1) * b < INF_TIME
    ensures SumsFit(m)
  {
    var w := (|m| - 1) * b;
    assert 2 * (|m| - 1) * b == 2 * w;
    forall x: nat, y: nat, z: nat | x < |m| && y < |m| && z < |m|
      ensures SumAt(m, x, y, z)
    {
      RoundsShortest(m, x);
      PartialClosureWithin(m, Rounds(m, x), x, b);
      assert EntryWithin(Rounds(m, x)[y][x], w) && EntryWithin(Rounds(m, x)[x][z], w);
    }
  }

  lemma CycleSaturates(n: nat, b: Int32)
    requires n >= 2 && 0 <= b && (n - 1) * b < INT_MAX && 2 * (n - 1) * b >= INF_TIME
    ensures !SumsFit(Meaning(Cycle(n, b)))
  {
    hide Rounds;
    var m, k: nat, z: nat, w := Meaning(Cycle(n, b)), n - 1, n - 2, (n - 1) * b;
    assert 2 * (n - 1) * b == w + w;
    CycleSum(n, b);
    assert !Fits(Fin(w), Fin(w));
    assert !SumAt(m, k, 0, z) && Earlier(k, 0, z, n, 0, 0);
  }

  /** Exactly when no sum saturates: on all consistent matrices of n clocks with
      entries in [-b, b], every sum of the closure is the true one if and only if
      2 (n - 1) b is below the sentinel. */
  lemma SumsFitIff(n: nat, b: nat)
    requires n >= 2 && (n - 1) * b < INT_MAX
    ensures (forall m: Matrix32 :: |m| == n && Small(Meaning(m), b) ==> SumsFit(Meaning(m))) <==>
      2 * (n - 1) * b < INF_TIME
  {
    hide Small, SumsFit;
    if 2 * (n - 1) * b < INF_TIME {
      forall m: Matrix32 | |m| == n && Small(Meaning(m), b)
        ensures SumsFit(Meaning(m))
      {
        SumsAreSmall(Meaning(m), b);
      }
    } else {
      Scale(1, n - 1, b);
      CycleIsSmall(n, b);
      CycleSaturates(n, b);
    }
  }

  /** Three clocks and b = 2^30 - 1: the result is exact, a sum on the way is not. */
  lemma SumsMaySaturate()
    ensures Small(Meaning(Cycle(3, 0x3fff_ffff)), 0x3fff_ffff) && !SumsFit(Meaning(Cycle(3, 0x3fff_ffff)))
  {
    CycleIsSmall(3, 0x3fff_ffff);
    CycleSaturates(3, 0x3fff_ffff);
  }
}
