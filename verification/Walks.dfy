/** Walks in the constraint graph: how large the entries of a closure can get. */
module Walks {
  import opened Bounds
  import opened Zones

  /** w leads from i to j in at least one edge, through vertices below k. */
  ghost predicate IsWalk(m: Matrix, w: seq<nat>, i: nat, j: nat, k: nat) {
    && |w| >= 2 && w[0] == i && w[|w| - 1] == j
    && (forall p :: 0 <= p < |w| ==> w[p] < |m|)
    && (forall p :: 0 < p < |w| - 1 ==> w[p] < k)
  }

  ghost predicate Inside(m: Matrix, w: seq<nat>) {
    |w| >= 1 && forall p :: 0 <= p < |w| ==> w[p] < |m|
  }

  ghost function Weight(m: Matrix, w: seq<nat>): Bound
    requires Inside(m, w)
    decreases |w|
  {
    if |w| == 1 then Fin(0) else Add(Weight(m, w[..|w| - 1]), m[w[|w| - 2]][w[|w| - 1]])
  }

  /** Walks that meet end to end add up. */
  lemma {:induction false} WeightJoin(m: Matrix, a: seq<nat>, b: seq<nat>)
    requires Inside(m, a) && Inside(m, b) && a[|a| - 1] == b[0]
    ensures Inside(m, a + b[1..])
    ensures Weight(m, a + b[1..]) == Add(Weight(m, a), Weight(m, b))
    decreases |b|
  {
    var w := a + b[1..];
    if |b| == 1 {
      assert w == a;
    } else {
      var c := b[..|b| - 1];
      WeightJoin(m, a, c);
      assert w[..|w| - 1] == a + c[1..];
      assert w[|w| - 2] == b[|b| - 2];
    }
  }

  /** Solutions respect the weight of every walk. */
  lemma {:induction false} SatWeight(m: Matrix, w: seq<nat>, v: seq<int>)
    requires Inside(m, w) && Sat(m, v)
    ensures Within(v[w[0]] - v[w[|w| - 1]], Weight(m, w))
    decreases |w|
  {
    if |w| > 1 {
      SatWeight(m, w[..|w| - 1], v);
      assert Holds(m, v, w[|w| - 2], w[|w| - 1]);
    }
  }

  /** Distinct vertices are few. */
  lemma {:induction false} DistinctShort(w: seq<nat>, n: nat)
    requires forall p :: 0 <= p < |w| ==> w[p] < n
    requires forall p, q :: 0 <= p < q < |w| ==> w[p] != w[q]
    ensures |w| <= n
    decreases n
  {
    if w != [] {
      assert w[0] < n;
      if p :| 0 <= p < |w| && w[p] == n - 1 {
        DistinctShort(w[..p] + w[p + 1..], n - 1);
      } else {
        DistinctShort(w, n - 1);
      }
    }
  }

  ghost predicate Simple(w: seq<nat>) {
    forall p, q :: 0 <= p < q < |w| ==> w[p] != w[q]
  }

  lemma CutIsWalk(m: Matrix, w: seq<nat>, i: nat, j: nat, k: nat, p: nat, q: nat)
    requires IsWalk(m, w, i, j, k) && i != j && p < q < |w| && w[p] == w[q]
    ensures IsWalk(m, w[..p + 1] + w[q + 1..], i, j, k)
  {
    var s := w[..p + 1] + w[q + 1..];
    assert |s| == |w| - (q - p);
    assert forall x :: 0 <= x < |s| ==> s[x] == if x <= p then w[x] else w[x + (q - p)];
  }

  /** Cutting one loop out of a walk makes it no heavier. */
  lemma CutLoop(m: Matrix, w: seq<nat>, p: nat, q: nat)
    requires Inside(m, w) && HasSolution(m) && p < q < |w| && w[p] == w[q]
    ensures Inside(m, w[..p + 1] + w[q + 1..])
    ensures Le(Weight(m, w[..p + 1] + w[q + 1..]), Weight(m, w))
  {
    hide Weight;
    var v :| Sat(m, v);
    var head, loop, tail := w[..p + 1], w[p..q + 1], w[q..];
    assert Inside(m, head) && Inside(m, loop) && Inside(m, tail);
    SatWeight(m, loop, v);
    WeightJoin(m, head, loop);
    assert head + loop[1..] == w[..q + 1];
    WeightJoin(m, w[..q + 1], tail);
    assert w[..q + 1] + tail[1..] == w;
    WeightJoin(m, head, tail);
    assert tail[1..] == w[q + 1..];
  }

  /** Without negative cycles, a walk has a simple walk that is no heavier. */
  lemma {:induction false} MakeSimple(m: Matrix, w: seq<nat>, i: nat, j: nat, k: nat) returns (s: seq<nat>)
    requires IsWalk(m, w, i, j, k) && i != j && HasSolution(m)
    ensures IsWalk(m, s, i, j, k) && Simple(s) && Le(Weight(m, s), Weight(m, w))
    decreases |w|
  {
    s := w;
    if !Simple(w) {
      var p: nat, q: nat :| p < q < |w| && w[p] == w[q];
      CutIsWalk(m, w, i, j, k, p, q);
      CutLoop(m, w, p, q);
      s := MakeSimple(m, w[..p + 1] + w[q + 1..], i, j, k);
    }
  }

  /** Every finite entry lies in [-b, b]. */
  ghost predicate EntriesWithin(m: Matrix, b: int) {
    forall i: nat, j: nat :: i < |m| && j < |m| ==> EntryWithin(m[i][j], b)
  }

  predicate EntryWithin(x: Bound, b: int) {
    x.Fin? ==> -b <= x.v <= b
  }

  lemma {:induction false} WeightWithin(m: Matrix, w: seq<nat>, b: nat)
    requires Inside(m, w) && EntriesWithin(m, b)
    ensures EntryWithin(Weight(m, w), (|w| - 1) * b)
    decreases |w|
  {
    if |w| > 1 {
      WeightWithin(m, w[..|w| - 1], b);
      assert EntryWithin(m[w[|w| - 2]][w[|w| - 1]], b);
      assert (|w| - 1) * b == (|w| - 2) * b + b;
    }
  }

  // -------------------------------------------------- entries of partial closures

  ghost predicate Attained(m: Matrix, c: Matrix, k: nat, i: nat, j: nat)
    requires |c| == |m| && i < |m| && j < |m|
  {
    c[i][j].Fin? ==> exists w :: IsWalk(m, w, i, j, k) && Weight(m, w) == c[i][j]
  }

  /** c holds the weights of shortest walks through vertices below k. */
  ghost predicate ShortestVia(m: Matrix, c: Matrix, k: nat) {
    && PartialClosure(m, c, k)
    && forall i: nat, j: nat :: i < |m| && j < |m| ==> Attained(m, c, k, i, j)
  }

  lemma ShortestStart(m: Matrix)
    ensures ShortestVia(m, m, 0)
  {
    var c := m;
    forall i: nat, j: nat | i < |c| && j < |c|
      ensures Attained(m, c, 0, i, j)
    {
      var w := [i, j];
      assert w[..1] == [i] && Weight(m, [i]) == Fin(0);
      assert IsWalk(m, w, i, j, 0) && Weight(m, w) == c[i][j];
    }
  }

  lemma JoinWalks(m: Matrix, a: seq<nat>, b: seq<nat>, i: nat, j: nat, k: nat)
    requires k < |m| && IsWalk(m, a, i, k, k) && IsWalk(m, b, k, j, k)
    ensures IsWalk(m, a + b[1..], i, j, k + 1)
    ensures Weight(m, a + b[1..]) == Add(Weight(m, a), Weight(m, b))
  {
    WeightJoin(m, a, b);
  }

  lemma ShortestStep(m: Matrix, c: Matrix, k: nat)
    requires k < |m| && ShortestVia(m, c, k)
    ensures ShortestVia(m, Phase(c, k), k + 1)
  {
    PartialClosureStep(m, c, k);
    var r, n := Phase(c, k), k + 1;
    forall i: nat, j: nat | i < |m| && j < |m|
      ensures Attained(m, r, n, i, j)
    {
      assert Attained(m, c, k, i, j) && Attained(m, c, k, i, k) && Attained(m, c, k, k, j);
      if r[i][j].Fin? {
        if r[i][j] == c[i][j] {
          var w :| IsWalk(m, w, i, j, k) && Weight(m, w) == c[i][j];
          assert IsWalk(m, w, i, j, n);
        } else {
          var a :| IsWalk(m, a, i, k, k) && Weight(m, a) == c[i][k];
          var b :| IsWalk(m, b, k, j, k) && Weight(m, b) == c[k][j];
          JoinWalks(m, a, b, i, j, k);
          assert IsWalk(m, a + b[1..], i, j, n);
        }
      }
    }
  }

  /** No walk through vertices below k beats the entry. */
  lemma {:induction false} EntryBelowWalk(m: Matrix, c: Matrix, k: nat, w: seq<nat>, i: nat, j: nat)
    requires PartialClosure(m, c, k) && NonNegativeDiagonal(c) && IsWalk(m, w, i, j, k)
    ensures Le(c[i][j], Weight(m, w))
    decreases |w|
  {
    var p := w[|w| - 2];
    assert Le(c[p][j], m[p][j]);
    var init := w[..|w| - 1];
    if |w| == 2 {
      assert Weight(m, init) == Fin(0);
    } else {
      EntryBelowWalk(m, c, k, init, i, p);
      assert Triangle(c, i, p, j);
    }
  }

  lemma EntryBounded(m: Matrix, c: Matrix, k: nat, b: nat, i: nat, j: nat)
    requires ShortestVia(m, c, k) && HasSolution(m) && NonNegativeDiagonal(c) && EntriesWithin(m, b)
    requires i < |m| && j < |m| && i != j
    ensures EntryWithin(c[i][j], (|m| - 1) * b)
  {
    if c[i][j].Fin? {
      assert Attained(m, c, k, i, j);
      var w :| IsWalk(m, w, i, j, k) && Weight(m, w) == c[i][j];
      var s := MakeSimple(m, w, i, j, k);
      EntryBelowWalk(m, c, k, s, i, j);
      DistinctShort(s, |m|);
      WeightWithin(m, s, b);
      Scale(|s| - 1, |m| - 1, b);
    }
  }

  lemma Scale(x: nat, y: nat, b: nat)
    requires x <= y
    ensures 0 <= x * b <= y * b
  {
  }

  /** Entries of a consistent partial closure stay within n - 1 times the largest
      entry of the original. */
  lemma PartialClosureWithin(m: Matrix, c: Matrix, k: nat, b: nat)
    requires |m| > 0 && ShortestVia(m, c, k) && HasSolution(m) && ZeroDiagonal(m) && EntriesWithin(m, b)
    ensures EntriesWithin(c, (|m| - 1) * b)
  {
    var v :| Sat(m, v);
    SatDiagonal(c, v);
    Scale(0, |m| - 1, b);
    forall i: nat, j: nat | i < |c| && j < |c|
      ensures EntryWithin(c[i][j], (|m| - 1) * b)
    {
      if i == j {
        assert Le(c[i][i], m[i][i]) && !Negative(c[i][i]);
      } else {
        EntryBounded(m, c, k, b, i, j);
      }
    }
  }

  /** The matrix after the first k rounds of the closure. */
  function Rounds(m: Matrix, k: nat): (r: Matrix)
    requires k <= |m|
    ensures |r| == |m|
  {
    if k == 0 then m else Phase(Rounds(m, k - 1), k - 1)
  }

  lemma {:induction false} RoundsShortest(m: Matrix, k: nat)
    requires k <= |m|
    ensures ShortestVia(m, Rounds(m, k), k)
  {
    hide ShortestVia;
    if k == 0 {
      ShortestStart(m);
    } else {
      RoundsShortest(m, k - 1);
      ShortestStep(m, Rounds(m, k - 1), k - 1);
    }
  }

  /** Closing a consistent matrix with entries in [-b, b] leaves every finite
      bound in [-(n-1)b, (n-1)b]. */
  lemma ClosureWithin(m: Matrix, b: nat)
    requires |m| > 0 && HasSolution(m) && ZeroDiagonal(m) && EntriesWithin(m, b)
    ensures EntriesWithin(Close(m), (|m| - 1) * b)
  {
    var c := Rounds(m, |m|);
    RoundsShortest(m, |m|);
    PartialClosureWithin(m, c, |m|, b);
    PartialClosureDone(m, c);
    CloseUnique(m, c);
  }

  // ------------------------------------------------------------- a cycle of n edges

  /** Edges of weight b from each vertex to the next, and from the last to the first. */
  function CycleEntry(n: nat, b: int, i: int, j: int): Bound {
    if i == j then Fin(0) else if j == i + 1 || (i == n - 1 && j == 0) then Fin(b) else Inf
  }

  ghost predicate IsCycle(m: Matrix, b: int) {
    |m| >= 2 && forall i: nat, j: nat :: i < |m| && j < |m| ==> m[i][j] == CycleEntry(|m|, b, i, j)
  }

  /** The vertices from one on in the order of the cycle, len of them. */
  function Along(n: nat, first: nat, len: nat): (w: seq<nat>)
    requires first < n && len <= n
    ensures |w| == len && forall p: nat :: p < len ==> w[p] == (if first + p < n then first + p else first + p - n) < n
  {
    seq(len, p requires 0 <= p < len => if first + p < n then first + p else first + p - n)
  }

  lemma {:induction false} AlongWeight(m: Matrix, b: int, first: nat, len: nat)
    requires IsCycle(m, b) && first < |m| && 0 < len <= |m|
    ensures Inside(m, Along(|m|, first, len)) && Weight(m, Along(|m|, first, len)) == Fin((len - 1) * b)
  {
    var w := Along(|m|, first, len);
    if len > 1 {
      AlongWeight(m, b, first, len - 1);
      assert w[..len - 1] == Along(|m|, first, len - 1);
      assert m[w[len - 2]][w[len - 1]] == Fin(b);
      assert (len - 2) * b + b == (len - 1) * b;
    }
  }

  /** Falling by b from vertex to vertex, starting at first, solves the cycle. */
  lemma CycleSolution(m: Matrix, b: nat, first: nat) returns (v: seq<int>)
    requires IsCycle(m, b) && first < |m|
    ensures Sat(m, v) && forall i: nat :: i < |m| ==>
      v[i] == (if i < first then first - 1 - i else |m| - 1 - i + first) * b
  {
    var n := |m|;
    v := seq(n, i requires 0 <= i < n => (if i < first then first - 1 - i else n - 1 - i + first) * b);
    forall i: nat, j: nat | i < n && j < n
      ensures Holds(m, v, i, j)
    {
      var x := if i < first then first - 1 - i else n - 1 - i + first;
      var y := if j < first then first - 1 - j else n - 1 - j + first;
      assert m[i][j] == CycleEntry(n, b, i, j);
      if m[i][j] == Fin(b) && i != j {
        assert x <= y + 1;
        Scale(x, y + 1, b);
      }
    }
  }

  /** The way around a cycle but for its last edge: n - 1 edges, all found when every
      inner vertex has had its round. */
  lemma CycleRound(m: Matrix, b: nat, k: nat, first: nat)
    requires |m| >= 2 && IsCycle(m, b) && k < |m| && first < |m|
    requires forall p: nat :: 0 < p < |m| - 1 ==> Along(|m|, first, |m|)[p] < k
    ensures Rounds(m, k)[first][Along(|m|, first, |m|)[|m| - 1]] == Fin((|m| - 1) * b)
  {
    hide Rounds, IsCycle;
    var n, c, w := |m|, Rounds(m, k), Along(|m|, first, |m|);
    var last := w[n - 1];
    RoundsShortest(m, k);
    var v := CycleSolution(m, b, first);
    assert v[first] == (n - 1) * b && v[last] == 0;
    AlongWeight(m, b, first, n);
    AttainedBoth(m, c, k, w, v, first, last);
  }

  /** A walk and a solution that agree fix the entry. */
  lemma AttainedBoth(m: Matrix, c: Matrix, k: nat, w: seq<nat>, v: seq<int>, i: nat, j: nat)
    requires PartialClosure(m, c, k) && IsWalk(m, w, i, j, k) && Sat(m, v)
    requires Weight(m, w) == Fin(v[i] - v[j])
    ensures c[i][j] == Fin(v[i] - v[j])
  {
    assert Sat(c, v);
    SatDiagonal(c, v);
    EntryBelowWalk(m, c, k, w, i, j);
    assert Holds(c, v, i, j);
  }
}
