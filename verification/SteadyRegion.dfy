/** The largest recurrent component: the steady region of a graph. */
module SteadyRegion {
  import opened Adjacency
  import opened Components

  /** A cycle passes through v. */
  ghost predicate OnCycle(out: seq<seq<Edge>>, v: nat) {
    exists w: nat :: Adjacent(out, v, w) && Reaches(out, w, v)
  }

  /** The vertices that v reaches and that reach v. */
  ghost function Component(out: seq<seq<Edge>>, v: nat): set<nat> {
    set u: nat | u < |out| && Mutual(out, u, v)
  }

  /** The first n vertices that carry number c. */
  ghost function Members(scc: seq<int>, n: nat, c: int): set<nat> {
    set u: nat | u < n && u < |scc| && scc[u] == c
  }

  lemma MembersAreComponent(out: seq<seq<Edge>>, scc: seq<int>, count: int, v: nat)
    requires IsPartition(out, scc, count) && v < |out|
    ensures Members(scc, |out|, scc[v]) == Component(out, v)
  {
    forall u: nat
      ensures u in Members(scc, |out|, scc[v]) <==> u in Component(out, v)
    {
      if u < |out| {
        assert SameNumber(out, scc, u, v);
      }
    }
  }

  lemma MembersGrow(scc: seq<int>, n: nat, c: int)
    requires n < |scc|
    ensures |Members(scc, n + 1, c)| == |Members(scc, n, c)| + if scc[n] == c then 1 else 0
  {
    assert Members(scc, n + 1, c) == Members(scc, n, c) + if scc[n] == c then {n} else {};
  }

  /** Edge k of v stays among the vertices with v's number. */
  ghost predicate StaysIn(out: seq<seq<Edge>>, scc: seq<int>, v: nat, k: nat) {
    v < |out| && k < |out[v]| && v < |scc| && out[v][k].target < |scc| && scc[out[v][k].target] == scc[v]
  }

  lemma StaysInMeansCycle(out: seq<seq<Edge>>, scc: seq<int>, count: int, v: nat, k: nat)
    requires IsPartition(out, scc, count) && StaysIn(out, scc, v, k)
    ensures OnCycle(out, v)
  {
    var w := out[v][k].target;
    assert out[v][k] in out[v] && SameNumber(out, scc, w, v);
    assert Adjacent(out, v, w);
  }

  lemma CycleStaysIn(out: seq<seq<Edge>>, scc: seq<int>, count: int, v: nat) returns (k: nat)
    requires IsPartition(out, scc, count) && OnCycle(out, v)
    ensures StaysIn(out, scc, v, k)
  {
    var w: nat :| Adjacent(out, v, w) && Reaches(out, w, v);
    k := EdgeIn(out, v, w);
    ReachesNext(out, v, w);
    assert SameNumber(out, scc, w, v);
  }

  /** Two vertices in one component lie on cycles. */
  lemma LargeMeansCycle(out: seq<seq<Edge>>, u: nat, v: nat)
    requires Mutual(out, u, v) && u != v
    ensures OnCycle(out, u)
  {
    var route :| IsRoute(out, route, u, v);
    assert AdjacentAt(out, route, 0);
    var rest := route[1..];
    forall i: nat | i + 1 < |rest|
      ensures AdjacentAt(out, rest, i)
    {
      assert AdjacentAt(out, route, i + 1);
    }
    assert IsRoute(out, rest, route[1], v);
    ReachesOn(out, route[1], v, u);
  }

  /** Some cycle runs through the vertices numbered c. */
  ghost predicate Recurrent(out: seq<seq<Edge>>, scc: seq<int>, c: int) {
    exists v: nat :: v < |scc| && scc[v] == c && OnCycle(out, v)
  }

  lemma RecurrentIff(out: seq<seq<Edge>>, scc: seq<int>, count: int, c: int, self: bool)
    requires IsPartition(out, scc, count)
    requires self <==> exists v: nat, k: nat :: StaysIn(out, scc, v, k) && scc[v] == c
    ensures Recurrent(out, scc, c) <==> |Members(scc, |out|, c)| > 1 || self
  {
    if self {
      var v: nat, k: nat :| StaysIn(out, scc, v, k) && scc[v] == c;
      StaysInMeansCycle(out, scc, count, v, k);
    } else if |Members(scc, |out|, c)| > 1 {
      var u :| u in Members(scc, |out|, c);
      assert |Members(scc, |out|, c) - {u}| > 0;
      var v :| v in Members(scc, |out|, c) - {u};
      assert SameNumber(out, scc, u, v);
      LargeMeansCycle(out, u, v);
    }
    if Recurrent(out, scc, c) {
      var v: nat :| v < |scc| && scc[v] == c && OnCycle(out, v);
      var k := CycleStaysIn(out, scc, count, v);
    }
  }

  method ComponentSizes(scc: seq<int>, count: nat) returns (sizes: seq<nat>)
    requires forall v :: 0 <= v < |scc| ==> 0 <= scc[v] < count
    ensures |sizes| == count && forall c: nat :: c < count ==> sizes[c] == |Members(scc, |scc|, c)|
  {
    sizes := seq(count, _ => 0);
    for v := 0 to |scc|
      invariant |sizes| == count && forall c: nat :: c < count ==> sizes[c] == |Members(scc, v, c)|
    {
      forall c: nat | c < count
        ensures |Members(scc, v + 1, c)| == |Members(scc, v, c)| + if scc[v] == c then 1 else 0
      {
        MembersGrow(scc, v, c);
      }
      sizes := sizes[scc[v] := sizes[scc[v]] + 1];
    }
  }

  /** The edges before (u, k) in the order of the scan. */
  ghost predicate Earlier(v: nat, j: nat, u: nat, k: nat) {
    v < u || (v == u && j < k)
  }

  ghost predicate SelfBy(out: seq<seq<Edge>>, scc: seq<int>, self: seq<bool>, u: nat, k: nat) {
    && (forall c: nat :: c < |self| && self[c] ==> exists v: nat, j: nat :: StaysIn(out, scc, v, j) && scc[v] == c)
    && (forall v: nat, j: nat :: StaysIn(out, scc, v, j) && Earlier(v, j, u, k) ==>
      0 <= scc[v] < |self| && self[scc[v]])
  }

  method SelfReaching(out: seq<seq<Edge>>, scc: seq<int>, count: nat) returns (self: seq<bool>)
    requires ValidOut(out) && |scc| == |out| && forall v :: 0 <= v < |scc| ==> 0 <= scc[v] < count
    ensures |self| == count
    ensures forall c: nat :: c < count ==>
      (self[c] <==> exists v: nat, k: nat :: StaysIn(out, scc, v, k) && scc[v] == c)
  {
    self := seq(count, _ => false);
    for u := 0 to |out|
      invariant |self| == count && SelfBy(out, scc, self, u, 0)
    {
      for k := 0 to |out[u]|
        invariant |self| == count && SelfBy(out, scc, self, u, k)
      {
        assert TargetAt(out, u, k);
        ghost var before := self;
        if scc[out[u][k].target] == scc[u] {
          assert StaysIn(out, scc, u, k);
          self := self[scc[u] := true];
        }
        SelfStep(out, scc, before, self, u, k);
      }
    }
  }

  lemma SelfStep(out: seq<seq<Edge>>, scc: seq<int>, before: seq<bool>, after: seq<bool>, u: nat, k: nat)
    requires SelfBy(out, scc, before, u, k) && u < |scc| && 0 <= scc[u] < |before|
    requires after == if StaysIn(out, scc, u, k) then before[scc[u] := true] else before
    ensures SelfBy(out, scc, after, u, k + 1)
  {
    forall v: nat, j: nat | StaysIn(out, scc, v, j) && Earlier(v, j, u, k + 1)
      ensures 0 <= scc[v] < |after| && after[scc[v]]
    {
      assert Earlier(v, j, u, k) || (v == u && j == k);
    }
  }

  /** The largest component through which a cycle runs. */
  method LargestRecurrent(out: seq<seq<Edge>>, scc: seq<int>, count: int) returns (hasCycle: bool, size: nat)
    requires ValidOut(out) && IsPartition(out, scc, count)
    ensures hasCycle <==> exists v: nat :: OnCycle(out, v)
    ensures hasCycle ==> exists v: nat :: OnCycle(out, v) && |Component(out, v)| == size
    ensures forall v: nat :: OnCycle(out, v) ==> |Component(out, v)| <= size
    ensures !hasCycle ==> size == 0
  {
    var sizes := ComponentSizes(scc, count);
    var self := SelfReaching(out, scc, count);
    var best := -1;
    for c := 0 to count
      invariant -1 <= best < c
      invariant best >= 0 ==> Recurrent(out, scc, best)
      invariant forall d: nat :: d < c && Recurrent(out, scc, d) ==> best >= 0 && sizes[d] <= sizes[best]
    {
      RecurrentIff(out, scc, count, c, self[c]);
      var recurrent := sizes[c] > 1 || self[c];
      if recurrent && (best < 0 || sizes[c] > sizes[best]) {
        best := c;
      }
    }
    hasCycle, size := best >= 0, if best >= 0 then sizes[best] else 0;
    forall v: nat | OnCycle(out, v)
      ensures best >= 0 && |Component(out, v)| <= size
    {
      assert v < |out|;
      assert Recurrent(out, scc, scc[v]);
      MembersAreComponent(out, scc, count, v);
    }
    if best >= 0 {
      ghost var v: nat :| v < |scc| && scc[v] == best && OnCycle(out, v);
      MembersAreComponent(out, scc, count, v);
    }
  }
}
