/** Breadth-first search for a deadline miss, with the path to it. */
module Witness {
  import opened Adjacency

  /** What the search knows; dist and done only serve the proof. */
  datatype Known = Known(seen: seq<bool>, parent: seq<int>, queue: seq<nat>, dist: seq<nat>, done: set<nat>)

  ghost predicate Sized(n: nat, s: Known) {
    |s.seen| == |s.parent| == |s.dist| == n
  }

  /** Seen vertices hang off the initial one. */
  ghost predicate TreeAt(out: seq<seq<Edge>>, initial: nat, s: Known, v: nat)
    requires Sized(|out|, s)
  {
    v < |out| && s.seen[v] ==>
      if v == initial then s.parent[v] == -1 && s.dist[v] == 0
      else
        && 0 <= s.parent[v] < |out| && s.seen[s.parent[v]] && Adjacent(out, s.parent[v], v)
        && s.dist[v] == s.dist[s.parent[v]] + 1
  }

  ghost predicate Tree(out: seq<seq<Edge>>, initial: nat, s: Known) {
    && Sized(|out|, s) && initial < |out| && s.seen[initial]
    && forall v: nat :: TreeAt(out, initial, s, v)
  }

  /** Vertex w has been seen no later than one step after u. */
  ghost predicate FollowedAt(s: Known, u: nat, w: nat) {
    u < |s.dist| == |s.seen| && w < |s.dist| && s.seen[w] && s.dist[w] <= s.dist[u] + 1
  }

  /** The first k edges of u have been followed. */
  ghost predicate Followed(out: seq<seq<Edge>>, s: Known, u: nat, k: nat) {
    u < |out| && k <= |out[u]| && forall j: nat :: j < k ==> FollowedAt(s, u, out[u][j].target)
  }

  /** A done vertex is within level, and its edges have been followed. */
  ghost predicate DoneAt(out: seq<seq<Edge>>, s: Known, level: nat, u: nat) {
    u in s.done ==>
      u < |s.seen| == |s.dist| == |out| && s.seen[u] && s.dist[u] <= level && Followed(out, s, u, |out[u]|)
  }

  ghost predicate AllDone(out: seq<seq<Edge>>, s: Known, level: nat) {
    forall u: nat :: DoneAt(out, s, level, u)
  }

  /** Every seen vertex is done, queued, or one of the extra ones; none but the
      last extra one is a miss. */
  ghost predicate Waiting(miss: seq<bool>, s: Known, extra: seq<nat>)
    requires |miss| == |s.seen|
  {
    forall v: nat :: v < |s.seen| && s.seen[v] && v !in extra ==> (v in s.done || v in s.queue) && !miss[v]
  }

  /** Queued vertices are seen and sorted by distance, within level and level + 1. */
  ghost predicate QueueAt(s: Known, level: nat, i: nat)
    requires i < |s.queue| && |s.seen| == |s.dist|
  {
    s.queue[i] < |s.seen| && s.seen[s.queue[i]] && level <= s.dist[s.queue[i]] <= level + 1
  }

  ghost predicate Sorted(s: Known, i: nat, j: nat)
    requires i < |s.queue| && j < |s.queue|
  {
    s.queue[i] < |s.dist| && s.queue[j] < |s.dist| && s.dist[s.queue[i]] <= s.dist[s.queue[j]]
  }

  ghost predicate Queued(s: Known, level: nat) {
    && |s.seen| == |s.dist|
    && (forall i: nat :: i < |s.queue| ==> QueueAt(s, level, i))
    && (forall i: nat, j: nat :: i < j < |s.queue| ==> Sorted(s, i, j))
  }

  /** The state between two vertices. */
  ghost predicate Between(out: seq<seq<Edge>>, miss: seq<bool>, initial: nat, s: Known, level: nat) {
    && |miss| == |out| && Tree(out, initial, s) && AllDone(out, s, level) && Waiting(miss, s, []) && Queued(s, level)
  }

  /** The state while u is expanded: the extra vertices are neither done nor queued. */
  ghost predicate During(out: seq<seq<Edge>>, miss: seq<bool>, initial: nat, s: Known, u: nat, extra: seq<nat>) {
    && |miss| == |out| && Sized(|out|, s) && u < |out| && s.seen[u] && !miss[u]
    && var tree, done := Tree(out, initial, s), AllDone(out, s, s.dist[u]);
       var waiting, queued := Waiting(miss, s, extra), Queued(s, s.dist[u]);
       tree && done && waiting && queued
  }

  // ----------------------------------------------------------------------- steps

  lemma Start(out: seq<seq<Edge>>, miss: seq<bool>, initial: nat, s: Known)
    requires Sized(|out|, s) && |miss| == |out| && initial < |out| && !miss[initial]
    requires forall v: nat :: v < |out| ==> s.seen[v] == (v == initial) && s.parent[v] == -1 && s.dist[v] == 0
    requires s.queue == [initial] && s.done == {}
    ensures Between(out, miss, initial, s, 0)
  {
  }

  lemma TakeVertex(out: seq<seq<Edge>>, miss: seq<bool>, initial: nat, s: Known, level: nat)
    requires Between(out, miss, initial, s, level) && s.queue != []
    ensures During(out, miss, initial, s.(queue := s.queue[1..]), s.queue[0], [s.queue[0]])
  {
    var u, t := s.queue[0], s.(queue := s.queue[1..]);
    assert QueueAt(s, level, 0);
    forall v: nat
      ensures TreeAt(out, initial, t, v) && DoneAt(out, t, s.dist[u], v)
    {
      assert TreeAt(out, initial, s, v) && DoneAt(out, s, level, v);
      if v < |out| && s.seen[v] {
        SameFollowed(out, s, t, v);
      }
    }
    forall i: nat | i < |t.queue|
      ensures QueueAt(t, s.dist[u], i)
    {
      assert QueueAt(s, level, i + 1) && Sorted(s, 0, i + 1);
    }
    forall i: nat, j: nat | i < j < |t.queue|
      ensures Sorted(t, i, j)
    {
      assert Sorted(s, i + 1, j + 1);
    }
  }

  lemma SameFollowed(out: seq<seq<Edge>>, s: Known, t: Known, v: nat)
    requires |s.seen| == |t.seen| == |s.dist| == |t.dist| && v < |s.seen| && s.seen[v]
    requires forall w: nat :: w < |s.seen| && s.seen[w] ==> t.seen[w] && t.dist[w] == s.dist[w]
    ensures forall k: nat :: Followed(out, s, v, k) ==> Followed(out, t, v, k)
  {
    forall k: nat | Followed(out, s, v, k)
      ensures Followed(out, t, v, k)
    {
      forall j: nat | j < k
        ensures FollowedAt(t, v, out[v][j].target)
      {
        assert FollowedAt(s, v, out[v][j].target);
      }
    }
  }

  /** Seeing a new vertex from u. */
  function See(s: Known, u: nat, w: nat, queue: seq<nat>): Known
    requires w < |s.seen| == |s.parent| == |s.dist| && u < |s.dist|
  {
    Known(s.seen[w := true], s.parent[w := u], queue, s.dist[w := s.dist[u] + 1], s.done)
  }

  lemma SeeVertex(out: seq<seq<Edge>>, miss: seq<bool>, initial: nat, s: Known, u: nat, w: nat)
    requires During(out, miss, initial, s, u, [u]) && Adjacent(out, u, w) && !s.seen[w]
    ensures During(out, miss, initial, See(s, u, w, s.queue), u, [u, w])
    ensures !miss[w] ==> During(out, miss, initial, See(s, u, w, s.queue + [w]), u, [u])
    ensures forall k: nat :: Followed(out, s, u, k) ==> Followed(out, See(s, u, w, s.queue), u, k)
    ensures forall k: nat :: Followed(out, s, u, k) ==> Followed(out, See(s, u, w, s.queue + [w]), u, k)
  {
    var level := s.dist[u];
    var t, q := See(s, u, w, s.queue), See(s, u, w, s.queue + [w]);
    forall v: nat
      ensures TreeAt(out, initial, t, v) && DoneAt(out, t, level, v)
      ensures TreeAt(out, initial, q, v) && DoneAt(out, q, level, v)
    {
      assert TreeAt(out, initial, s, v) && DoneAt(out, s, level, v);
      if v < |out| && s.seen[v] {
        SameFollowed(out, s, t, v);
        SameFollowed(out, s, q, v);
      }
    }
    forall i: nat | i < |s.queue|
      ensures QueueAt(t, level, i) && QueueAt(q, level, i)
    {
      assert QueueAt(s, level, i);
    }
    forall i: nat, j: nat | i < j < |q.queue|
      ensures Sorted(q, i, j) && (j < |s.queue| ==> Sorted(t, i, j))
    {
      assert QueueAt(s, level, i);
      if j < |s.queue| {
        assert QueueAt(s, level, j) && Sorted(s, i, j);
      }
    }
    SameFollowed(out, s, t, u);
    SameFollowed(out, s, q, u);
  }

  /** A seen vertex is at most one step further than the vertex being expanded. */
  lemma SeenClose(out: seq<seq<Edge>>, miss: seq<bool>, initial: nat, s: Known, u: nat, w: nat)
    requires During(out, miss, initial, s, u, [u]) && w < |out| && s.seen[w]
    ensures FollowedAt(s, u, w)
  {
    if w in s.done {
      assert DoneAt(out, s, s.dist[u], w);
    } else if w in s.queue {
      var i: nat :| i < |s.queue| && s.queue[i] == w;
      assert QueueAt(s, s.dist[u], i);
    }
  }

  /** One round of the edge loop, as seen by its three ways out. */
  lemma FollowEdge(out: seq<seq<Edge>>, miss: seq<bool>, initial: nat, s: Known, u: nat, k: nat)
    requires ValidOut(out) && During(out, miss, initial, s, u, [u]) && Followed(out, s, u, k) && k < |out[u]|
    ensures
      var w := out[u][k].target;
      && w < |out|
      && (s.seen[w] ==> Followed(out, s, u, k + 1))
      && (!s.seen[w] ==> w !in s.done)
      && (!s.seen[w] && miss[w] ==> During(out, miss, initial, See(s, u, w, s.queue), u, [u, w]))
      && (!s.seen[w] && !miss[w] ==>
            var t := See(s, u, w, s.queue + [w]);
            During(out, miss, initial, t, u, [u]) && Followed(out, t, u, k + 1))
  {
    var w := out[u][k].target;
    assert TargetAt(out, u, k) && out[u][k] in out[u];
    if s.seen[w] {
      SeenClose(out, miss, initial, s, u, w);
    } else {
      assert DoneAt(out, s, s.dist[u], w);
      SeeVertex(out, miss, initial, s, u, w);
      var t := See(s, u, w, s.queue + [w]);
      if !miss[w] {
        assert Followed(out, t, u, k) && FollowedAt(t, u, w);
      }
    }
  }

  lemma FinishVertex(out: seq<seq<Edge>>, miss: seq<bool>, initial: nat, s: Known, u: nat)
    requires During(out, miss, initial, s, u, [u]) && Followed(out, s, u, |out[u]|)
    ensures Between(out, miss, initial, s.(done := s.done + {u}), s.dist[u])
  {
    var t := s.(done := s.done + {u});
    forall v: nat
      ensures TreeAt(out, initial, t, v) && DoneAt(out, t, s.dist[u], v)
    {
      assert TreeAt(out, initial, s, v) && DoneAt(out, s, s.dist[u], v);
      if v < |out| && s.seen[v] {
        SameFollowed(out, s, t, v);
      }
    }
    forall i: nat | i < |t.queue|
      ensures QueueAt(t, s.dist[u], i)
    {
      assert QueueAt(s, s.dist[u], i);
    }
    forall i: nat, j: nat | i < j < |t.queue|
      ensures Sorted(t, i, j)
    {
      assert Sorted(s, i, j);
    }
  }

  // ------------------------------------------------------------------ conclusions

  /** The first vertex on a route that is not done, and how far it can be. */
  lemma LeavesDone(out: seq<seq<Edge>>, initial: nat, s: Known, level: nat, route: seq<nat>, x: nat) returns (i: nat)
    requires Tree(out, initial, s) && AllDone(out, s, level) && IsRoute(out, route, initial, x) && x !in s.done
    ensures i < |route| && route[i] < |out| && route[i] !in s.done && s.seen[route[i]] && s.dist[route[i]] <= i
  {
    i := 0;
    assert TreeAt(out, initial, s, initial);
    while route[i] in s.done
      invariant i < |route| && route[i] < |out| && s.seen[route[i]] && s.dist[route[i]] <= i
      decreases |route| - i
    {
      assert AdjacentAt(out, route, i) && DoneAt(out, s, level, route[i]);
      var k := EdgeIn(out, route[i], route[i + 1]);
      assert FollowedAt(s, route[i], out[route[i]][k].target);
      i := i + 1;
    }
  }

  ghost predicate IsMissRoute(out: seq<seq<Edge>>, miss: seq<bool>, initial: nat, route: seq<nat>) {
    |route| > 0 && IsRoute(out, route, initial, route[|route| - 1]) && route[|route| - 1] < |miss|
      && miss[route[|route| - 1]]
  }

  lemma NothingMissed(out: seq<seq<Edge>>, miss: seq<bool>, initial: nat, s: Known, level: nat, route: seq<nat>)
    requires Between(out, miss, initial, s, level) && s.queue == []
    ensures !IsMissRoute(out, miss, initial, route)
  {
    if IsMissRoute(out, miss, initial, route) {
      var x := route[|route| - 1];
      assert DoneAt(out, s, level, x);
      if x !in s.done {
        var i := LeavesDone(out, initial, s, level, route, x);
      }
    }
  }

  lemma Nearest(out: seq<seq<Edge>>, miss: seq<bool>, initial: nat, s: Known, u: nat, w: nat, route: seq<nat>)
    requires During(out, miss, initial, s, u, [u, w]) && w < |out| && w !in s.done && s.dist[w] == s.dist[u] + 1
    requires IsMissRoute(out, miss, initial, route)
    ensures s.dist[w] < |route|
  {
    var x := route[|route| - 1];
    assert DoneAt(out, s, s.dist[u], x);
    var i := LeavesDone(out, initial, s, s.dist[u], route, x);
    if route[i] in s.queue {
      var j: nat :| j < |s.queue| && s.queue[j] == route[i];
      assert QueueAt(s, s.dist[u], j);
    }
  }

  // --------------------------------------------------------------------- the search

  ghost function Unseen(seen: seq<bool>): (r: nat) {
    if seen == [] then 0 else Unseen(seen[..|seen| - 1]) + if seen[|seen| - 1] then 0 else 1
  }

  lemma {:induction false} SeeOne(seen: seq<bool>, v: nat)
    requires v < |seen| && !seen[v]
    ensures Unseen(seen[v := true]) + 1 == Unseen(seen)
  {
    var n := |seen| - 1;
    if v < n {
      SeeOne(seen[..n], v);
      assert seen[v := true][..n] == seen[..n][v := true];
    } else {
      assert seen[v := true][..n] == seen[..n];
    }
  }


  class BreadthFirst {
    const out: seq<seq<Edge>>
    const miss: seq<bool>
    const initial: nat

    var seen: seq<bool>
    var parent: seq<int>
    var queue: seq<nat>
    ghost var dist: seq<nat>
    ghost var done: set<nat>

    constructor (out: seq<seq<Edge>>, miss: seq<bool>, initial: nat)
      requires initial < |out|
      ensures this.out == out && this.miss == miss && this.initial == initial
      ensures Knows() == Known(seq(|out|, i => i == initial), seq(|out|, _ => -1), [initial], seq(|out|, _ => 0), {})
    {
      this.out, this.miss, this.initial := out, miss, initial;
      parent, queue := seq(|out|, _ => -1), [initial];
      seen := seq(|out|, i => i == initial);
      dist, done := seq(|out|, _ => 0), {};
    }

    ghost function Knows(): Known
      reads this
    {
      Known(seen, parent, queue, dist, done)
    }

    /** Follows the edges of u until one leads to a new miss, which is returned. */
    method Expand(u: nat) returns (found: int)
      requires ValidOut(out) && During(out, miss, initial, Knows(), u, [u])
      modifies this
      ensures Unseen(seen) + |queue| <= old(Unseen(seen) + |queue|) && done == old(done)
      ensures found < 0 ==> During(out, miss, initial, Knows(), u, [u]) && Followed(out, Knows(), u, |out[u]|)
      ensures found >= 0 ==>
        && found < |miss| && miss[found] && found !in done && During(out, miss, initial, Knows(), u, [u, found])
        && seen[found] && dist[found] == dist[u] + 1
    {
      for k := 0 to |out[u]|
        invariant During(out, miss, initial, Knows(), u, [u]) && Followed(out, Knows(), u, k)
        invariant Unseen(seen) + |queue| <= old(Unseen(seen) + |queue|) && done == old(done)
      {
        ghost var before := Knows();
        FollowEdge(out, miss, initial, before, u, k);
        var w := out[u][k].target;
        if !seen[w] {
          SeeOne(seen, w);
          seen, parent, dist := seen[w := true], parent[w := u], dist[w := dist[u] + 1];
          if miss[w] {
            assert Knows() == See(before, u, w, before.queue);
            return w;
          }
          queue := queue + [w];
          assert Knows() == See(before, u, w, before.queue + [w]);
        }
      }
      return -1;
    }

    /** The breadth-first loop: the nearest miss, or -1. */
    method Search() returns (found: int)
      requires ValidOut(out) && |miss| == |out| && initial < |out|
      requires Knows() == Known(seq(|out|, i => i == initial), seq(|out|, _ => -1), [initial], seq(|out|, _ => 0), {})
      modifies this
      ensures found < 0 ==> forall route :: !IsMissRoute(out, miss, initial, route)
      ensures found >= 0 ==>
        && found < |out| && miss[found] && Tree(out, initial, Knows()) && seen[found]
        && forall route :: IsMissRoute(out, miss, initial, route) ==> dist[found] < |route|
    {
      found := -1;
      if miss[initial] {
        return initial;
      }
      Start(out, miss, initial, Knows());
      ghost var level := 0;
      while queue != []
        invariant Between(out, miss, initial, Knows(), level)
        decreases Unseen(seen) + |queue|
      {
        var u := queue[0];
        TakeVertex(out, miss, initial, Knows(), level);
        queue := queue[1..];
        found := Expand(u);
        if found >= 0 {
          forall route | IsMissRoute(out, miss, initial, route)
            ensures dist[found] < |route|
          {
            Nearest(out, miss, initial, Knows(), u, found, route);
          }
          return;
        }
        FinishVertex(out, miss, initial, Knows(), u);
        level := dist[u];
        done := done + {u};
      }
      forall route
        ensures !IsMissRoute(out, miss, initial, route)
      {
        NothingMissed(out, miss, initial, Knows(), level, route);
      }
    }

    /** Walks the parents back to the initial vertex. */
    method PathTo(found: nat) returns (path: seq<nat>)
      requires found < |out| && Tree(out, initial, Knows()) && seen[found]
      ensures IsRoute(out, path, initial, found) && |path| == dist[found] + 1
    {
      var reversed: seq<nat> := [found];
      assert TreeAt(out, initial, Knows(), found);
      var v := parent[found];
      while v >= 0
        invariant |reversed| > 0
        invariant var top := reversed[|reversed| - 1];
                  && IsRoute(out, Reversed(reversed), top, found) && seen[top] && v == parent[top]
                  && |reversed| + dist[top] == dist[found] + 1
        decreases dist[reversed[|reversed| - 1]]
      {
        ghost var top := reversed[|reversed| - 1];
        assert TreeAt(out, initial, Knows(), top) && TreeAt(out, initial, Knows(), v);
        RouteBefore(out, v, top, Reversed(reversed), found);
        reversed := reversed + [v];
        v := parent[v];
      }
      assert TreeAt(out, initial, Knows(), reversed[|reversed| - 1]);
      path := Reversed(reversed);
    }
  }

  function Reversed(s: seq<nat>): (r: seq<nat>)
    ensures |r| == |s|
  {
    if s == [] then [] else [s[|s| - 1]] + Reversed(s[..|s| - 1])
  }

  lemma RouteBefore(out: seq<seq<Edge>>, u: nat, v: nat, route: seq<nat>, w: nat)
    requires IsRoute(out, route, v, w) && Adjacent(out, u, v)
    ensures IsRoute(out, [u] + route, u, w)
  {
    var more := [u] + route;
    forall i: nat | i + 1 < |more|
      ensures AdjacentAt(out, more, i)
    {
      assert i > 0 ==> AdjacentAt(out, route, i - 1);
    }
  }

  /** A shortest path to a miss, if one can be reached at all. */
  method FindWitness(out: seq<seq<Edge>>, miss: seq<bool>, initial: nat) returns (found: bool, path: seq<nat>)
    requires ValidOut(out) && |miss| == |out| && initial < |out|
    ensures found <==> exists route :: IsMissRoute(out, miss, initial, route)
    ensures found ==> IsMissRoute(out, miss, initial, path)
    ensures found ==> forall route :: IsMissRoute(out, miss, initial, route) ==> |path| <= |route|
    ensures !found ==> path == []
  {
    var search := new BreadthFirst(out, miss, initial);
    var state := search.Search();
    found, path := state >= 0, [];
    if found {
      path := search.PathTo(state);
    }
  }
}
