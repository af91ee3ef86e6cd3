/** The flat adjacency lists that the graph analyses work on. */
module Adjacency {
  import opened Bounds

  datatype Edge = Edge(target: nat, transition: nat, dwellMin: int, dwellMax: Bound)

  ghost predicate ValidOut(out: seq<seq<Edge>>) {
    forall v: nat, k: nat :: v < |out| && k < |out[v]| ==> TargetAt(out, v, k)
  }

  ghost predicate TargetAt(out: seq<seq<Edge>>, v: nat, k: nat)
    requires v < |out| && k < |out[v]|
  {
    out[v][k].target < |out|
  }

  ghost predicate Adjacent(out: seq<seq<Edge>>, u: nat, v: nat) {
    u < |out| && v < |out| && exists e :: e in out[u] && e.target == v
  }

  /** route visits vertices from u to v along edges. */
  ghost predicate IsRoute(out: seq<seq<Edge>>, route: seq<nat>, u: nat, v: nat) {
    && |route| > 0 && route[0] == u && route[|route| - 1] == v
    && u < |out| && v < |out|
    && forall i: nat :: i + 1 < |route| ==> AdjacentAt(out, route, i)
  }

  ghost predicate AdjacentAt(out: seq<seq<Edge>>, route: seq<nat>, i: nat) {
    i + 1 < |route| && Adjacent(out, route[i], route[i + 1])
  }

  ghost predicate Reaches(out: seq<seq<Edge>>, u: nat, v: nat) {
    exists route :: IsRoute(out, route, u, v)
  }

  lemma ReachesSelf(out: seq<seq<Edge>>, v: nat)
    requires v < |out|
    ensures Reaches(out, v, v)
  {
    assert IsRoute(out, [v], v, v);
  }

  lemma ReachesNext(out: seq<seq<Edge>>, u: nat, v: nat)
    requires Adjacent(out, u, v)
    ensures Reaches(out, u, v)
  {
    assert AdjacentAt(out, [u, v], 0);
    assert IsRoute(out, [u, v], u, v);
  }

  lemma ReachesOn(out: seq<seq<Edge>>, u: nat, v: nat, w: nat)
    requires Reaches(out, u, v) && Reaches(out, v, w)
    ensures Reaches(out, u, w)
  {
    var a :| IsRoute(out, a, u, v);
    var b :| IsRoute(out, b, v, w);
    var c := a + b[1..];
    forall i: nat | i + 1 < |c|
      ensures AdjacentAt(out, c, i)
    {
      if i + 1 < |a| {
        assert AdjacentAt(out, a, i);
      } else {
        assert AdjacentAt(out, b, i + 1 - |a|);
      }
    }
    assert IsRoute(out, c, u, w);
  }

  lemma EdgeIn(out: seq<seq<Edge>>, u: nat, v: nat) returns (k: nat)
    requires Adjacent(out, u, v)
    ensures k < |out[u]| && out[u][k].target == v
  {
    var e :| e in out[u] && e.target == v;
    k :| k < |out[u]| && out[u][k] == e;
  }
}
