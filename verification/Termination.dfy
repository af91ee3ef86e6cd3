/** With extrapolation and finite capacities the exploration comes to an end:
    only finitely many classes can be stored, and none is stored twice. */
module Termination {
  import opened Bounds
  import opened Zones
  import opened Walks
  import opened PetriNet
  import opened Scheduling
  import opened StateClasses
  import opened Symbolic
  import opened Graph
  import Dbm
  import Engine

  // --------------------------------------------------------- what can be stored

  ghost predicate FiniteCapacities(net: Net) {
    forall p :: 0 <= p < |net.places| ==> net.places[p].capacity.Fin?
  }

  ghost predicate TokensBelow(net: Net, m: Marking, p: nat) {
    p < |m| == |net.places| == |net.initial| && net.places[p].capacity.Fin?
    ==> m[p] <= Max(net.initial[p], net.places[p].capacity.v)
  }

  /** Markings never exceed the larger of initial tokens and capacity. */
  lemma {:induction false} TokensBounded(g: Setting, vertices: seq<StateClass>, edges: seq<GraphEdge>, birth: seq<nat>,
                                         v: nat, p: nat)
    requires GraphInv(g, vertices, edges, birth) && v < |vertices|
    ensures TokensBelow(g.net, vertices[v].marking, p)
  {
    if v == 0 {
      assert StartAt(g, vertices, 0);
    } else {
      assert BirthAt(g, vertices, edges, birth, v);
      var e := edges[birth[v - 1]];
      TokensBounded(g, vertices, edges, birth, e.source, p);
      FireBelow(g.net, vertices[e.source].marking, e.firing.transition, p);
    }
  }

  lemma FireBelow(net: Net, m: Marking, t: nat, p: nat)
    requires ValidNet(net) && ValidMarking(net, m) && Enabled(net, m, t) && TokensBelow(net, m, p)
    ensures TokensBelow(net, FireMarking(net, m, t), p)
  {
    if p < |m| {
      WeightAt(net.preArcs[t], |net.places|, p);
      WeightAt(net.postArcs[t], |net.places|, p);
      assert FireMarking(net, m, t)[p] == TokensAfter(net, m, t, p);
    }
  }

  /** The extrapolated closure of a canonical zone has small entries. */
  lemma ExtrapolatedWithin(m: Matrix, k: nat)
    requires Canonical(m) && |m| > 0
    ensures EntriesWithin(ExtrapolateMatrix(m, k, {}), (|m| - 1) * k)
  {
    var r := RelaxMatrix(m, k, {});
    Dbm.RelaxHasSolution(m, k, {});
    forall i: nat, j: nat | i < |r| && j < |r|
      ensures EntryWithin(r[i][j], k)
    {
    }
    ClosureWithin(r, k);
  }

  /** Every stored class is the extrapolation of a good class. */
  lemma VertexOrigin(g: Setting, vertices: seq<StateClass>, edges: seq<GraphEdge>, birth: seq<nat>, v: nat)
    returns (s: StateClass)
    requires GraphInv(g, vertices, edges, birth) && v < |vertices|
    ensures GoodClass(g.net, s) && vertices[v] == Extrapolated(g.net, g.extrapolation, s)
  {
    if v == 0 {
      assert StartAt(g, vertices, 0);
      s := InitialClass(g.net);
      InitialClassGood(g.net);
    } else {
      assert BirthAt(g, vertices, edges, birth, v);
      var e := edges[birth[v - 1]];
      assert VertexAt(g, vertices, e.source);
      ElapseGood(g.net, vertices[e.source]);
      SuccessorGood(g.net, Elapse(g.net, vertices[e.source]), e.firing.transition);
      s := Successor(g.net, Elapse(g.net, vertices[e.source]), e.firing.transition);
    }
  }

  /** Every stored finite bound lies in [-(n-1)k, (n-1)k]. */
  lemma StoredBounds(g: Setting, vertices: seq<StateClass>, edges: seq<GraphEdge>, birth: seq<nat>, v: nat)
    requires GraphInv(g, vertices, edges, birth) && g.extrapolation.UpTo? && v < |vertices|
    ensures |vertices[v].zone| > 0 && EntriesWithin(vertices[v].zone, (|vertices[v].zone| - 1) * g.extrapolation.k)
  {
    var s := VertexOrigin(g, vertices, edges, birth, v);
    LayoutFacts(g.net, s.marking);
    ExtrapolatedWithin(s.zone, g.extrapolation.k);
  }

  lemma {:induction false} LayoutShort(enabled: seq<nat>, suspended: seq<nat>)
    ensures |LayoutOf(enabled, suspended)| <= 1 + 2 * |enabled|
  {
    if enabled != [] {
      LayoutShort(enabled[..|enabled| - 1], suspended);
    }
  }

  lemma {:induction false} IncreasingShort(s: seq<nat>, n: nat)
    requires Increasing(s) && forall t: nat :: t in s ==> t < n
    ensures |s| <= n
  {
    forall p | 0 <= p < |s|
      ensures s[p] < n
    {
      assert s[p] in s;
    }
    DistinctShort(s, n);
  }

  lemma ZoneSize(g: Setting, s: StateClass)
    requires IsClass(g.net, s)
    ensures |s.zone| <= 1 + 2 * |g.net.transitions|
  {
    LayoutShort(s.structEnabled, s.suspended);
    IncreasingShort(s.structEnabled, |g.net.transitions|);
  }

  // -------------------------------------------------------------- finite universes

  ghost function Sequences<T(!new)>(alphabet: set<T>, n: nat): (r: set<seq<T>>)
    ensures forall s: seq<T> {:trigger s in r} :: s in r <==> |s| == n && forall i :: 0 <= i < n ==> s[i] in alphabet
  {
    if n == 0 then {[]}
    else
      var shorter := Sequences(alphabet, n - 1);
      var r := set s, x | s in shorter && x in alphabet :: s + [x];
      assert forall s: seq<T> :: |s| == n && (forall i :: 0 <= i < n ==> s[i] in alphabet) ==>
        s == s[..n - 1] + [s[n - 1]] && s[..n - 1] in shorter && s[n - 1] in alphabet;
      r
  }

  ghost function SmallBounds(b: nat): (r: set<Bound>)
    ensures forall x: Bound {:trigger x in r} :: x in r <==> EntryWithin(x, b)
  {
    if b == 0 then {Inf, Fin(0)} else SmallBounds(b - 1) + {Fin(b), Fin(-(b as int))}
  }

  ghost function SmallMatrices(n: nat, b: nat): set<seq<seq<Bound>>> {
    if n == 0 then {} else SmallMatrices(n - 1, b) + Sequences(Sequences(SmallBounds(b), n), n)
  }

  lemma {:induction false} InSmallMatrices(m: Matrix, n: nat, b: nat)
    requires 0 < |m| <= n && EntriesWithin(m, b)
    ensures m in SmallMatrices(n, b)
  {
    if |m| < n {
      InSmallMatrices(m, n - 1, b);
    } else {
      forall i | 0 <= i < n
        ensures m[i] in Sequences(SmallBounds(b), n)
      {
        forall j | 0 <= j < n
          ensures m[i][j] in SmallBounds(b)
        {
          assert EntryWithin(m[i][j], b);
        }
      }
    }
  }

  ghost function Numbers(n: int): (r: set<int>)
    ensures forall x :: x in r <==> 0 <= x <= n
    decreases if n < 0 then 0 else n + 1
  {
    if n < 0 then {} else Numbers(n - 1) + {n}
  }

  /** The most tokens that any place can hold. */
  ghost function MostTokens(net: Net, n: nat): (c: int)
    requires n <= |net.places| == |net.initial|
    ensures forall p :: 0 <= p < n && net.places[p].capacity.Fin? ==> Max(net.initial[p], net.places[p].capacity.v) <= c
  {
    if n == 0 then 0
    else
      var c := MostTokens(net, n - 1);
      if net.places[n - 1].capacity.Fin? then Max(c, Max(net.initial[n - 1], net.places[n - 1].capacity.v)) else c
  }

  ghost function Universe(net: Net, k: nat): set<(Marking, seq<seq<Bound>>)>
    requires ValidNet(net)
  {
    var n := 1 + 2 * |net.transitions|;
    var markings := Sequences(Numbers(MostTokens(net, |net.places|)), |net.places|);
    var zones := SmallMatrices(n, (n - 1) * k);
    set m, z | m in markings && z in zones :: (m, z)
  }

  ghost function Key(s: StateClass): (Marking, seq<seq<Bound>>) {
    (s.marking, s.zone)
  }

  lemma WithinMore(m: Matrix, a: nat, b: nat)
    requires EntriesWithin(m, a) && a <= b
    ensures EntriesWithin(m, b)
  {
    forall i: nat, j: nat | i < |m| && j < |m|
      ensures EntryWithin(m[i][j], b)
    {
      assert EntryWithin(m[i][j], a);
    }
  }

  lemma WithinLargest(z: Matrix, n: nat, k: nat)
    requires 0 < |z| <= n && EntriesWithin(z, (|z| - 1) * k)
    ensures z in SmallMatrices(n, (n - 1) * k)
  {
    Scale(|z| - 1, n - 1, k);
    var a: nat, b: nat := (|z| - 1) * k, (n - 1) * k;
    WithinMore(z, a, b);
    InSmallMatrices(z, n, b);
  }

  lemma ZoneInUniverse(g: Setting, vertices: seq<StateClass>, edges: seq<GraphEdge>, birth: seq<nat>, v: nat)
    requires GraphInv(g, vertices, edges, birth) && g.extrapolation.UpTo? && v < |vertices|
    ensures
      var n := 1 + 2 * |g.net.transitions|;
      vertices[v].zone in SmallMatrices(n, (n - 1) * g.extrapolation.k)
  {
    assert VertexAt(g, vertices, v);
    StoredBounds(g, vertices, edges, birth, v);
    ZoneSize(g, vertices[v]);
    WithinLargest(vertices[v].zone, 1 + 2 * |g.net.transitions|, g.extrapolation.k);
  }

  lemma MarkingInUniverse(g: Setting, vertices: seq<StateClass>, edges: seq<GraphEdge>, birth: seq<nat>, v: nat)
    requires GraphInv(g, vertices, edges, birth) && FiniteCapacities(g.net) && v < |vertices|
    ensures vertices[v].marking in Sequences(Numbers(MostTokens(g.net, |g.net.places|)), |g.net.places|)
  {
    assert VertexAt(g, vertices, v);
    var m, most := vertices[v].marking, MostTokens(g.net, |g.net.places|);
    forall p | 0 <= p < |m|
      ensures m[p] in Numbers(most)
    {
      TokensBounded(g, vertices, edges, birth, v, p);
    }
  }

  lemma StoredInUniverse(g: Setting, vertices: seq<StateClass>, edges: seq<GraphEdge>, birth: seq<nat>, v: nat)
    requires GraphInv(g, vertices, edges, birth) && g.extrapolation.UpTo? && FiniteCapacities(g.net) && v < |vertices|
    ensures Key(vertices[v]) in Universe(g.net, g.extrapolation.k)
  {
    ZoneInUniverse(g, vertices, edges, birth, v);
    MarkingInUniverse(g, vertices, edges, birth, v);
  }

  lemma {:induction false} DistinctInSet<T(!new)>(s: seq<T>, universe: set<T>)
    requires forall i :: 0 <= i < |s| ==> s[i] in universe
    requires forall i, j :: 0 <= i < j < |s| ==> s[i] != s[j]
    ensures |s| <= |universe|
  {
    if s != [] {
      DistinctInSet(s[..|s| - 1], universe - {s[|s| - 1]});
    }
  }

  /** How many classes an exploration can store, whatever its mode and limit. */
  ghost function StateBound(net: Net, k: nat): nat
    requires ValidNet(net)
  {
    |Universe(net, k)|
  }

  lemma VerticesBounded(g: Setting, vertices: seq<StateClass>, edges: seq<GraphEdge>, birth: seq<nat>)
    requires GraphInv(g, vertices, edges, birth) && g.extrapolation.UpTo? && FiniteCapacities(g.net)
    ensures |vertices| <= StateBound(g.net, g.extrapolation.k)
  {
    var keys := seq(|vertices|, i requires 0 <= i < |vertices| => Key(vertices[i]));
    forall i | 0 <= i < |keys|
      ensures keys[i] in Universe(g.net, g.extrapolation.k)
    {
      StoredInUniverse(g, vertices, edges, birth, i);
    }
    forall i, j | 0 <= i < j < |keys|
      ensures keys[i] != keys[j]
    {
      assert DistinctAt(g, vertices, i, j) && VertexAt(g, vertices, i) && VertexAt(g, vertices, j);
    }
    DistinctInSet(keys, Universe(g.net, g.extrapolation.k));
  }

  /** A state limit above the bound never truncates the exploration, in any
      matching mode. */
  method BuildCompletely(graph: Engine.StateClassReachabilityGraph, maxStates: nat)
    requires ValidNet(graph.net) && FiniteCapacities(graph.net)
    requires graph.extrapolation.UpTo? && ValidExtrapolation(graph.net, graph.extrapolation)
    requires maxStates > StateBound(graph.net, graph.extrapolation.k)
    modifies graph
    ensures !graph.truncated
    ensures graph.Explored() && Complete(graph.Setting(), graph.vertices, graph.edges, graph.birth)
    ensures graph.mode == old(graph.mode) && graph.extrapolation == old(graph.extrapolation)
  {
    graph.Build(maxStates);
    VerticesBounded(graph.Setting(), graph.vertices, graph.edges, graph.birth);
  }
}
