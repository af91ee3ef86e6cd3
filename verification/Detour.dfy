/** A net on which the shortest path search misses the minimum: its finished state
    graph, what the search returns there, and a run that is faster. */
module Detour {
  import opened Adjacency
  import opened Bounds
  import opened Zones
  import opened PetriNet
  import opened Scheduling
  import opened StateClasses
  import opened Semantics
  import opened Symbolic
  import opened Graph
  import opened PathDp
  import opened ResponseTime
  import opened Shortest
  import opened Metrics

  // ----------------------------------------------------------------------- the net

  /** One token moves over places 0 to 3; transition t takes it from Source(t) to
      Target(t) no earlier than Low(t).  Places 1 and 2 form a cycle. */
  function Source(t: nat): nat {
    if t < 2 then 0 else if t < 4 then 1 else 2
  }

  function Target(t: nat): nat {
    match t
    case 0 => 1
    case 1 => 2
    case 2 => 2
    case 3 => 3
    case 4 => 1
    case _ => 3
  }

  function Low(t: nat): nat {
    match t
    case 0 => 100
    case 3 => 5
    case 5 => 10
    case _ => 0
  }

  function TheNet(): Net {
    Net(seq(4, _ => Place(Fin(1), false)),
        seq(6, t requires 0 <= t < 6 => Transition(Interval(Low(t), Inf, false, false), 0, -1, false)),
        seq(6, t requires 0 <= t < 6 => [Arc(Source(t), 1)]),
        seq(6, t requires 0 <= t < 6 => [Arc(Target(t), 1)]),
        TokenAt(0), map[])
  }

  function TokenAt(v: nat): (m: Marking)
    ensures |m| == 4 && forall p: nat :: p < 4 ==> m[p] == if p == v then 1 else 0
  {
    seq(4, p => if p == v then 1 else 0)
  }

  lemma NetIsValid()
    ensures ValidNet(TheNet()) && |TheNet().places| == 4 && |TheNet().transitions| == 6
    ensures forall v: nat :: v < 4 ==> ValidMarking(TheNet(), TokenAt(v))
  {
  }

  lemma EnabledAt(t: nat, v: nat)
    requires v < 4
    ensures Enabled(TheNet(), TokenAt(v), t) <==> t < 6 && Source(t) == v
  {
    if t < 6 {
      assert TheNet().preArcs[t] == [Arc(Source(t), 1)];
      assert TheNet().preArcs[t][0] == Arc(Source(t), 1);
      assert Source(t) == v ==> TokenAt(v)[Source(t)] >= 1;
    }
  }

  /** What there is to know about the net. */
  ghost predicate FactsAt(net: Net, t: nat, v: nat) {
    v < 4 ==>
      && |net.transitions| == 6 && ValidMarking(net, TokenAt(v))
      && (Enabled(net, TokenAt(v), t) <==> t < 6 && Source(t) == v)
      && (Active(net, TokenAt(v), t) <==> t < 6 && Source(t) == v)
      && !IsSuspended(net, TokenAt(v), t)
      && (t < 6 ==> Earliest(net, t) == Low(t) && Latest(net, t) == Inf)
      && (t < 6 && t < |net.preArcs| && t < |net.postArcs| ==>
            FireMarking(net, TokenAt(Source(t)), t) == TokenAt(Target(t)))
  }

  ghost predicate IsNet(net: Net) {
    ValidNet(net) && net.initial == TokenAt(0) && forall t: nat, v: nat :: FactsAt(net, t, v)
  }

  lemma TheNetIs()
    ensures IsNet(TheNet())
  {
    NetIsValid();
    forall t: nat, v: nat
      ensures FactsAt(TheNet(), t, v)
    {
      if v < 4 {
        EnabledAt(t, v);
        if t < 6 {
          Moves(t);
        }
      }
    }
  }

  lemma Moves(t: nat)
    requires t < 6
    ensures ValidNet(TheNet()) && FireMarking(TheNet(), TokenAt(Source(t)), t) == TokenAt(Target(t))
  {
    NetIsValid();
    forall p: nat | p < 4
      ensures TokensAfter(TheNet(), TokenAt(Source(t)), t, p) == TokenAt(Target(t))[p]
    {
      assert Weight([Arc(Source(t), 1)], p) == if p == Source(t) then 1 else 0;
      assert Weight([Arc(Target(t), 1)], p) == if p == Target(t) then 1 else 0;
    }
  }

  // --------------------------------------------------------------------- its steps

  lemma MarkingIs(net: Net, v: nat)
    requires IsNet(net) && v < 4
    ensures ValidMarking(net, TokenAt(v))
  {
    assert FactsAt(net, 0, v);
  }

  /** The configuration with the token at v and all clocks at zero. */
  ghost function Fresh(net: Net, v: nat): (c: Config)
    requires IsNet(net) && v < 4
    ensures ValidConfig(net, c) && c.marking == TokenAt(v) && forall x :: x in c.clocks ==> c.clocks[x] == 0
  {
    MarkingIs(net, v);
    hide IsNet;
    Config(TokenAt(v), map x | x in Clocks(net, TokenAt(v)) :: 0)
  }

  lemma IsFresh(net: Net, v: nat, c: Config)
    requires IsNet(net) && v < 4 && ValidConfig(net, c) && c.marking == TokenAt(v)
    requires forall x :: x in c.clocks ==> c.clocks[x] == 0
    ensures c == Fresh(net, v)
  {
    assert c.clocks.Keys == Fresh(net, v).clocks.Keys;
    assert c.clocks == Fresh(net, v).clocks;
  }

  /** Clocks belong to the transitions out of v. */
  lemma ClocksAt(net: Net, v: nat, c: Config, x: ClockVar)
    requires IsNet(net) && v < 4 && ValidConfig(net, c) && c.marking == TokenAt(v)
    ensures x in c.clocks <==> x.Execution? && x.transition < 6 && Source(x.transition) == v
  {
    assert x in Clocks(net, TokenAt(v)) <==> HasClock(net, TokenAt(v), x);
    if !x.Zero? {
      assert FactsAt(net, x.transition, v);
    }
  }

  /** After Low(t) or more, t can fire. */
  lemma CanGo(net: Net, t: nat, d: nat)
    requires IsNet(net) && t < 6 && d >= Low(t)
    ensures CanStep(net, Fresh(net, Source(t)), Step(d, t))
  {
    var v := Source(t);
    var c := Fresh(net, v);
    forall u: nat | Active(net, c.marking, u)
      ensures Within(c.clocks[Execution(u)] + d, Latest(net, u))
    {
      assert FactsAt(net, u, v);
      ClocksAt(net, v, c, Execution(u));
    }
    assert FactsAt(net, t, v);
    ClocksAt(net, v, c, Execution(t));
  }

  lemma NetIs(net: Net, t: nat)
    requires IsNet(net) && t < 6
    ensures ValidNet(net) && |net.preArcs| == |net.postArcs| == 6
    ensures FireMarking(net, TokenAt(Source(t)), t) == TokenAt(Target(t))
  {
    assert FactsAt(net, t, Source(t));
  }

  lemma NoneStays(net: Net, t: nat, c: Config, next: Config, x: ClockVar)
    requires IsNet(net) && t < 6 && ValidConfig(net, c) && c.marking == TokenAt(Source(t))
    requires ValidConfig(net, next) && next.marking == TokenAt(Target(t)) && x in next.clocks
    ensures x !in c.clocks
  {
    ClocksAt(net, Target(t), next, x);
    ClocksAt(net, Source(t), c, x);
  }

  /** All clocks start anew then. */
  lemma Goes(net: Net, t: nat, d: nat)
    requires IsNet(net) && t < 6 && d >= Low(t)
    ensures Steps(net, Fresh(net, Source(t)), Step(d, t), Fresh(net, Target(t)))
  {
    hide CanStep, Steps, IsNet, Delay, Clocks;
    NetIs(net, t);
    var v, c := Source(t), Fresh(net, Source(t));
    CanGo(net, t, d);
    var next := TakeStep(net, c, Step(d, t));
    forall x | x in next.clocks
      ensures x !in c.clocks
    {
      NoneStays(net, t, c, next, x);
    }
    IsFresh(net, Target(t), next);
  }

  // --------------------------------------------------------------------- its graph

  /** The class with the token at v and all clocks at zero. */
  ghost function ClassAt(net: Net, v: nat): (s: StateClass)
    requires IsNet(net) && v < 4
    ensures IsClass(net, s) && s.marking == TokenAt(v)
  {
    assert FactsAt(net, 0, v);
    MakeClass(net, TokenAt(v), ZeroMatrix(|Layout(net, TokenAt(v))|))
  }

  lemma ClassGood(net: Net, v: nat)
    requires IsNet(net) && v < 4
    ensures GoodClass(net, ClassAt(net, v))
  {
    hide IsNet, FactsAt, Enabled;
    var s := ClassAt(net, v);
    LayoutFacts(net, s.marking);
    forall i: nat | i < |s.zone|
      ensures ClockBounds(net, s, i)
    {
      if s.clockVars[i].Execution? {
        assert s.clockVars[i] in s.clockVars;
        NoLatest(net, v, s.clockVars[i].transition);
      }
    }
  }

  lemma NoLatest(net: Net, v: nat, t: nat)
    requires IsNet(net) && v < 4 && Enabled(net, TokenAt(v), t)
    ensures t < |net.transitions| && Latest(net, t) == Inf
  {
    assert FactsAt(net, t, v);
  }

  lemma FreshIn(net: Net, v: nat)
    requires IsNet(net) && v < 4
    ensures InZone(net, ClassAt(net, v), Fresh(net, v))
  {
    var s := ClassAt(net, v);
    LayoutFacts(net, s.marking);
    ZeroSat(|s.zone|, Valuation(s.clockVars, Fresh(net, v).clocks));
  }

  /** Every transition out of v can be fired from its class. */
  lemma Fires(net: Net, t: nat)
    requires IsNet(net) && t < 6
    ensures var e := Elapse(net, ClassAt(net, Source(t))); GoodClass(net, e) && IsFirable(net, e, t)
  {
    var s := ClassAt(net, Source(t));
    ClassGood(net, Source(t));
    FreshIn(net, Source(t));
    ElapseGood(net, s);
    CanGo(net, t, Low(t));
    StepInPost(net, Off, s, Fresh(net, Source(t)), Step(Low(t), t));
  }

  /** No clock of the class survives the firing. */
  lemma NothingCarried(net: Net, t: nat, e: StateClass, vars: seq<ClockVar>)
    requires IsNet(net) && t < 6 && IsClass(net, e) && e.marking == TokenAt(Source(t))
    requires vars == Layout(net, TokenAt(Target(t))) && |e.clockVars| > 0
    ensures var sigma := SourceMap(vars, e.clockVars, t); forall i :: 0 <= i < |sigma| ==> sigma[i] == 0
  {
    hide IsNet, HasClock;
    LayoutFacts(net, TokenAt(Source(t)));
    LayoutFacts(net, TokenAt(Target(t)));
    forall x | x in vars && !x.Zero?
      ensures x !in e.clockVars
    {
      NoCommonClock(net, t, x);
    }
  }

  lemma NoCommonClock(net: Net, t: nat, x: ClockVar)
    requires IsNet(net) && t < 6 && HasClock(net, TokenAt(Target(t)), x)
    ensures !HasClock(net, TokenAt(Source(t)), x)
  {
    if !x.Zero? {
      assert FactsAt(net, x.transition, Source(t)) && FactsAt(net, x.transition, Target(t));
    }
  }

  /** Firing leads to the class of the target. */
  lemma LeadsTo(net: Net, t: nat)
    requires IsNet(net) && t < 6
    ensures Enabled(net, ClassAt(net, Source(t)).marking, t)
    ensures Post(net, Off, ClassAt(net, Source(t)), t) == ClassAt(net, Target(t))
  {
    hide IsNet, FactsAt, ClassAt, IsFirable, MakeClass, GoodClass, Enabled, Elapse, Successor;
    var e := Elapse(net, ClassAt(net, Source(t)));
    Fires(net, t);
    NetIs(net, t);
    SuccessorIs(net, t, e);
    ClassIs(net, Target(t));
  }

  lemma ClassIs(net: Net, v: nat)
    requires IsNet(net) && v < 4
    ensures ClassAt(net, v) == MakeClass(net, TokenAt(v), ZeroMatrix(|Layout(net, TokenAt(v))|))
  {
  }

  lemma SuccessorIs(net: Net, t: nat, e: StateClass)
    requires IsNet(net) && t < 6 && GoodClass(net, e) && e.marking == TokenAt(Source(t)) && IsFirable(net, e, t)
    ensures Enabled(net, e.marking, t)
    ensures
      Successor(net, e, t) == MakeClass(net, TokenAt(Target(t)), ZeroMatrix(|Layout(net, TokenAt(Target(t)))|))
  {
    hide FactsAt;
    NetIs(net, t);
    LayoutFacts(net, e.marking);
    var row, vars := Row(net, e, t), Layout(net, TokenAt(Target(t)));
    var f, sigma := Fired(e.zone, row, Earliest(net, t)), SourceMap(vars, e.clockVars, t);
    FiredCanonical(e.zone, row, Earliest(net, t));
    NothingCarried(net, t, e, vars);
    FromReference(f, sigma);
  }

  lemma FromReference(f: Matrix, sigma: seq<nat>)
    requires Canonical(f) && |f| > 0 && forall i :: 0 <= i < |sigma| ==> sigma[i] == 0
    ensures Reindex(f, sigma) == ZeroMatrix(|sigma|)
  {
    var r := Reindex(f, sigma);
    assert forall i :: 0 <= i < |r| ==> r[i] == ZeroMatrix(|sigma|)[i];
  }

  /** The least dwell of an edge is the earliest time of its transition. */
  lemma Dwells(net: Net, t: nat)
    requires IsNet(net) && t < 6
    ensures Enabled(net, ClassAt(net, Source(t)).marking, t)
    ensures EdgeOf(net, ClassAt(net, Source(t)), t).transition == t
    ensures EdgeOf(net, ClassAt(net, Source(t)), t).dwellMin == Low(t)
  {
    var v := Source(t);
    var s, c := ClassAt(net, v), Fresh(net, v);
    var e := Elapse(net, s);
    assert FactsAt(net, t, v);
    ClassGood(net, v);
    FreshIn(net, v);
    LayoutFacts(net, s.marking);
    var row := Row(net, s, t);
    assert row == Row(net, e, t);
    CanGo(net, t, Low(t));
    DelayInElapse(net, s, c, 0);
    var w := Valuation(e.clockVars, Delay(net, c, 0).clocks);
    RowValue(net, e, Delay(net, c, 0), t);
    assert Holds(e.zone, w, 0, row);
  }

  function TheSetting(net: Net): Setting {
    Setting(net, Equality, Off)
  }

  /** One class a place, in the order in which they are found. */
  ghost function Vertices(net: Net): (r: seq<StateClass>)
    requires IsNet(net)
    ensures |r| == 4 && forall v: nat :: v < 4 ==> r[v] == ClassAt(net, v)
  {
    seq(4, v requires 0 <= v < 4 => ClassAt(net, v))
  }

  ghost function EdgeAlong(net: Net, t: nat): GraphEdge
    requires IsNet(net) && t < 6
  {
    Dwells(net, t);
    GraphEdge(Source(t), Target(t), EdgeOf(net, ClassAt(net, Source(t)), t))
  }

  /** One edge a transition, vertex by vertex. */
  ghost function Edges(net: Net): (r: seq<GraphEdge>)
    requires IsNet(net)
    ensures |r| == 6 && forall t: nat :: t < 6 ==> r[t] == EdgeAlong(net, t)
  {
    seq(6, t requires 0 <= t < 6 => EdgeAlong(net, t))
  }

  lemma GoodAlong(net: Net, t: nat)
    requires IsNet(net) && t < 6
    ensures GoodEdge(TheSetting(net), Vertices(net), Edges(net)[t])
    ensures Post(net, Off, Vertices(net)[Source(t)], t) == Vertices(net)[Target(t)]
  {
    hide IsNet, FactsAt, Post, EdgeOf, GoodClass;
    Dwells(net, t);
    Fires(net, t);
    LeadsTo(net, t);
  }

  /** The transition that discovers vertex v. */
  function Birth(v: nat): nat {
    match v
    case 1 => 0
    case 2 => 1
    case _ => 3
  }

  lemma Born(net: Net, v: nat)
    requires IsNet(net) && 0 < v < 4
    ensures BirthAt(TheSetting(net), Vertices(net), Edges(net), [0, 1, 3], v)
  {
    hide GoodEdge;
    GoodAlong(net, Birth(v));
    assert [0, 1, 3][v - 1] == Birth(v);
  }

  lemma VerticesGood(net: Net)
    requires IsNet(net)
    ensures AllVertices(TheSetting(net), Vertices(net)) && AllDistinct(TheSetting(net), Vertices(net))
  {
    hide IsNet, CanMergeInto, GoodClass;
    forall v: nat | v < 4
      ensures VertexAt(TheSetting(net), Vertices(net), v)
    {
      ClassGood(net, v);
    }
    forall u: nat, v: nat
      ensures DistinctAt(TheSetting(net), Vertices(net), u, v)
    {
      if u < v < 4 {
        Apart(net, u, v);
      }
    }
  }

  lemma EdgesGood(net: Net)
    requires IsNet(net)
    ensures ValidNet(net) && AllEdges(TheSetting(net), Vertices(net), Edges(net))
    ensures AllBirths(TheSetting(net), Vertices(net), Edges(net), [0, 1, 3])
    ensures AllExpanded(TheSetting(net), Vertices(net), Edges(net), 4)
  {
    hide IsNet, GoodEdge, BirthAt, Branched;
    NetIs(net, 0);
    forall k: nat | k < 6
      ensures EdgeAt(TheSetting(net), Vertices(net), Edges(net), k)
    {
      GoodAlong(net, k);
    }
    forall v: nat | 0 < v < 4
      ensures BirthAt(TheSetting(net), Vertices(net), Edges(net), [0, 1, 3], v)
    {
      Born(net, v);
    }
    forall u: nat, t: nat | u < 4
      ensures Branched(TheSetting(net), Vertices(net), Edges(net), u, t)
    {
      AllAlong(net, u, t);
    }
  }

  /** A finished exploration of the net, in the order of its transitions. */
  lemma DetourComplete(net: Net)
    requires IsNet(net)
    ensures Complete(TheSetting(net), Vertices(net), Edges(net), [0, 1, 3])
  {
    hide IsNet, AllVertices, AllDistinct, AllEdges, AllBirths, AllExpanded, StartClass;
    NetIs(net, 0);
    StartIs(net);
    VerticesGood(net);
    EdgesGood(net);
  }

  lemma StartIs(net: Net)
    requires IsNet(net)
    ensures Vertices(net)[0] == StartClass(TheSetting(net))
  {
  }

  lemma Apart(net: Net, u: nat, v: nat)
    requires IsNet(net) && u < v < 4
    ensures !CanMergeInto(ClassAt(net, v), ClassAt(net, u), Equality)
  {
    assert TokenAt(u)[u] != TokenAt(v)[u];
  }

  lemma AllAlong(net: Net, u: nat, t: nat)
    requires IsNet(net) && u < 4
    ensures Branched(TheSetting(net), Vertices(net), Edges(net), u, t)
  {
    assert FactsAt(net, t, u);
    if t < 6 && Source(t) == u {
      Dwells(net, t);
      assert Edges(net)[t].source == u && Edges(net)[t].firing.transition == t;
    }
  }

  // --------------------------------------------------------------------- its search

  /** The task is released at place 0, in flight at places 0 to 2, and completed at
      place 3. */
  function TheTask(): TaskTopology {
    TaskTopology(-1, 0, [0, 1, 2], [0, 1, 2, 3, 4, 5], [], 0, 3, false, 0)
  }

  ghost function Along(net: Net, t: nat): (e: Edge)
    requires IsNet(net) && t < 6
    ensures e.target == Target(t) && e.transition == t && e.dwellMin == Low(t)
  {
    Dwells(net, t);
    Flat(EdgeAlong(net, t))
  }

  ghost function Out(net: Net): seq<seq<Edge>>
    requires IsNet(net)
  {
    [[Along(net, 0), Along(net, 1)], [Along(net, 2), Along(net, 3)], [Along(net, 4), Along(net, 5)], []]
  }

  lemma OutIsFlat(net: Net)
    requires IsNet(net)
    ensures IsFlat(4, Edges(net), Out(net)) && ValidOut(Out(net))
  {
    hide IsNet, Along, EdgeAlong, OutOf;
    forall v: nat | v < 4
      ensures FlatAt(Edges(net), Out(net), v)
    {
      FlatStart(net, v);
      FlatStep(net, v, 0);
      FlatStep(net, v, 1);
      FlatStep(net, v, 2);
      FlatStep(net, v, 3);
      FlatStep(net, v, 4);
      FlatStep(net, v, 5);
      assert Edges(net)[..6] == Edges(net);
    }
  }

  lemma FlatStart(net: Net, v: nat)
    requires IsNet(net)
    ensures OutOf(Edges(net)[..0], v) == []
  {
  }

  lemma FlatStep(net: Net, v: nat, k: nat)
    requires IsNet(net) && k < 6
    ensures
      OutOf(Edges(net)[..k + 1], v) ==
        if Source(k) == v then OutOf(Edges(net)[..k], v) + [Along(net, k)] else OutOf(Edges(net)[..k], v)
  {
    assert Edges(net)[..k + 1][..k] == Edges(net)[..k];
  }

  ghost function TheProblem(net: Net, isExec: seq<bool>): Problem
    requires IsNet(net)
  {
    ProblemOf(net, isExec, Vertices(net), Out(net), TheTask(), BestResponse)
  }

  lemma FlightIs(v: nat)
    requires v < 4
    ensures InFlight(TheTask(), TokenAt(v)) <==> v < 3
  {
    if v < 3 {
      assert v in TheTask().chainPlaces && HasTokens(TokenAt(v), v);
    }
  }

  lemma CompletesIs(net: Net, t: nat)
    requires IsNet(net) && t < 6
    ensures EdgeCompletes(Vertices(net), TheTask(), Source(t), Along(net, t)) <==> Target(t) == 3
  {
    hide IsNet;
    assert Source(t) < 4 && Target(t) < 4;
  }

  lemma WeightIs(net: Net, isExec: seq<bool>, t: nat)
    requires IsNet(net) && t < 6
    ensures
      EdgeWeight(net, isExec, Vertices(net), TheTask(), BestResponse, Source(t), Along(net, t)) == Fin(Low(t))
  {
    hide IsNet;
  }

  /** What the search reads off the vertices. */
  lemma ProblemIs(net: Net, isExec: seq<bool>)
    requires IsNet(net)
    ensures
      var p := TheProblem(net, isExec);
      && ValidProblem(p) && p.out == Out(net)
      && (forall t: nat {:trigger Along(net, t)} :: t < 6 ==>
            && p.weight(Source(t), Along(net, t)) == Fin(Low(t))
            && (p.completes(Source(t), Along(net, t)) <==> Target(t) == 3))
      && (forall v: nat :: v < 4 ==> (p.inFlight(v) <==> v < 3))
  {
    hide IsNet, EdgeWeight, EdgeCompletes, InFlight, Along;
    OutIsFlat(net);
    var p := TheProblem(net, isExec);
    forall t: nat {:trigger Along(net, t)} | t < 6
      ensures p.weight(Source(t), Along(net, t)) == Fin(Low(t))
      ensures p.completes(Source(t), Along(net, t)) <==> Target(t) == 3
    {
      WeightIs(net, isExec, t);
      CompletesIs(net, t);
    }
    forall v: nat | v < 4
      ensures p.inFlight(v) <==> v < 3
    {
      FlightIs(v);
    }
  }

  /** A problem with these edges, in this order. */
  ghost predicate Looks(p: Problem, a: seq<Edge>) {
    && ValidProblem(p) && |a| == 6 && p.out == [[a[0], a[1]], [a[2], a[3]], [a[4], a[5]], []]
    && (forall t: nat :: t < 6 ==> LooksAt(p, a, t))
    && (forall v: nat :: v < 4 ==> (p.inFlight(v) <==> v < 3))
  }

  ghost predicate LooksAt(p: Problem, a: seq<Edge>, t: nat)
    requires t < 6 == |a|
  {
    && a[t].target == Target(t) && p.weight(Source(t), a[t]) == Fin(Low(t))
    && (p.completes(Source(t), a[t]) <==> Target(t) == 3)
  }

  const FIVE: DPResult := DPResult(true, false, 5)
  const TEN: DPResult := DPResult(true, false, 10)

  /** At vertex 2, with 1 under construction: the edge back is skipped. */
  lemma SearchInner(p: Problem, a: seq<Edge>)
    requires Looks(p, a)
    ensures
      var s := Memory([Gray, Gray, White, White], [NONE, NONE, NONE, NONE], {});
      Search(p, false, s, 2) == (TEN, Memory([Gray, Gray, Black, White], [NONE, NONE, TEN, NONE], {(2, a[4])}))
  {
    var s := Memory([Gray, Gray, Gray, White], [NONE, NONE, NONE, NONE], {});
    var t := s.(skipped := {(2, a[4])});
    assert LooksAt(p, a, 4) && LooksAt(p, a, 5);
    assert Search(p, false, s, 1) == (NONE, s);
    assert SearchEdges(p, false, t, 2, 2, TEN) == (TEN, t);
    assert SearchEdges(p, false, t, 2, 1, NONE) == (TEN, t);
    assert s.skipped + {(2, a[4])} == t.skipped;
    assert SearchEdge(p, false, s, 2, 0, NONE) == (NONE, t);
    assert SearchEdges(p, false, s, 2, 0, NONE) == (TEN, t);
    assert [Gray, Gray, White, White][2 := Gray] == s.color;
    assert t.color[2 := Black] == [Gray, Gray, Black, White] && t.memo[2 := TEN] == [NONE, NONE, TEN, NONE];
  }

  lemma SearchOuter(p: Problem, a: seq<Edge>)
    requires Looks(p, a)
    ensures
      var s := Memory([Gray, White, White, White], [NONE, NONE, NONE, NONE], {});
      Search(p, false, s, 1) == (FIVE, Memory([Gray, Black, Black, White], [NONE, FIVE, TEN, NONE], {(2, a[4])}))
  {
    var s := Memory([Gray, Gray, White, White], [NONE, NONE, NONE, NONE], {});
    var t := Memory([Gray, Gray, Black, White], [NONE, NONE, TEN, NONE], {(2, a[4])});
    SearchInner(p, a);
    assert LooksAt(p, a, 2) && LooksAt(p, a, 3);
    assert SearchEdges(p, false, t, 1, 2, FIVE) == (FIVE, t);
    assert SearchEdges(p, false, t, 1, 1, TEN) == (FIVE, t);
    assert SearchEdges(p, false, s, 1, 0, NONE) == (FIVE, t);
    assert [Gray, White, White, White][1 := Gray] == s.color;
    assert t.color[1 := Black] == [Gray, Black, Black, White] && t.memo[1 := FIVE] == [NONE, FIVE, TEN, NONE];
  }

  lemma SearchFinds(p: Problem, a: seq<Edge>)
    requires Looks(p, a)
    ensures SearchAll(p, false, [0]).0 == TEN && HasPath(p, 0, Fin(5))
  {
    var s := Memory([Gray, White, White, White], [NONE, NONE, NONE, NONE], {});
    var t := Memory([Gray, Black, Black, White], [NONE, FIVE, TEN, NONE], {(2, a[4])});
    SearchOuter(p, a);
    assert LooksAt(p, a, 0) && LooksAt(p, a, 1);
    assert Search(p, false, t, 2) == (TEN, t);
    assert SearchEdges(p, false, t, 0, 2, TEN) == (TEN, t);
    assert SearchEdges(p, false, t, 0, 1, DPResult(true, false, 105)) == (TEN, t);
    assert SearchEdges(p, false, s, 0, 0, NONE) == (TEN, t);
    var none := Memory(seq(4, _ => White), seq(4, _ => NONE), {});
    assert none.color[0 := Gray] == s.color && none.memo == s.memo;
    assert Search(p, false, none, 0).0 == TEN;
    assert [0][..0] == [] && SearchAll(p, false, []) == (NONE, none);
    ShortWay(p, a);
  }

  lemma ShortWay(p: Problem, a: seq<Edge>)
    requires Looks(p, a)
    ensures HasPath(p, 0, Fin(5))
  {
    assert LooksAt(p, a, 1) && LooksAt(p, a, 3) && LooksAt(p, a, 4);
    var last, loop := Last(a[3]), Then(a[4], Last(a[3]));
    assert p.weight(0, a[1]) == Fin(0) && p.weight(2, a[4]) == Fin(0) && p.weight(1, a[3]) == Fin(5);
    assert a[1].target == 2 && a[4].target == 1;
    assert Length(p, 1, last) == Fin(5) && IsCompleting(p, 1, last);
    assert Length(p, 2, loop) == Fin(5) && IsCompleting(p, 2, loop);
    assert Length(p, 0, Then(a[1], loop)) == Fin(5) && IsCompleting(p, 0, Then(a[1], loop));
  }

  /** The shortest result of the search can be too large on a cycle: on this net it
      is 10, because vertex 2 was settled while 1 was under construction, but the way
      over 2 and 1 takes 5. */
  lemma MissesDetour(net: Net, isExec: seq<bool>)
    requires IsNet(net)
    ensures Complete(TheSetting(net), Vertices(net), Edges(net), [0, 1, 3])
    ensures AreReleases(Vertices(net), Edges(net), TheTask(), [0])
    ensures ValidStarts(TheProblem(net, isExec), [0])
    ensures SearchAll(TheProblem(net, isExec), false, [0]).0 == DPResult(true, false, 10)
    ensures HasPath(TheProblem(net, isExec), 0, Fin(5)) && !Avoids(TheProblem(net, isExec), [0])
  {
    hide IsNet, SearchAll, HasPath, Avoids, AreReleases, TheProblem, Complete, Looks;
    DetourComplete(net);
    OnlyStart(net);
    LooksStart(net, isExec);
    ProblemLooks(net, isExec);
    SearchFinds(TheProblem(net, isExec), Alongs(net));
    DetourNonNegative(net, isExec);
    MissedMeans(TheProblem(net, isExec));
  }

  lemma DetourNonNegative(net: Net, isExec: seq<bool>)
    requires IsNet(net)
    ensures NonNegative(TheProblem(net, isExec))
  {
    hide IsNet, GraphInv, AllExpanded, IsFlat, NonNegative, ProblemOf;
    DetourComplete(net);
    OutIsFlat(net);
    DwellsNonNegative(TheSetting(net), Vertices(net), Edges(net), [0, 1, 3], Out(net), isExec, TheTask());
  }

  ghost function Alongs(net: Net): (a: seq<Edge>)
    requires IsNet(net)
    ensures |a| == 6 && forall t: nat :: t < 6 ==> a[t] == Along(net, t)
  {
    seq(6, t requires 0 <= t < 6 => Along(net, t))
  }

  lemma ProblemLooks(net: Net, isExec: seq<bool>)
    requires IsNet(net)
    ensures Looks(TheProblem(net, isExec), Alongs(net))
  {
    hide IsNet, TheProblem, LooksAt, ValidProblem, Along;
    var p, a := TheProblem(net, isExec), Alongs(net);
    ProblemIs(net, isExec);
    assert p.out == [[a[0], a[1]], [a[2], a[3]], [a[4], a[5]], []];
    AllLook(net, p, a);
  }

  lemma LooksStart(net: Net, isExec: seq<bool>)
    requires IsNet(net)
    ensures ValidStarts(TheProblem(net, isExec), [0])
  {
    hide IsNet, IsFlat, Along, ValidOut;
    OutIsFlat(net);
    assert TheProblem(net, isExec).out == Out(net);
  }

  lemma AllLook(net: Net, p: Problem, a: seq<Edge>)
    requires IsNet(net) && a == Alongs(net)
    requires forall t: nat {:trigger Along(net, t)} :: t < 6 ==>
      p.weight(Source(t), Along(net, t)) == Fin(Low(t)) && (p.completes(Source(t), Along(net, t)) <==> Target(t) == 3)
    ensures forall t: nat :: t < 6 ==> LooksAt(p, a, t)
  {
    hide IsNet;
    forall t: nat | t < 6
      ensures LooksAt(p, a, t)
    {
      assert a[t] == Along(net, t);
    }
  }

  lemma MissedMeans(p: Problem)
    requires ValidStarts(p, [0]) && NonNegative(p) && SearchAll(p, false, [0]).0 == TEN && HasPath(p, 0, Fin(5))
    ensures !Avoids(p, [0])
  {
    hide SearchAll;
    if Avoids(p, [0]) {
      AvoidsMinimum(p, [0]);
      BelowStart(p, [0], 0, TEN);
    }
  }

  lemma OnlyStart(net: Net)
    requires IsNet(net)
    ensures AreReleases(Vertices(net), Edges(net), TheTask(), [0])
  {
    hide IsNet;
    forall k | 0 <= k < 6
      ensures !Releases(Vertices(net), Edges(net)[k], TheTask())
    {
      assert Edges(net)[k] == EdgeAlong(net, k);
    }
  }

  lemma FlatIsOut(net: Net, out: seq<seq<Edge>>)
    requires IsNet(net) && IsFlat(4, Edges(net), out)
    ensures out == Out(net)
  {
    hide IsNet, Along;
    OutIsFlat(net);
    forall v: nat | v < 4
      ensures out[v] == Out(net)[v]
    {
      assert FlatAt(Edges(net), out, v) && FlatAt(Edges(net), Out(net), v);
    }
  }

  /** The analyser reports it, given that exploration. */
  method ReportsTen(net: Net, vertices: seq<StateClass>, edges: seq<GraphEdge>) returns (r: DPResult)
    requires IsNet(net) && vertices == Vertices(net) && edges == Edges(net)
    ensures r == DPResult(true, false, 10)
  {
    hide IsNet, Complete, AreReleases, SearchAll, Avoids, IsFlat, HasPath;
    DetourComplete(net);
    NetIs(net, 0);
    TaskFits(net);
    var analyser := new MetricsAnalyzer(net, vertices, edges, [TheTask()], TheSetting(net), [0, 1, 3]);
    FlatIsOut(net, analyser.out);
    MissesDetour(net, analyser.isExec);
    r := analyser.RunMeasure(TheTask(), BestResponse, [0]);
  }

  lemma TaskFits(net: Net)
    requires IsNet(net)
    ensures ValidTask(net, TheTask())
  {
    assert FactsAt(net, 0, 0);
  }

  /** A run of the net completes the task after 5. */
  lemma DetourTaken(net: Net, isExec: seq<bool>)
    requires IsNet(net)
    ensures ValidNet(net) && 5 in Totals(net, isExec, TheTask(), Response)
  {
    hide IsNet, IsInitialRun, ReleasedAt, IsActivation, TotalCost, ValidNet, Totals;
    NetIs(net, 0);
    var configs := [Fresh(net, 0), Fresh(net, 2), Fresh(net, 1), Fresh(net, 3)];
    var steps := [Step(0, 1), Step(0, 4), Step(5, 3)];
    IsItsRun(net, configs, steps);
    IsTaken(net, isExec, configs, steps);
    IsTotal(net, isExec, 5, configs, steps, 0, 3);
  }

  lemma IsTotal(net: Net, isExec: seq<bool>, total: int, configs: seq<Config>, steps: seq<Step>, a: nat, b: nat)
    requires ValidNet(net) && TakesIn(net, isExec, TheTask(), Response, total, configs, steps, a, b)
    ensures total in Totals(net, isExec, TheTask(), Response)
  {
    hide TakesIn;
    assert Takes(net, isExec, TheTask(), Response, total);
  }

  lemma IsItsRun(net: Net, configs: seq<Config>, steps: seq<Step>)
    requires IsNet(net) && configs == [Fresh(net, 0), Fresh(net, 2), Fresh(net, 1), Fresh(net, 3)]
    requires steps == [Step(0, 1), Step(0, 4), Step(5, 3)]
    ensures IsInitialRun(net, configs, steps)
  {
    hide IsNet, Steps, Fresh;
    Starts(net);
    Goes(net, 1, 0);
    Goes(net, 4, 0);
    Goes(net, 3, 5);
  }

  lemma Starts(net: Net)
    requires IsNet(net)
    ensures Fresh(net, 0) == InitialConfig(net)
  {
    assert FactsAt(net, 0, 0);
    IsFresh(net, 0, InitialConfig(net));
  }

  lemma IsTaken(net: Net, isExec: seq<bool>, configs: seq<Config>, steps: seq<Step>)
    requires IsNet(net) && configs == [Fresh(net, 0), Fresh(net, 2), Fresh(net, 1), Fresh(net, 3)]
    requires steps == [Step(0, 1), Step(0, 4), Step(5, 3)]
    ensures ReleasedAt(TheTask(), configs, 0) && IsActivation(TheTask(), configs, 0, 3)
    ensures TotalCost(net, isExec, TheTask(), Response, configs, steps, 0, 3) == 5
  {
    hide IsNet;
    FlightIs(1);
    FlightIs(2);
    assert TotalCost(net, isExec, TheTask(), Response, configs, steps, 3, 3) == 0;
    assert TotalCost(net, isExec, TheTask(), Response, configs, steps, 2, 3) == 5;
    assert TotalCost(net, isExec, TheTask(), Response, configs, steps, 1, 3) == 5;
  }
}
