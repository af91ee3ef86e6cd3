/** The net that a task graph is lowered to, by its arcs: what each transition takes
    from and gives to, how long it takes, and which places are marked. */
module Fragments {
  import opened Blueprint
  import opened Bounds
  import opened Built
  import opened Conservation
  import opened PetriNet
  import opened TaskGraph
  import MutualExclusion
  import L = Lowering

  /** The finished net of a graph. */
  ghost predicate IsNetOf(l: L.Lowering)
    reads l, l.net
  {
    l.Lowered() && l.AsDrawn()
  }

  /** The places that transition t takes from and gives to. */
  ghost predicate Moves(l: L.Lowering, t: nat, ins: set<nat>, outs: set<nat>)
    requires l.Lowered()
    reads l, l.net
  {
    var s := l.net.Contents();
    t < |s.transitions| && In(s, t) == ins && Out(s, t) == outs
  }

  ghost predicate Timed(l: L.Lowering, t: nat, interval: Interval, priority: int, core: int)
    reads l, l.net
  {
    && t < |l.net.transitions| && l.net.transitions[t].interval == interval
    && l.net.transitions[t].priority == priority && l.net.transitions[t].core == core
  }

  function Exactly(period: int): Interval {
    Interval(period, Fin(period), false, false)
  }

  function AtOnce(): Interval {
    Exactly(0)
  }

  /** The place where a node is entered: the first of a task's chain, or the place
      of an empty node. */
  ghost function EntryOf(l: L.Lowering, n: nat): nat
    requires n < |l.tdg.nodes| && n < |l.chains|
    reads l
  {
    if IsTask(l.tdg, n) && l.chains[n] != [] then l.chains[n][0] else FirstPlace(l.tdg, n)
  }

  /** The place where it is left. */
  ghost function ExitOf(l: L.Lowering, n: nat): nat
    requires n < |l.tdg.nodes| && n < |l.chains|
    reads l
  {
    if IsTask(l.tdg, n) && l.chains[n] != [] then l.chains[n][|l.chains[n]| - 1] else FirstPlace(l.tdg, n)
  }

  // ------------------------------------------------------------------- the stages

  lemma NetStages(l: L.Lowering) returns (x: Stages)
    requires IsNetOf(l)
    ensures ValidTdg(l.tdg) && StagesBuilt(l.tdg, x) && Resourced(l.tdg, x.restarted, l.Sketched())
    ensures l.chains == x.nodes.chains && l.ends == x.nodes.ends && |l.chains| == |l.tdg.nodes|
    ensures ChainsAre(l.tdg, l.chains) && EndsAre(l.tdg, l.ends)
  {
    x := DrawnStages(l.tdg);
    NodeFacts(l.tdg, x.nodes);
  }

  lemma EndsOf(l: L.Lowering, n: nat)
    requires IsNetOf(l) && n < |l.tdg.nodes|
    ensures |l.chains| == |l.tdg.nodes|
    ensures EntryOf(l, n) == Entry(l.tdg, n) && ExitOf(l, n) == Exit(l.tdg, n)
  {
    var x := NetStages(l);
    hide StagesBuilt, Resourced, IsNetOf;
    if IsTask(l.tdg, n) {
      ChainEnds(l.tdg, l.chains, n);
    }
  }

  lemma ChainEnds(tdg: Tdg, chains: seq<seq<nat>>, n: nat)
    requires ChainsAre(tdg, chains) && IsTask(tdg, n)
    ensures chains[n] != [] && chains[n][0] == Entry(tdg, n) && chains[n][|chains[n]| - 1] == Exit(tdg, n)
  {
    assert ChainIs(tdg, chains, n);
    var last := |chains[n]| - 1;
    assert At(chains[n], 0) == chains[n][0] && At(chains[n], last) == chains[n][last];
  }

  lemma ChainStep(tdg: Tdg, chains: seq<seq<nat>>, n: nat, i: nat)
    requires ChainsAre(tdg, chains) && IsTask(tdg, n) && i < |chains[n]| && i % 2 == 1
    ensures |chains[n]| == 6 * |tdg.nodes[n].task.locks| + 5 && 0 < i < |chains[n]| - 1
    ensures chains[n][i] == FirstStep(tdg, n) + i / 2
    ensures chains[n][i - 1] == FirstPlace(tdg, n) + i / 2 && chains[n][i + 1] == FirstPlace(tdg, n) + i / 2 + 1
  {
    assert ChainIs(tdg, chains, n);
    assert At(chains[n], i) == chains[n][i] && At(chains[n], i - 1) == chains[n][i - 1];
    assert At(chains[n], i + 1) == chains[n][i + 1];
  }

  /** A transition of the net before the resources, with the resources it binds. */
  lemma InTheNet(l: L.Lowering, x: Stages, t: nat, ins: set<nat>, outs: set<nat>, interval: Interval, priority: int,
                 core: int)
    requires IsNetOf(l) && ValidTdg(l.tdg) && Resourced(l.tdg, x.restarted, l.Sketched())
    requires Even(x.restarted) && Does(x.restarted, t, ins, outs, interval, priority, core)
    ensures Moves(l, t, ins + TakenAt(l.tdg, t), outs + GivenAt(l.tdg, t)) && Timed(l, t, interval, priority, core)
  {
    assert ResourcedAt(l.tdg, x.restarted, l.Sketched(), t);
  }

  /** What holds after the edges holds after the restarts. */
  lemma DoesLater(tdg: Tdg, x: Stages, t: nat, ins: set<nat>, outs: set<nat>, interval: Interval, priority: int,
                  core: int)
    requires ValidTdg(tdg) && StagesBuilt(tdg, x)
    requires t < |x.edges.transitions| && Does(x.edges, t, ins, outs, interval, priority, core)
    ensures Even(x.restarted) && Does(x.restarted, t, ins, outs, interval, priority, core)
  {
    hide NodesBuilt, EdgesBuilt, CoresRestart, FilledAt, ReleaseAt, ConsumerLast, SomeRestart;
    assert SameAt(x.edges, x.bound, t) && SameAt(x.bound, x.restarted, t);
  }

  lemma BoundLater(tdg: Tdg, x: Stages, t: nat, ins: set<nat>, outs: set<nat>, interval: Interval, priority: int,
                   core: int)
    requires ValidTdg(tdg) && StagesBuilt(tdg, x)
    requires t < |x.bound.transitions| && Does(x.bound, t, ins, outs, interval, priority, core)
    ensures Even(x.restarted) && Does(x.restarted, t, ins, outs, interval, priority, core)
  {
    hide NodesBuilt, EdgesBuilt, CoresRestart, FilledAt, ReleaseAt, ConsumerLast, SomeRestart;
    assert SameAt(x.bound, x.restarted, t);
  }

  // ----------------------------------------------------- which transitions bind resources

  /** t is not a step of a task. */
  ghost predicate NoStep(tdg: Tdg, t: nat) {
    forall n: nat :: IsTask(tdg, n) ==> t < FirstStep(tdg, n) || t >= FirstStep(tdg, n) + StepsOf(tdg.nodes[n])
  }

  lemma NothingBound(tdg: Tdg, t: nat)
    requires NoStep(tdg, t)
    ensures TakenAt(tdg, t) == {} && GivenAt(tdg, t) == {}
  {
    var cpus, locks, n := FirstResource(tdg), FirstLock(tdg), |tdg.nodes|;
    assert CpusTaken(tdg, cpus, n, t) == {} && CpusGiven(tdg, cpus, n, t) == {};
    assert LocksTaken(tdg, locks, n, t) == {} && LocksGiven(tdg, locks, n, t) == {};
  }

  lemma StepsApart(tdg: Tdg, n: nat, m: nat)
    requires n < |tdg.nodes| && m < |tdg.nodes| && n != m
    ensures FirstStep(tdg, n) + StepsOf(tdg.nodes[n]) <= FirstStep(tdg, m)
         || FirstStep(tdg, m) + StepsOf(tdg.nodes[m]) <= FirstStep(tdg, n)
  {
    if n < m {
      NodeBelow(tdg, n, m);
    } else {
      NodeBelow(tdg, m, n);
    }
  }

  lemma ControlIsNoStep(tdg: Tdg, n: nat)
    requires n < |tdg.nodes| && tdg.nodes[n].ControlNode?
    ensures NoStep(tdg, FirstStep(tdg, n))
  {
    forall m: nat | IsTask(tdg, m)
      ensures
        var t := FirstStep(tdg, n);
        t < FirstStep(tdg, m) || t >= FirstStep(tdg, m) + StepsOf(tdg.nodes[m])
    {
      StepsApart(tdg, n, m);
    }
  }

  lemma LateIsNoStep(tdg: Tdg, t: nat)
    requires t >= FirstStep(tdg, |tdg.nodes|)
    ensures NoStep(tdg, t)
  {
    forall m: nat | IsTask(tdg, m)
      ensures t >= FirstStep(tdg, m) + StepsOf(tdg.nodes[m])
    {
      NodeBelow(tdg, m, |tdg.nodes|);
    }
  }

  /** A transition that is no step of a task binds nothing. */
  lemma PlainInTheNet(l: L.Lowering, x: Stages, t: nat, ins: set<nat>, outs: set<nat>, interval: Interval,
                      priority: int, core: int)
    requires IsNetOf(l) && ValidTdg(l.tdg) && Resourced(l.tdg, x.restarted, l.Sketched()) && NoStep(l.tdg, t)
    requires Even(x.restarted) && Does(x.restarted, t, ins, outs, interval, priority, core)
    ensures Moves(l, t, ins, outs) && Timed(l, t, interval, priority, core)
  {
    hide NoStep, Does, Resourced, Timed;
    NothingBound(l.tdg, t);
    InTheNet(l, x, t, ins, outs, interval, priority, core);
    assert ins + {} == ins && outs + {} == outs;
  }

  // ------------------------------------------------------------------------- edges

  /** The deadline places whose monitor takes t for its "ok" place: two below t, if
      that is the first place of a monitor. */
  lemma MisreadMeans(tdg: Tdg, t: nat, p: nat)
    ensures p in Misread(tdg, |tdg.edges|, t) <==>
      p + 2 == t && exists j: nat :: j < |tdg.edges| && IsLoop(tdg.edges[j]) && EdgePlace(tdg, j) == p
  {
  }

  /** Without self-loops nothing is misread. */
  lemma NothingMisreadAt(tdg: Tdg, t: nat)
    requires forall j: nat :: j < |tdg.edges| ==> !IsLoop(tdg.edges[j])
    ensures Misread(tdg, |tdg.edges|, t) == {}
  {
  }

  /** A transition that edges make. */
  lemma ControlInTheNet(l: L.Lowering, x: Stages, t: nat, ins: set<nat>, outs: set<nat>, interval: Interval)
    requires IsNetOf(l) && ValidTdg(l.tdg) && StagesBuilt(l.tdg, x) && Resourced(l.tdg, x.restarted, l.Sketched())
    requires t >= FirstStep(l.tdg, |l.tdg.nodes|) && Controls(l.tdg, x.edges, |l.tdg.edges|, t, ins, outs, interval)
    ensures Moves(l, t, ins + Misread(l.tdg, |l.tdg.edges|, t), outs) && Timed(l, t, interval, 0, -1)
  {
    hide StagesBuilt, Resourced, IsNetOf;
    LateIsNoStep(l.tdg, t);
    DoesLater(l.tdg, x, t, ins + Misread(l.tdg, |l.tdg.edges|, t), outs, interval, 0, -1);
    PlainInTheNet(l, x, t, ins + Misread(l.tdg, |l.tdg.edges|, t), outs, interval, 0, -1);
  }

  lemma EdgesOf(l: L.Lowering, x: Stages, k: nat)
    requires ValidTdg(l.tdg) && StagesBuilt(l.tdg, x) && k < |l.tdg.edges|
    ensures ValidLink(l.tdg, l.tdg.edges[k]) && EdgeStep(l.tdg, k) >= FirstStep(l.tdg, |l.tdg.nodes|)
    ensures IsLoop(l.tdg.edges[k]) ==> MonitorAt(l.tdg, x.edges, |l.tdg.edges|, k)
    ensures IsBridge(l.tdg, l.tdg.edges[k]) ==> BridgeAt(l.tdg, x.edges, |l.tdg.edges|, k)
    ensures forall t: nat :: OldAt(l.tdg, x.nodes.sketch, x.edges, |l.tdg.edges|, t)
  {
    EdgeStepsGrow(l.tdg, 0, k);
    assert EdgeAt(l.tdg, x.edges, |l.tdg.edges|, k);
  }

  /** An edge between two places has a transition of its own: it takes as long as the
      edge says, from the last place of the source to the first of the target. */
  lemma BridgeIs(l: L.Lowering, k: nat)
    requires IsNetOf(l) && k < |l.tdg.edges| && ValidTdg(l.tdg)
    requires ValidLink(l.tdg, l.tdg.edges[k]) && IsBridge(l.tdg, l.tdg.edges[k])
    ensures |l.chains| == |l.tdg.nodes|
    ensures
      var e, t := l.tdg.edges[k], EdgeStep(l.tdg, k);
      && Moves(l, t, {ExitOf(l, e.source)} + Misread(l.tdg, |l.tdg.edges|, t), {EntryOf(l, e.target)})
      && Timed(l, t, e.interval, 0, -1)
  {
    var e, t := l.tdg.edges[k], EdgeStep(l.tdg, k);
    var x := NetStages(l);
    EdgesOf(l, x, k);
    EndsOf(l, e.source);
    EndsOf(l, e.target);
    hide StagesBuilt, Resourced, IsNetOf;
    ControlInTheNet(l, x, t, {Exit(l.tdg, e.source)}, {Entry(l.tdg, e.target)}, e.interval);
  }

  /** The places that edges connect to fork or join n. */
  ghost function IntoJoin(l: L.Lowering, n: nat): set<nat>
    requires ValidTdg(l.tdg) && |l.chains| == |l.tdg.nodes|
    reads l
  {
    set k: nat | k < |l.tdg.edges| && ValidLink(l.tdg, l.tdg.edges[k]) && IsJoining(l.tdg, l.tdg.edges[k])
      && l.tdg.edges[k].target == n :: ExitOf(l, l.tdg.edges[k].source)
  }

  ghost function OutOfFork(l: L.Lowering, n: nat): set<nat>
    requires ValidTdg(l.tdg) && |l.chains| == |l.tdg.nodes|
    reads l
  {
    set k: nat | k < |l.tdg.edges| && ValidLink(l.tdg, l.tdg.edges[k]) && IsForking(l.tdg, l.tdg.edges[k])
      && l.tdg.edges[k].source == n :: EntryOf(l, l.tdg.edges[k].target)
  }

  lemma JoinedAt(l: L.Lowering, n: nat)
    requires IsNetOf(l) && ValidTdg(l.tdg) && n < |l.tdg.nodes| && l.tdg.nodes[n].ControlNode?
    ensures |l.chains| == |l.tdg.nodes|
    ensures Joined(l.tdg, |l.tdg.edges|, FirstStep(l.tdg, n)) == IntoJoin(l, n)
    ensures Forked(l.tdg, |l.tdg.edges|, FirstStep(l.tdg, n)) == OutOfFork(l, n)
  {
    EndsOf(l, n);
    forall k: nat | k < |l.tdg.edges|
      ensures ValidLink(l.tdg, l.tdg.edges[k])
      ensures ExitOf(l, l.tdg.edges[k].source) == Exit(l.tdg, l.tdg.edges[k].source)
      ensures EntryOf(l, l.tdg.edges[k].target) == Entry(l.tdg, l.tdg.edges[k].target)
      ensures IsJoining(l.tdg, l.tdg.edges[k]) ==>
        (FirstStep(l.tdg, l.tdg.edges[k].target) == FirstStep(l.tdg, n) <==> l.tdg.edges[k].target == n)
      ensures IsForking(l.tdg, l.tdg.edges[k]) ==>
        (FirstStep(l.tdg, l.tdg.edges[k].source) == FirstStep(l.tdg, n) <==> l.tdg.edges[k].source == n)
    {
      var e := l.tdg.edges[k];
      EndsOf(l, e.source);
      EndsOf(l, e.target);
      if e.source != n {
        StepsApart(l.tdg, e.source, n);
      }
      if e.target != n {
        StepsApart(l.tdg, e.target, n);
      }
    }
    hide IsNetOf, ExitOf, EntryOf;
    assert Joined(l.tdg, |l.tdg.edges|, FirstStep(l.tdg, n)) == IntoJoin(l, n);
    assert Forked(l.tdg, |l.tdg.edges|, FirstStep(l.tdg, n)) == OutOfFork(l, n);
  }

  /** A fork or join is one transition: it takes from the last places of the nodes
      with an edge to it, and gives to the first of those it has an edge to. */
  lemma ControlIs(l: L.Lowering, n: nat)
    requires IsNetOf(l) && ValidTdg(l.tdg) && n < |l.tdg.nodes| && l.tdg.nodes[n].ControlNode?
    ensures |l.chains| == |l.tdg.nodes|
    ensures
      var t, node := FirstStep(l.tdg, n), l.tdg.nodes[n];
      && Moves(l, t, IntoJoin(l, n) + Misread(l.tdg, |l.tdg.edges|, t), OutOfFork(l, n))
      && Timed(l, t, node.interval, node.priority, node.core)
  {
    hide StagesBuilt, Resourced, ChainsAre, EndsAre, Does, IntoJoin, OutOfFork, Misread, Moves, Timed;
    var t, node := FirstStep(l.tdg, n), l.tdg.nodes[n];
    var x := NetStages(l);
    JoinedAt(l, n);
    ControlIsNoStep(l.tdg, n);
    ControlBuilt(l.tdg, x, n);
    var ins := IntoJoin(l, n) + Misread(l.tdg, |l.tdg.edges|, t);
    DoesLater(l.tdg, x, t, ins, OutOfFork(l, n), node.interval, node.priority, node.core);
    PlainInTheNet(l, x, t, ins, OutOfFork(l, n), node.interval, node.priority, node.core);
  }

  lemma ControlBuilt(tdg: Tdg, x: Stages, n: nat)
    requires ValidTdg(tdg) && StagesBuilt(tdg, x) && n < |tdg.nodes| && tdg.nodes[n].ControlNode?
    ensures
      var t, node, k := FirstStep(tdg, n), tdg.nodes[n], |tdg.edges|;
      && t < |x.edges.transitions|
      && Does(x.edges, t, Joined(tdg, k, t) + Misread(tdg, k, t), Forked(tdg, k, t), node.interval, node.priority,
              node.core)
  {
    var t := FirstStep(tdg, n);
    hide StagesBuilt, Joined, Forked, Misread;
    NodeThere(tdg, x, n, t);
  }

  /** The monitor of a self-loop: timed takes from the start of the node and puts into
      the deadline place after the period, ending takes from its end, complete then
      puts into ok, and out moves a token from deadline to timeout. */
  ghost predicate IsMonitor(l: L.Lowering, k: nat)
    requires l.Lowered() && ValidTdg(l.tdg) && k < |l.tdg.edges| && ValidLink(l.tdg, l.tdg.edges[k])
    reads l, l.net
  {
    var e, t, p := l.tdg.edges[k], EdgeStep(l.tdg, k), EdgePlace(l.tdg, k);
    var start, end := StartOf(l.tdg, e.source), EndOf(l.tdg, e.source);
    && MonitorStep(l, t, if start < p + 4 then {start} else {}, if start < p + 4 then {p} else {}, Exactly(e.period))
    && MonitorStep(l, t + 1, if end < p + 4 then {end} else {}, {p + 3}, AtOnce())
    && MonitorStep(l, t + 2, {p + 3}, {p + 2}, AtOnce())
    && MonitorStep(l, t + 3, {p}, {p + 1}, AtOnce())
  }

  lemma MonitorIs(l: L.Lowering, k: nat)
    requires IsNetOf(l) && ValidTdg(l.tdg) && k < |l.tdg.edges|
    requires ValidLink(l.tdg, l.tdg.edges[k]) && IsLoop(l.tdg.edges[k])
    ensures IsMonitor(l, k)
  {
    var x := NetStages(l);
    EdgesOf(l, x, k);
    MonitorParts(l, x, k);
  }

  lemma MonitorParts(l: L.Lowering, x: Stages, k: nat)
    requires IsNetOf(l) && ValidTdg(l.tdg) && StagesBuilt(l.tdg, x) && Resourced(l.tdg, x.restarted, l.Sketched())
    requires k < |l.tdg.edges| && ValidLink(l.tdg, l.tdg.edges[k]) && MonitorAt(l.tdg, x.edges, |l.tdg.edges|, k)
    ensures IsMonitor(l, k)
  {
    hide StagesBuilt, Resourced, Controls, MonitorStep, IsNetOf, L.Lowering.Lowered, ValidTdg, StartOf, EndOf;
    var e, t, p := l.tdg.edges[k], EdgeStep(l.tdg, k), EdgePlace(l.tdg, k);
    var start, end := StartOf(l.tdg, e.source), EndOf(l.tdg, e.source);
    EdgeStepsGrow(l.tdg, 0, k);
    var takes: set<nat>, gives: set<nat> := if start < p + 4 then {start} else {}, if start < p + 4 then {p} else {};
    var ends: set<nat> := if end < p + 4 then {end} else {};
    MonitorPart(l, x, t, takes, gives, Exactly(e.period));
    MonitorPart(l, x, t + 1, ends, {p + 3}, AtOnce());
    MonitorPart(l, x, t + 2, {p + 3}, {p + 2}, AtOnce());
    MonitorPart(l, x, t + 3, {p}, {p + 1}, AtOnce());
  }

  ghost predicate MonitorStep(l: L.Lowering, t: nat, ins: set<nat>, outs: set<nat>, interval: Interval)
    requires l.Lowered()
    reads l, l.net
  {
    Moves(l, t, ins + Misread(l.tdg, |l.tdg.edges|, t), outs) && Timed(l, t, interval, 0, -1)
  }

  lemma MonitorPart(l: L.Lowering, x: Stages, t: nat, ins: set<nat>, outs: set<nat>, interval: Interval)
    requires IsNetOf(l) && ValidTdg(l.tdg) && StagesBuilt(l.tdg, x) && Resourced(l.tdg, x.restarted, l.Sketched())
    requires t >= FirstStep(l.tdg, |l.tdg.nodes|) && Controls(l.tdg, x.edges, |l.tdg.edges|, t, ins, outs, interval)
    ensures MonitorStep(l, t, ins, outs, interval)
  {
    ControlInTheNet(l, x, t, ins, outs, interval);
  }

  // ----------------------------------------------------------------------- chains

  /** The resources that position i of task n takes: its processor at the first
      transition, lock j at position 5 + 4 j. */
  ghost function ResourcesTaken(l: L.Lowering, n: nat, i: nat): set<nat>
    requires IsTask(l.tdg, n)
    reads l
  {
    var task := l.tdg.nodes[n].task;
    (if i == 1 && 0 <= task.core < |l.cpusPlace| then {l.cpusPlace[task.core]} else {})
      + set j: nat | j < |task.locks| && task.locks[j].id < |l.locksPlace| && i == 5 + 4 * j ::
          l.locksPlace[task.locks[j].id]
  }

  /** The ones that it gives back: its processor at the last transition, lock j two
      positions before the last segment for each lock after it. */
  ghost function ResourcesGiven(l: L.Lowering, n: nat, i: nat): set<nat>
    requires IsTask(l.tdg, n) && n < |l.chains|
    reads l
  {
    var task, length := l.tdg.nodes[n].task, |l.chains[n]|;
    (if i + 2 == length && 0 <= task.core < |l.cpusPlace| then {l.cpusPlace[task.core]} else {})
      + set j: nat | j < |task.locks| && task.locks[j].id < |l.locksPlace| && i + 4 + 2 * j == length ::
          l.locksPlace[task.locks[j].id]
  }

  lemma PlacesOfResources(l: L.Lowering)
    requires IsNetOf(l)
    ensures |l.cpusPlace| == if l.tdg.policy.Resume? then 0 else l.tdg.numCpus
    ensures |l.locksPlace| == l.tdg.lockCount
    ensures forall c: nat :: c < |l.cpusPlace| ==> l.cpusPlace[c] == FirstResource(l.tdg) + c
    ensures forall k: nat :: k < |l.locksPlace| ==> l.locksPlace[k] == FirstLock(l.tdg) + k
  {
    var x := NetStages(l);
    assert |l.Sketched().places| == FirstLock(l.tdg) + l.tdg.lockCount;
    l.PlacesOwned();
  }

  lemma TaskBinds(l: L.Lowering, n: nat, i: nat)
    requires IsNetOf(l) && IsTask(l.tdg, n) && n < |l.chains| && i < |l.chains[n]| && i % 2 == 1
    ensures TakenAt(l.tdg, l.chains[n][i]) == ResourcesTaken(l, n, i)
    ensures GivenAt(l.tdg, l.chains[n][i]) == ResourcesGiven(l, n, i)
  {
    var x := NetStages(l);
    PlacesOfResources(l);
    ChainStep(l.tdg, l.chains, n, i);
    assert ValidTask(l.tdg, l.tdg.nodes[n].task);
    hide IsNetOf, StagesBuilt, Resourced, ChainsAre;
    CpusAt(l, n, i, i / 2);
    LocksAt(l, n, i, i / 2);
  }

  /** Steps of different tasks are different. */
  lemma OwnStep(tdg: Tdg, n: nat, i: nat, m: nat, j: nat)
    requires IsTask(tdg, n) && IsTask(tdg, m) && i < StepsOf(tdg.nodes[n]) && j < StepsOf(tdg.nodes[m])
    requires FirstStep(tdg, n) + i == FirstStep(tdg, m) + j
    ensures n == m && i == j
  {
    if n != m {
      StepsApart(tdg, n, m);
    }
  }

  /** The processor that one step takes. */
  lemma CpuTakenAt(tdg: Tdg, first: nat, n: nat, i: nat)
    requires IsTask(tdg, n) && i < StepsOf(tdg.nodes[n]) && 0 <= tdg.nodes[n].task.core
    ensures
      CpusTaken(tdg, first, |tdg.nodes|, FirstStep(tdg, n) + i) == Only(i == 0, first + tdg.nodes[n].task.core)
  {
    var t := FirstStep(tdg, n) + i;
    forall m: nat | IsTask(tdg, m)
      ensures FirstStep(tdg, m) == t <==> m == n && i == 0
    {
      if FirstStep(tdg, m) == t {
        OwnStep(tdg, n, i, m, 0);
      }
    }
    hide FirstStep, StepsOf;
  }

  /** The processor that one step gives back. */
  lemma CpuGivenAt(tdg: Tdg, first: nat, n: nat, i: nat)
    requires IsTask(tdg, n) && i < StepsOf(tdg.nodes[n]) && 0 <= tdg.nodes[n].task.core
    ensures
      var last := 3 * |tdg.nodes[n].task.locks| + 1;
      CpusGiven(tdg, first, |tdg.nodes|, FirstStep(tdg, n) + i) == Only(i == last, first + tdg.nodes[n].task.core)
  {
    var t, last := FirstStep(tdg, n) + i, 3 * |tdg.nodes[n].task.locks| + 1;
    forall m: nat | IsTask(tdg, m)
      ensures FirstStep(tdg, m) + 3 * |tdg.nodes[m].task.locks| + 1 == t <==> m == n && i == last
    {
      if FirstStep(tdg, m) + 3 * |tdg.nodes[m].task.locks| + 1 == t {
        OwnStep(tdg, n, i, m, 3 * |tdg.nodes[m].task.locks| + 1);
      }
    }
    hide FirstStep, StepsOf;
  }

  /** Position i of the chain is its step half. */
  lemma CpusAt(l: L.Lowering, n: nat, i: nat, half: nat)
    requires IsTask(l.tdg, n) && n < |l.chains| && i < |l.chains[n]| && i == 2 * half + 1
    requires |l.chains[n]| == 6 * |l.tdg.nodes[n].task.locks| + 5 && l.chains[n][i] == FirstStep(l.tdg, n) + half
    requires |l.cpusPlace| == if l.tdg.policy.Resume? then 0 else l.tdg.numCpus
    requires !l.tdg.policy.Resume? ==> 0 <= l.tdg.nodes[n].task.core < l.tdg.numCpus
    requires forall c: nat :: c < |l.cpusPlace| ==> l.cpusPlace[c] == FirstResource(l.tdg) + c
    ensures
      var task, t := l.tdg.nodes[n].task, l.chains[n][i];
      && (if l.tdg.policy.Resume? then {} else CpusTaken(l.tdg, FirstResource(l.tdg), |l.tdg.nodes|, t))
           == (if i == 1 && 0 <= task.core < |l.cpusPlace| then {l.cpusPlace[task.core]} else {})
      && (if l.tdg.policy.Resume? then {} else CpusGiven(l.tdg, FirstResource(l.tdg), |l.tdg.nodes|, t))
           == (if i + 2 == |l.chains[n]| && 0 <= task.core < |l.cpusPlace| then {l.cpusPlace[task.core]} else {})
  {
    hide CpusTaken, CpusGiven, FirstResource, FirstStep;
    if !l.tdg.policy.Resume? {
      CpuTakenAt(l.tdg, FirstResource(l.tdg), n, half);
      CpuGivenAt(l.tdg, FirstResource(l.tdg), n, half);
      assert l.cpusPlace[l.tdg.nodes[n].task.core] == FirstResource(l.tdg) + l.tdg.nodes[n].task.core;
    }
  }

  /** The locks bound to one step. */
  lemma LocksBoundTo(tdg: Tdg, first: nat, n: nat, i: nat)
    requires IsTask(tdg, n) && i < StepsOf(tdg.nodes[n])
    ensures
      var locks, step := tdg.nodes[n].task.locks, FirstStep(tdg, n);
      && LocksTaken(tdg, first, |tdg.nodes|, step + i) == TaskTaken(locks, first, step, |locks|, step + i)
      && LocksGiven(tdg, first, |tdg.nodes|, step + i) == TaskGiven(locks, first, step, |locks|, step + i)
  {
    var t := FirstStep(tdg, n) + i;
    forall m: nat | IsTask(tdg, m) && m != n
      ensures TaskTaken(tdg.nodes[m].task.locks, first, FirstStep(tdg, m), |tdg.nodes[m].task.locks|, t) == {}
      ensures TaskGiven(tdg.nodes[m].task.locks, first, FirstStep(tdg, m), |tdg.nodes[m].task.locks|, t) == {}
    {
      StepsApart(tdg, n, m);
    }
    hide TaskTaken, TaskGiven;
    var locks, step := tdg.nodes[n].task.locks, FirstStep(tdg, n);
    assert LocksTaken(tdg, first, |tdg.nodes|, t) == TaskTaken(locks, first, step, |locks|, t);
    assert LocksGiven(tdg, first, |tdg.nodes|, t) == TaskGiven(locks, first, step, |locks|, t);
  }

  lemma LocksAt(l: L.Lowering, n: nat, i: nat, half: nat)
    requires IsTask(l.tdg, n) && n < |l.chains| && i < |l.chains[n]| && i == 2 * half + 1
    requires |l.chains[n]| == 6 * |l.tdg.nodes[n].task.locks| + 5 && l.chains[n][i] == FirstStep(l.tdg, n) + half
    requires |l.locksPlace| == l.tdg.lockCount && ValidTask(l.tdg, l.tdg.nodes[n].task)
    requires forall k: nat :: k < |l.locksPlace| ==> l.locksPlace[k] == FirstLock(l.tdg) + k
    ensures
      var task, t := l.tdg.nodes[n].task, l.chains[n][i];
      && LocksTaken(l.tdg, FirstLock(l.tdg), |l.tdg.nodes|, t)
           == (set j: nat | j < |task.locks| && task.locks[j].id < |l.locksPlace| && i == 5 + 4 * j ::
                 l.locksPlace[task.locks[j].id])
      && LocksGiven(l.tdg, FirstLock(l.tdg), |l.tdg.nodes|, t)
           == (set j: nat | j < |task.locks| && task.locks[j].id < |l.locksPlace| && i + 4 + 2 * j == |l.chains[n]| ::
                 l.locksPlace[task.locks[j].id])
  {
    LocksBoundTo(l.tdg, FirstLock(l.tdg), n, half);
  }

  /** A transition of a chain takes from the place before it and the resources bound
      there, and gives to the place after it and the resources given back there. */
  lemma ChainStepIs(l: L.Lowering, n: nat, i: nat)
    requires IsNetOf(l) && IsTask(l.tdg, n) && n < |l.chains| && i < |l.chains[n]| && i % 2 == 1
    ensures i + 1 < |l.chains[n]|
    ensures
      var chain := l.chains[n];
      Moves(l, chain[i], {chain[i - 1]} + Misread(l.tdg, |l.tdg.edges|, chain[i]) + ResourcesTaken(l, n, i),
            {chain[i + 1]} + ResourcesGiven(l, n, i))
  {
    hide StagesBuilt, Resourced, ChainsAre, EndsAre, Does, StepIs, Misread, ResourcesTaken, ResourcesGiven, Moves,
      TakenAt, GivenAt;
    var x := NetStages(l);
    ChainStep(l.tdg, l.chains, n, i);
    TaskBinds(l, n, i);
    var t := l.chains[n][i];
    var interval, priority, core := ChainBuilt(l.tdg, x, n, i);
    StepInTheNet(l, x, t, {l.chains[n][i - 1]} + Misread(l.tdg, |l.tdg.edges|, t), {l.chains[n][i + 1]}, interval,
                 priority, core);
  }

  lemma StepInTheNet(l: L.Lowering, x: Stages, t: nat, ins: set<nat>, outs: set<nat>, interval: Interval,
                     priority: int, core: int)
    requires IsNetOf(l) && ValidTdg(l.tdg) && StagesBuilt(l.tdg, x) && Resourced(l.tdg, x.restarted, l.Sketched())
    requires t < |x.edges.transitions| && Does(x.edges, t, ins, outs, interval, priority, core)
    ensures Moves(l, t, ins + TakenAt(l.tdg, t), outs + GivenAt(l.tdg, t)) && Timed(l, t, interval, priority, core)
  {
    hide StagesBuilt, Resourced, Does, Moves, Timed, TakenAt, GivenAt;
    DoesLater(l.tdg, x, t, ins, outs, interval, priority, core);
    InTheNet(l, x, t, ins, outs, interval, priority, core);
  }

  lemma ChainBuilt(tdg: Tdg, x: Stages, n: nat, i: nat) returns (interval: Interval, priority: int, core: int)
    requires ValidTdg(tdg) && StagesBuilt(tdg, x) && IsTask(tdg, n) && i < 6 * |tdg.nodes[n].task.locks| + 5
    requires i % 2 == 1
    ensures
      var t, p := FirstStep(tdg, n) + i / 2, FirstPlace(tdg, n) + i / 2;
      && t < |x.edges.transitions| && t < |x.nodes.sketch.transitions|
      && Does(x.edges, t, {p} + Misread(tdg, |tdg.edges|, t), {p + 1}, interval, priority, core)
      && StepIs(x.nodes.sketch, t, interval, priority, core)
  {
    hide StagesBuilt, Joined, Forked, Misread;
    var t := FirstStep(tdg, n) + i / 2;
    NodeThere(tdg, x, n, t);
    assert ChainAt(tdg, x.nodes, n, i);
    NothingJoined(tdg, n, i / 2);
    var transition := x.nodes.sketch.transitions[t];
    interval, priority, core := transition.interval, transition.priority, transition.core;
  }

  /** What there is to know about a node, and about one of its transitions. */
  lemma NodeThere(tdg: Tdg, x: Stages, n: nat, t: nat)
    requires ValidTdg(tdg) && StagesBuilt(tdg, x) && n < |tdg.nodes|
    ensures NodeAt(tdg, x.nodes, n) && OldAt(tdg, x.nodes.sketch, x.edges, |tdg.edges|, t)
    ensures Even(x.nodes.sketch) && Even(x.edges)
  {
  }

  /** Edges to forks and joins do not touch the steps of tasks. */
  lemma NothingJoined(tdg: Tdg, n: nat, i: nat)
    requires ValidTdg(tdg) && IsTask(tdg, n) && i < StepsOf(tdg.nodes[n])
    ensures Joined(tdg, |tdg.edges|, FirstStep(tdg, n) + i) == {}
    ensures Forked(tdg, |tdg.edges|, FirstStep(tdg, n) + i) == {}
  {
    forall m: nat | m < |tdg.nodes| && tdg.nodes[m].ControlNode?
      ensures FirstStep(tdg, m) != FirstStep(tdg, n) + i
    {
      StepsApart(tdg, n, m);
    }
    forall k: nat | k < |tdg.edges|
      ensures ValidLink(tdg, tdg.edges[k])
    {
    }
  }

  /** Restarts mark t suspendable. */
  ghost predicate MarkedHere(tdg: Tdg, t: nat) {
    tdg.policy.Restart? && exists high: nat, low: nat :: MarkedBy(tdg, t, high, low)
  }

  lemma MarksOfCores(tdg: Tdg, t: nat)
    requires ValidTdg(tdg)
    ensures tdg.policy.Restart? && CoresMark(tdg, tdg.numCpus, t) <==> MarkedHere(tdg, t)
  {
    if high: nat, low: nat :| tdg.policy.Restart? && MarkedBy(tdg, t, high, low) {
      assert ValidTask(tdg, tdg.nodes[high].task) && CoreBelow(tdg, high, tdg.numCpus);
    }
  }

  /** Whether a transition made before the restarts can be suspended in the end. */
  lemma MarkInTheNet(l: L.Lowering, x: Stages, t: nat)
    requires IsNetOf(l) && ValidTdg(l.tdg) && StagesBuilt(l.tdg, x) && Resourced(l.tdg, x.restarted, l.Sketched())
    requires t < |x.bound.transitions|
    ensures t < |l.net.transitions|
    ensures l.net.transitions[t].suspendable <==> x.bound.transitions[t].suspendable || MarkedHere(l.tdg, t)
  {
    SameTransitions(l, x);
    MarksOfCores(l.tdg, t);
    MarksBuilt(l.tdg, x, t);
  }

  lemma MarksBuilt(tdg: Tdg, x: Stages, t: nat)
    requires ValidTdg(tdg) && StagesBuilt(tdg, x)
    ensures MarksIf(x.bound, x.restarted, t, tdg.policy.Restart? && CoresMark(tdg, tdg.numCpus, t))
    ensures FirstStep(tdg, |tdg.nodes|) <= t < |x.bound.transitions| ==> !x.bound.transitions[t].suspendable
    ensures t < |x.nodes.sketch.transitions| && t < |x.bound.transitions| ==>
      x.bound.transitions[t] == x.nodes.sketch.transitions[t]
  {
    assert MarksAt(tdg, x.bound, x.restarted, t);
    assert FirstStep(tdg, |tdg.nodes|) <= t ==> PlainAt(x.bound, t);
    assert OldAt(tdg, x.nodes.sketch, x.edges, |tdg.edges|, t);
  }

  /** Transitions of edges, releases and consumers cannot be suspended unless restarts
      mark them. */
  lemma LateMarks(l: L.Lowering, t: nat)
    requires IsNetOf(l) && ValidTdg(l.tdg) && FirstStep(l.tdg, |l.tdg.nodes|) <= t < ConsumerStep(l.tdg, |l.tdg.nodes|)
    ensures t < |l.net.transitions| && (l.net.transitions[t].suspendable <==> MarkedHere(l.tdg, t))
  {
    hide StagesBuilt, Resourced, ChainsAre, EndsAre, MarkedHere;
    var x := NetStages(l);
    BindingSizes(l.tdg, x);
    MarksBuilt(l.tdg, x, t);
    MarkInTheNet(l, x, t);
  }

  /** Nor can forks and joins. */
  lemma ControlMarks(l: L.Lowering, n: nat)
    requires IsNetOf(l) && n < |l.tdg.nodes| && l.tdg.nodes[n].ControlNode?
    ensures
      var t := FirstStep(l.tdg, n);
      t < |l.net.transitions| && (l.net.transitions[t].suspendable <==> MarkedHere(l.tdg, t))
  {
    hide Resourced, ChainsAre, EndsAre, MarkedHere;
    var x := NetStages(l);
    var t := FirstStep(l.tdg, n);
    PlainControl(l.tdg, x, n);
    hide StagesBuilt;
    MarkInTheNet(l, x, t);
  }

  lemma PlainControl(tdg: Tdg, x: Stages, n: nat)
    requires ValidTdg(tdg) && StagesBuilt(tdg, x) && n < |tdg.nodes| && tdg.nodes[n].ControlNode?
    ensures var t := FirstStep(tdg, n); t < |x.bound.transitions| && !x.bound.transitions[t].suspendable
  {
    assert NodeAt(tdg, x.nodes, n);
    BindingSizes(tdg, x);
    MarksBuilt(tdg, x, FirstStep(tdg, n));
    NodeBelow(tdg, n, |tdg.nodes|);
  }

  /** Transition i of the chain of a task. */
  ghost predicate ChainTimed(l: L.Lowering, n: nat, i: nat, interval: Interval, suspendable: bool)
    requires IsTask(l.tdg, n) && n < |l.chains|
    reads l, l.net
  {
    var task := l.tdg.nodes[n].task;
    && i < |l.chains[n]| && Timed(l, l.chains[n][i], interval, task.priority, task.core)
    && (l.net.transitions[l.chains[n][i]].suspendable <==> suspendable || MarkedHere(l.tdg, l.chains[n][i]))
  }

  /** The transitions of a task are at its priority on its core.  Segment j takes the
      time that the task says.  Under the resume policy segments can be suspended,
      except those at the position of a lock that spins. */
  lemma SegmentTimed(l: L.Lowering, n: nat, j: nat)
    requires IsNetOf(l) && IsTask(l.tdg, n) && j < |l.tdg.nodes[n].task.times|
    ensures n < |l.chains|
    ensures
      var task := l.tdg.nodes[n].task;
      var spins := j < |task.locks| && task.locks[j].spin;
      ChainTimed(l, n, 3 + 2 * j + 2 * (if j < |task.locks| then j else |task.locks|),
                 Interval(task.times[j].0, Fin(task.times[j].1), false, false), l.tdg.policy.Resume? && !spins)
  {
    hide StagesBuilt, Resourced, ChainsAre, EndsAre, ChainTimed, ValidTdg, StepAt;
    var x := NetStages(l);
    var task, resume := l.tdg.nodes[n].task, l.tdg.policy.Resume?;
    ChainBegins(l.tdg, x, n, j);
    var pos: nat := 3 + 2 * j + 2 * if j < |task.locks| then j else |task.locks|;
    assert ExecPos(|task.locks|, j) == pos && pos % 2 == 1;
    OneChainTime(l, x, n, pos, ExecTransition(task, j, resume));
  }

  /** The first transition, and those that take locks, take no time. */
  lemma StepsTimed(l: L.Lowering, n: nat, j: nat)
    requires IsNetOf(l) && IsTask(l.tdg, n)
    ensures n < |l.chains| && ChainTimed(l, n, 1, AtOnce(), false)
    ensures j < |l.tdg.nodes[n].task.locks| ==> ChainTimed(l, n, 5 + 4 * j, AtOnce(), false)
  {
    hide StagesBuilt, Resourced, ChainsAre, EndsAre, ChainTimed, ValidTdg, StepAt;
    var x := NetStages(l);
    var task := l.tdg.nodes[n].task;
    ChainBegins(l.tdg, x, n, j);
    OneChainTime(l, x, n, 1, StepTransition(task));
    if j < |task.locks| {
      OneChainTime(l, x, n, AcquirePos(j), StepTransition(task));
    }
  }

  lemma ChainBegins(tdg: Tdg, x: Stages, n: nat, j: nat)
    requires ValidTdg(tdg) && StagesBuilt(tdg, x) && IsTask(tdg, n)
    ensures
      var task, chain, transitions := tdg.nodes[n].task, x.nodes.chains[n], x.nodes.sketch.transitions;
      && |task.times| == 2 * |task.locks| + 1
      && StepAt(chain, transitions, 1, StepTransition(task))
      && (j < |task.times| ==>
            StepAt(chain, transitions, ExecPos(|task.locks|, j), ExecTransition(task, j, tdg.policy.Resume?)))
      && (j < |task.locks| ==> StepAt(chain, transitions, AcquirePos(j), StepTransition(task)))
  {
    assert NodeAt(tdg, x.nodes, n) && ValidTask(tdg, tdg.nodes[n].task);
  }

  lemma OneChainTime(l: L.Lowering, x: Stages, n: nat, i: nat, transition: Transition)
    requires IsNetOf(l) && ValidTdg(l.tdg) && StagesBuilt(l.tdg, x) && Resourced(l.tdg, x.restarted, l.Sketched())
    requires l.chains == x.nodes.chains && ChainsAre(l.tdg, l.chains) && IsTask(l.tdg, n) && i % 2 == 1
    requires StepAt(x.nodes.chains[n], x.nodes.sketch.transitions, i, transition)
    requires transition.priority == l.tdg.nodes[n].task.priority && transition.core == l.tdg.nodes[n].task.core
    ensures ChainTimed(l, n, i, transition.interval, transition.suspendable)
  {
    hide StagesBuilt, ChainsAre, Resourced, Does, Moves, Misread, NodesBuilt, ValidTdg;
    ChainStep(l.tdg, l.chains, n, i);
    var t := l.chains[n][i];
    var interval, priority, core := ChainBuilt(l.tdg, x, n, i);
    ChainKept(l.tdg, x, t);
    MarkInTheNet(l, x, t);
    hide IsNetOf, MarkedHere;
    StepInTheNet(l, x, t, {l.chains[n][i - 1]} + Misread(l.tdg, |l.tdg.edges|, t), {l.chains[n][i + 1]}, interval,
                 priority, core);
  }

  lemma SameTransitions(l: L.Lowering, x: Stages)
    requires IsNetOf(l) && Resourced(l.tdg, x.restarted, l.Sketched())
    ensures l.net.transitions == x.restarted.transitions
  {
  }

  lemma ChainKept(tdg: Tdg, x: Stages, t: nat)
    requires ValidTdg(tdg) && StagesBuilt(tdg, x) && t < |x.nodes.sketch.transitions|
    ensures t < |x.bound.transitions| && x.bound.transitions[t] == x.nodes.sketch.transitions[t]
  {
    BindingSizes(tdg, x);
    MarksBuilt(tdg, x, t);
  }

  // ------------------------------------------------- starts, releases and consumers

  /** The net up to its restarts is in the finished one. */
  lemma LateInTheNet(l: L.Lowering, x: Stages, t: nat, ins: set<nat>, outs: set<nat>, interval: Interval)
    requires IsNetOf(l) && ValidTdg(l.tdg) && StagesBuilt(l.tdg, x) && Resourced(l.tdg, x.restarted, l.Sketched())
    requires t >= FirstStep(l.tdg, |l.tdg.nodes|) && t < |x.bound.transitions|
    requires Does(x.bound, t, ins, outs, interval, 0, -1)
    ensures Moves(l, t, ins, outs) && Timed(l, t, interval, 0, -1)
  {
    hide StagesBuilt, Resourced, Does, Moves, Timed;
    LateIsNoStep(l.tdg, t);
    BoundLater(l.tdg, x, t, ins, outs, interval, 0, -1);
    PlainInTheNet(l, x, t, ins, outs, interval, 0, -1);
  }

  lemma BindingSizes(tdg: Tdg, x: Stages)
    requires ValidTdg(tdg) && StagesBuilt(tdg, x)
    ensures |x.edges.places| == EdgePlace(tdg, |tdg.edges|)
    ensures |x.edges.transitions| == EdgeStep(tdg, |tdg.edges|) >= FirstStep(tdg, |tdg.nodes|)
    ensures |x.bound.transitions|
      == EdgeStep(tdg, |tdg.edges|) + Releases(tdg, |tdg.periodic|) + Consumers(tdg, |tdg.nodes|)
    ensures |x.bound.places| == FirstResource(tdg) == |x.restarted.places|
    ensures Even(x.bound) && x.bound.initial == x.restarted.initial && x.bound.places == x.restarted.places
  {
    EdgeStepsGrow(tdg, 0, |tdg.edges|);
  }

  /** Where the release of a periodic binding is, and the consumer of a task. */
  function ReleaseStep(tdg: Tdg, k: nat): nat
    requires ValidTdg(tdg) && k <= |tdg.periodic|
  {
    EdgeStep(tdg, |tdg.edges|) + Releases(tdg, k)
  }

  function ReleasePlace(tdg: Tdg, k: nat): nat
    requires ValidTdg(tdg) && k <= |tdg.periodic|
  {
    EdgePlace(tdg, |tdg.edges|) + Releases(tdg, k)
  }

  function ConsumerStep(tdg: Tdg, n: nat): nat
    requires ValidTdg(tdg) && n <= |tdg.nodes|
  {
    ReleaseStep(tdg, |tdg.periodic|) + Consumers(tdg, n)
  }

  /** A periodic release: a marked place whose transition gives its token back and
      one to the first place of the task, once a period.  Tasks with a self-loop have
      none. */
  lemma ReleaseIs(l: L.Lowering, k: nat)
    requires IsNetOf(l) && ValidTdg(l.tdg) && k < |l.tdg.periodic| && IsTask(l.tdg, l.tdg.periodic[k].0)
    requires !ReleasesItself(l.tdg, l.tdg.periodic[k].0)
    ensures |l.chains| == |l.tdg.nodes|
    ensures
      var (n, period) := l.tdg.periodic[k];
      var p, t := ReleasePlace(l.tdg, k), ReleaseStep(l.tdg, k);
      && Moves(l, t, {p}, {p, EntryOf(l, n)}) && Timed(l, t, Exactly(period), 0, -1)
      && p < |l.net.initial| && l.net.initial[p] == 1
  {
    hide StagesBuilt, Resourced, ChainsAre, EndsAre, Moves, Timed, Does, ReleasesItself, ReleasePlace, ReleaseStep;
    var x := NetStages(l);
    var n, period := l.tdg.periodic[k].0, l.tdg.periodic[k].1;
    EndsOf(l, n);
    KeptTokens(l, x);
    ReleaseBuilt(l.tdg, x, k);
    hide IsNetOf, EntryOf;
    var p, t := ReleasePlace(l.tdg, k), ReleaseStep(l.tdg, k);
    LateInTheNet(l, x, t, {p}, {p, Entry(l.tdg, n)}, Exactly(period));
  }

  lemma ReleaseBuilt(tdg: Tdg, x: Stages, k: nat)
    requires ValidTdg(tdg) && StagesBuilt(tdg, x) && k < |tdg.periodic| && IsTask(tdg, tdg.periodic[k].0)
    requires !ReleasesItself(tdg, tdg.periodic[k].0)
    ensures
      var n, p, t := tdg.periodic[k].0, ReleasePlace(tdg, k), ReleaseStep(tdg, k);
      && FirstStep(tdg, |tdg.nodes|) <= t < |x.bound.transitions|
      && Does(x.bound, t, {p}, {p, Entry(tdg, n)}, Exactly(tdg.periodic[k].1), 0, -1)
      && p < |x.bound.initial| && x.bound.initial[p] == 1 && PlaceIs(x.bound, p, Fin(1), true)
  {
    BindingSizes(tdg, x);
    ReleasesGrow(tdg, k, |tdg.periodic|);
    assert ReleaseAt(tdg, x.bound, |x.edges.places|, |x.edges.transitions|, k);
  }

  lemma KeptTokens(l: L.Lowering, x: Stages)
    requires IsNetOf(l) && ValidTdg(l.tdg) && StagesBuilt(l.tdg, x) && Resourced(l.tdg, x.restarted, l.Sketched())
    ensures x.bound.initial <= l.net.initial && x.bound.places <= l.net.places
    ensures |l.net.places| == |l.net.initial| == FirstLock(l.tdg) + l.tdg.lockCount
    ensures l.net.transitions == x.restarted.transitions
  {
    BindingSizes(l.tdg, x);
    hide StagesBuilt;
  }

  /** A consumer takes from the last place of a task without a successor, or of one
      that ends, and gives nothing. */
  lemma ConsumerIs(l: L.Lowering, n: nat)
    requires IsNetOf(l) && ValidTdg(l.tdg) && Consumed(l.tdg, n)
    ensures |l.chains| == |l.tdg.nodes|
    ensures Moves(l, ConsumerStep(l.tdg, n), {ExitOf(l, n)}, {}) && Timed(l, ConsumerStep(l.tdg, n), AtOnce(), 0, -1)
  {
    hide StagesBuilt, Resourced, ChainsAre, EndsAre, Moves, Timed, Does, ConsumerStep;
    var x := NetStages(l);
    EndsOf(l, n);
    ConsumerBuilt(l.tdg, x, n);
    LateInTheNet(l, x, ConsumerStep(l.tdg, n), {Exit(l.tdg, n)}, {}, AtOnce());
  }

  lemma ConsumerBuilt(tdg: Tdg, x: Stages, n: nat)
    requires ValidTdg(tdg) && StagesBuilt(tdg, x) && Consumed(tdg, n)
    ensures
      var t := ConsumerStep(tdg, n);
      && FirstStep(tdg, |tdg.nodes|) <= t < |x.bound.transitions|
      && Does(x.bound, t, {Exit(tdg, n)}, {}, AtOnce(), 0, -1)
  {
    BindingSizes(tdg, x);
    ConsumersGrow(tdg, n, |tdg.nodes|);
    assert ConsumerLast(tdg, x.bound, |x.edges.transitions|, n);
  }

  /** The tokens at the start: a place of a node or an edge has those of the last
      binding of a start whose task begins there, and none without one. */
  lemma StartTokens(l: L.Lowering, p: nat)
    requires IsNetOf(l) && ValidTdg(l.tdg) && p < EdgePlace(l.tdg, |l.tdg.edges|)
    ensures p < |l.net.initial|
    ensures forall j: nat :: StartsAt(l.tdg, |l.tdg.starts|, j, p) ==> l.net.initial[p] == l.tdg.starts[j].1
    ensures (forall j: nat :: !StartsAt(l.tdg, |l.tdg.starts|, j, p)) ==> l.net.initial[p] == 0
  {
    hide StagesBuilt, Resourced, ChainsAre, EndsAre, StartsAt;
    var x := NetStages(l);
    KeptTokens(l, x);
    TokensBuilt(l.tdg, x, p);
  }

  lemma TokensBuilt(tdg: Tdg, x: Stages, p: nat)
    requires ValidTdg(tdg) && StagesBuilt(tdg, x) && p < EdgePlace(tdg, |tdg.edges|)
    ensures p < |x.bound.initial| && FilledAt(tdg, x.bound, |tdg.starts|, p)
  {
  }

  /** The place of a resource holds all of it at the start, and no more at any time. */
  lemma ResourceTokens(l: L.Lowering, c: nat)
    requires IsNetOf(l)
    ensures c < |l.cpusPlace| ==> Full(l, l.cpusPlace[c], l.tdg.coresPerCpu)
    ensures c < |l.locksPlace| ==> Full(l, l.locksPlace[c], 1)
  {
    hide StagesBuilt, Resourced, ChainsAre, EndsAre, FullAt;
    var x := NetStages(l);
    PlacesOfResources(l);
    KeptTokens(l, x);
    FullOnes(l.tdg, x.restarted, l.Sketched(), FirstResource(l.tdg) + c);
    FullOnes(l.tdg, x.restarted, l.Sketched(), FirstLock(l.tdg) + c);
    hide IsNetOf, Full;
    if c < |l.cpusPlace| {
      FullHere(l, l.cpusPlace[c], l.tdg.coresPerCpu);
    }
    if c < |l.locksPlace| {
      FullHere(l, l.locksPlace[c], 1);
    }
  }

  lemma FullHere(l: L.Lowering, p: nat, tokens: int)
    requires l.net.Valid() && FullAt(l.Sketched(), p, tokens)
    ensures Full(l, p, tokens)
  {
  }

  ghost predicate Full(l: L.Lowering, p: nat, tokens: int)
    reads l, l.net
  {
    && p < |l.net.initial| && p < |l.net.places|
    && l.net.initial[p] == tokens && l.net.places[p].capacity == Fin(tokens)
  }

  lemma FullOnes(tdg: Tdg, v: Sketch, w: Sketch, p: nat)
    requires Resourced(tdg, v, w)
    ensures !tdg.policy.Resume? && FirstResource(tdg) <= p < FirstLock(tdg) ==> FullAt(w, p, tdg.coresPerCpu)
    ensures FirstLock(tdg) <= p < |w.places| ==> FullAt(w, p, 1)
  {
  }

  // ------------------------------------------------------------------------ places

  ghost predicate Holds(l: L.Lowering, p: nat, capacity: int, saturate: bool)
    reads l, l.net
  {
    p < |l.net.places| && l.net.places[p] == Place(Fin(capacity), saturate)
  }

  /** The places of tasks hold as many tokens as the graph says, and those of empty
      nodes one. */
  lemma NodePlaces(l: L.Lowering, n: nat, i: nat)
    requires IsNetOf(l) && n < |l.tdg.nodes|
    ensures |l.chains| == |l.tdg.nodes|
    ensures IsTask(l.tdg, n) && i < |l.chains[n]| && i % 2 == 0 ==> Holds(l, l.chains[n][i], l.tdg.capacity, true)
    ensures l.tdg.nodes[n].EmptyNode? ==> Holds(l, EntryOf(l, n), 1, false)
  {
    hide StagesBuilt, Resourced, ChainsAre, EndsAre;
    var x := NetStages(l);
    EndsOf(l, n);
    KeptTokens(l, x);
    NodePlacesBuilt(l.tdg, x, n, i);
  }

  lemma NodePlacesBuilt(tdg: Tdg, x: Stages, n: nat, i: nat)
    requires ValidTdg(tdg) && StagesBuilt(tdg, x) && n < |tdg.nodes| && n < |x.nodes.chains|
    ensures IsTask(tdg, n) && i < |x.nodes.chains[n]| && i % 2 == 0 ==>
      PlaceIs(x.bound, x.nodes.chains[n][i], Fin(tdg.capacity), true)
    ensures tdg.nodes[n].EmptyNode? ==> PlaceIs(x.bound, Entry(tdg, n), Fin(1), false)
  {
    NodeThere(tdg, x, n, 0);
    PlacesKept(tdg, x);
    hide StagesBuilt;
    assert IsTask(tdg, n) && i < |x.nodes.chains[n]| ==> ChainAt(tdg, x.nodes, n, i);
  }

  lemma PlacesKept(tdg: Tdg, x: Stages)
    requires ValidTdg(tdg) && StagesBuilt(tdg, x)
    ensures x.nodes.sketch.places <= x.edges.places <= x.bound.places
  {
  }

  /** The four places of a monitor hold one token. */
  lemma MonitorPlaces(l: L.Lowering, k: nat, i: nat)
    requires IsNetOf(l) && ValidTdg(l.tdg) && k < |l.tdg.edges| && IsLoop(l.tdg.edges[k]) && i < 4
    ensures Holds(l, EdgePlace(l.tdg, k) + i, 1, false)
  {
    hide StagesBuilt, Resourced, ChainsAre, EndsAre, Holds, PlaceIs, ValidTdg;
    var x := NetStages(l);
    KeptTokens(l, x);
    MonitorThere(l.tdg, x, k, i);
    HoldsLater(l, x.edges, x.bound, EdgePlace(l.tdg, k) + i, 1, false);
  }

  lemma MonitorThere(tdg: Tdg, x: Stages, k: nat, i: nat)
    requires ValidTdg(tdg) && StagesBuilt(tdg, x) && k < |tdg.edges| && IsLoop(tdg.edges[k]) && i < 4
    ensures PlaceIs(x.edges, EdgePlace(tdg, k) + i, Fin(1), false) && x.edges.places <= x.bound.places
  {
    assert ValidLink(tdg, tdg.edges[k]) && EdgeAt(tdg, x.edges, |tdg.edges|, k);
    hide Controls, NodesBuilt, BindingsBuilt, OnlyRestarts, CoresRestart, PlainFrom, MarksAt;
    FourPlacesAre(tdg, x.edges, k, i);
    PlacesKept(tdg, x);
  }

  lemma HoldsLater(l: L.Lowering, v: Sketch, w: Sketch, p: nat, capacity: int, saturate: bool)
    requires v.places <= w.places <= l.net.places && PlaceIs(v, p, Fin(capacity), saturate)
    ensures Holds(l, p, capacity, saturate)
  {
  }

  lemma FourPlacesAre(tdg: Tdg, v: Sketch, k: nat, i: nat)
    requires ValidTdg(tdg) && k < |tdg.edges| && ValidLink(tdg, tdg.edges[k]) && i < 4
    requires MonitorAt(tdg, v, |tdg.edges|, k)
    ensures PlaceIs(v, EdgePlace(tdg, k) + i, Fin(1), false)
  {
    hide Controls;
  }

  /** So does that of a release. */
  lemma ReleaseHolds(l: L.Lowering, k: nat)
    requires IsNetOf(l) && ValidTdg(l.tdg) && k < |l.tdg.periodic| && IsTask(l.tdg, l.tdg.periodic[k].0)
    requires !ReleasesItself(l.tdg, l.tdg.periodic[k].0)
    ensures Holds(l, ReleasePlace(l.tdg, k), 1, true)
  {
    hide StagesBuilt, Resourced, ChainsAre, EndsAre, ReleasesItself, Does;
    var x := NetStages(l);
    KeptTokens(l, x);
    ReleaseBuilt(l.tdg, x, k);
  }

  // ---------------------------------------------------------------------- restarts

  /** Transition t lets high enter, from the first place of its chain to ready, and
      sends low back from position pos to the first place of its own. */
  ghost predicate SendsBack(l: L.Lowering, t: nat, high: nat, low: nat, pos: nat)
    requires l.Lowered()
    reads l, l.net
  {
    && Outranks(l.tdg, high, low) && SentFrom(l.tdg, low, pos) && high < |l.chains| && low < |l.chains|
    && 2 < |l.chains[high]| && pos < |l.chains[low]|
    && var h, w, task := l.chains[high], l.chains[low], l.tdg.nodes[high].task;
       Moves(l, t, {h[0], w[pos]}, {h[2], w[0]}) && Timed(l, t, AtOnce(), task.priority, task.core)
  }

  lemma RestartInTheNet(l: L.Lowering, x: Stages, t: nat, high: nat, low: nat, pos: nat)
    requires IsNetOf(l) && ValidTdg(l.tdg) && StagesBuilt(l.tdg, x) && Resourced(l.tdg, x.restarted, l.Sketched())
    requires ChainsAre(l.tdg, l.chains) && RestartAt(l.tdg, x.restarted, t, high, low, pos)
    ensures SendsBack(l, t, high, low, pos)
  {
    hide StagesBuilt, Resourced, Moves, Timed, Does, NoStep, ValidTdg, SentFrom, ChainsAre, IsNetOf;
    RestartPlaces(l.tdg, l.chains, high, low, pos);
    RestartMoves(l, x, t, high, low, pos);
  }

  lemma RestartMoves(l: L.Lowering, x: Stages, t: nat, high: nat, low: nat, pos: nat)
    requires IsNetOf(l) && ValidTdg(l.tdg) && StagesBuilt(l.tdg, x) && Resourced(l.tdg, x.restarted, l.Sketched())
    requires RestartAt(l.tdg, x.restarted, t, high, low, pos)
    ensures
      var a, b, task := Entry(l.tdg, high), Entry(l.tdg, low), l.tdg.nodes[high].task;
      Moves(l, t, {a, b + pos / 2}, {a + 1, b}) && Timed(l, t, AtOnce(), task.priority, task.core)
  {
    hide StagesBuilt, Resourced, Moves, Timed, Does, NoStep, ValidTdg, SentFrom;
    RestartEven(l.tdg, x);
    LateIsNoStep(l.tdg, t);
    var a, b, task := Entry(l.tdg, high), Entry(l.tdg, low), l.tdg.nodes[high].task;
    PlainInTheNet(l, x, t, {a, b + pos / 2}, {a + 1, b}, AtOnce(), task.priority, task.core);
  }

  lemma RestartEven(tdg: Tdg, x: Stages)
    requires ValidTdg(tdg) && StagesBuilt(tdg, x)
    ensures Even(x.restarted)
  {
  }

  lemma RestartPlaces(tdg: Tdg, chains: seq<seq<nat>>, high: nat, low: nat, pos: nat)
    requires ChainsAre(tdg, chains) && IsTask(tdg, high) && SentFrom(tdg, low, pos)
    ensures |chains| == |tdg.nodes| && low < |tdg.nodes| && 2 < |chains[high]| && pos < |chains[low]|
    ensures chains[high][0] == Entry(tdg, high) && chains[high][2] == Entry(tdg, high) + 1
    ensures chains[low][0] == Entry(tdg, low) && chains[low][pos] == Entry(tdg, low) + pos / 2
  {
    assert ChainIs(tdg, chains, high) && ChainIs(tdg, chains, low);
    assert At(chains[high], 0) == chains[high][0] && At(chains[high], 2) == chains[high][2];
    assert At(chains[low], 0) == chains[low][0] && At(chains[low], pos) == chains[low][pos];
  }

  /** Under the restart policy every task of a core is sent back by every one that
      outranks it there, from ready and from holding any lock before the first that
      spins. */
  lemma RestartThere(l: L.Lowering, high: nat, low: nat, pos: nat) returns (t: nat)
    requires IsNetOf(l) && l.tdg.policy.Restart? && Outranks(l.tdg, high, low) && SentFrom(l.tdg, low, pos)
    ensures SendsBack(l, t, high, low, pos)
  {
    var x := NetStages(l);
    t := RestartBuilt(l.tdg, x, high, low, pos);
    RestartInTheNet(l, x, t, high, low, pos);
  }

  lemma RestartBuilt(tdg: Tdg, x: Stages, high: nat, low: nat, pos: nat) returns (t: nat)
    requires ValidTdg(tdg) && StagesBuilt(tdg, x) && tdg.policy.Restart? && Outranks(tdg, high, low)
    requires SentFrom(tdg, low, pos)
    ensures RestartAt(tdg, x.restarted, t, high, low, pos)
  {
    assert ValidTask(tdg, tdg.nodes[high].task) && CoreBelow(tdg, high, tdg.numCpus);
    hide NodesBuilt, EdgesBuilt, BindingsBuilt, OnlyRestarts, PlainFrom, MarksAt;
    assert PairRestarts(tdg, x.restarted, high, low) && RestartFrom(tdg, x.restarted, high, low, pos);
    t :| RestartAt(tdg, x.restarted, t, high, low, pos);
  }

  // ------------------------------------------------------------------ nothing else

  /** t is a step of node n, belongs to edge k, releases for periodic binding k, or
      consumes from task n. */
  ghost predicate OfNode(tdg: Tdg, t: nat, n: nat) {
    n < |tdg.nodes| && FirstStep(tdg, n) <= t < FirstStep(tdg, n) + StepsOf(tdg.nodes[n])
  }

  ghost predicate OfEdge(tdg: Tdg, t: nat, k: nat)
    requires ValidTdg(tdg)
  {
    k < |tdg.edges| && EdgeStep(tdg, k) <= t < EdgeStep(tdg, k + 1)
  }

  ghost predicate OfRelease(tdg: Tdg, t: nat, k: nat)
    requires ValidTdg(tdg)
  {
    k < |tdg.periodic| && !ReleasesItself(tdg, tdg.periodic[k].0) && t == ReleaseStep(tdg, k)
  }

  ghost predicate OfConsumer(tdg: Tdg, t: nat, n: nat)
    requires ValidTdg(tdg)
  {
    n < |tdg.nodes| && Consumed(tdg, n) && t == ConsumerStep(tdg, n)
  }

  lemma {:induction false} NodeOf(tdg: Tdg, n: nat, t: nat)
    requires n <= |tdg.nodes| && t < FirstStep(tdg, n)
    ensures exists m: nat :: OfNode(tdg, t, m)
  {
    if t < FirstStep(tdg, n - 1) {
      NodeOf(tdg, n - 1, t);
    } else {
      assert OfNode(tdg, t, n - 1);
    }
  }

  lemma {:induction false} EdgeOf(tdg: Tdg, k: nat, t: nat)
    requires ValidTdg(tdg) && k <= |tdg.edges| && FirstStep(tdg, |tdg.nodes|) <= t < EdgeStep(tdg, k)
    ensures exists j: nat :: OfEdge(tdg, t, j)
  {
    if t < EdgeStep(tdg, k - 1) {
      EdgeOf(tdg, k - 1, t);
    } else {
      assert OfEdge(tdg, t, k - 1);
    }
  }

  lemma {:induction false} ReleaseOf(tdg: Tdg, k: nat, t: nat)
    requires ValidTdg(tdg) && k <= |tdg.periodic| && ReleaseStep(tdg, 0) <= t < ReleaseStep(tdg, k)
    ensures exists j: nat :: OfRelease(tdg, t, j)
  {
    if t < ReleaseStep(tdg, k - 1) {
      ReleaseOf(tdg, k - 1, t);
    } else {
      assert OfRelease(tdg, t, k - 1);
    }
  }

  lemma {:induction false} ConsumerOf(tdg: Tdg, n: nat, t: nat)
    requires ValidTdg(tdg) && n <= |tdg.nodes| && ConsumerStep(tdg, 0) <= t < ConsumerStep(tdg, n)
    ensures exists m: nat :: OfConsumer(tdg, t, m)
  {
    if t < ConsumerStep(tdg, n - 1) {
      ConsumerOf(tdg, n - 1, t);
    } else {
      assert OfConsumer(tdg, t, n - 1);
    }
  }

  /** Every transition is one of these, or a restart of the restart policy. */
  lemma NothingElse(l: L.Lowering, t: nat)
    requires IsNetOf(l) && ValidTdg(l.tdg) && t < |l.net.transitions|
    ensures
      || (exists n: nat :: OfNode(l.tdg, t, n)) || (exists k: nat :: OfEdge(l.tdg, t, k))
      || (exists k: nat :: OfRelease(l.tdg, t, k)) || (exists n: nat :: OfConsumer(l.tdg, t, n))
      || (l.tdg.policy.Restart? && exists high: nat, low: nat, pos: nat :: SendsBack(l, t, high, low, pos))
  {
    hide Resourced, OfNode, OfEdge, OfRelease, OfConsumer, SendsBack;
    var x := NetStages(l);
    SameTransitions(l, x);
    BindingSizes(l.tdg, x);
    if t < FirstStep(l.tdg, |l.tdg.nodes|) {
      NodeOf(l.tdg, |l.tdg.nodes|, t);
    } else if t < EdgeStep(l.tdg, |l.tdg.edges|) {
      EdgeOf(l.tdg, |l.tdg.edges|, t);
    } else if t < ReleaseStep(l.tdg, |l.tdg.periodic|) {
      ReleaseOf(l.tdg, |l.tdg.periodic|, t);
    } else if t < ConsumerStep(l.tdg, |l.tdg.nodes|) {
      ConsumerOf(l.tdg, |l.tdg.nodes|, t);
    } else {
      OnlyRestartsLeft(l, x, t);
    }
  }

  lemma OnlyRestartsLeft(l: L.Lowering, x: Stages, t: nat)
    requires IsNetOf(l) && ValidTdg(l.tdg) && StagesBuilt(l.tdg, x) && Resourced(l.tdg, x.restarted, l.Sketched())
    requires ChainsAre(l.tdg, l.chains) && ConsumerStep(l.tdg, |l.tdg.nodes|) <= t < |x.restarted.transitions|
    ensures l.tdg.policy.Restart? && exists high: nat, low: nat, pos: nat :: SendsBack(l, t, high, low, pos)
  {
    hide IsNetOf, Resourced, StagesBuilt, ChainsAre, SendsBack;
    BindingSizes(l.tdg, x);
    LastIsRestart(l.tdg, x, t);
    var high: nat, low: nat, pos: nat :| RestartAt(l.tdg, x.restarted, t, high, low, pos);
    RestartInTheNet(l, x, t, high, low, pos);
  }

  lemma LastIsRestart(tdg: Tdg, x: Stages, t: nat)
    requires ValidTdg(tdg) && StagesBuilt(tdg, x) && |x.bound.transitions| <= t < |x.restarted.transitions|
    ensures tdg.policy.Restart? && SomeRestart(tdg, x.restarted, t)
  {
  }

  // ------------------------------------------------------------------------ firing

  /** m turns into r by one token that moves from p to q. */
  ghost predicate MovesToken(net: Net, m: Marking, r: Marking, p: nat, q: nat) {
    && |r| == |m| && p < |m| && q < |m| && q < |net.places| && r[p] == m[p] - 1
    && (if Within(m[q] + 1, net.places[q].capacity) then r[q] == m[q] + 1 else Fin(r[q]) == net.places[q].capacity)
    && forall x: nat :: x < |m| && x != p && x != q ==> r[x] == m[x]
  }

  lemma FiringMovesToken(l: L.Lowering, t: nat, p: nat, q: nat, m: Marking)
    requires l.Lowered() && Moves(l, t, {p}, {q}) && p != q && ValidNet(l.net.ToNet(l.parallelism))
    requires ValidMarking(l.net.ToNet(l.parallelism), m) && Enabled(l.net.ToNet(l.parallelism), m, t)
    ensures MovesToken(l.net.ToNet(l.parallelism), m, FireMarking(l.net.ToNet(l.parallelism), m, t), p, q)
  {
    var net, s := l.net.ToNet(l.parallelism), l.net.Contents();
    var r := FireMarking(net, m, t);
    MutualExclusion.NetIsValid(l);
    forall x: nat | x < |m|
      ensures x != q ==> r[x] == if x == p then m[x] - 1 else m[x]
      ensures x == q ==>
        if Within(m[x] + 1, net.places[x].capacity) then r[x] == m[x] + 1 else Fin(r[x]) == net.places[x].capacity
    {
      var u, w := if x == p then 1 else 0, if x == q then 1 else 0;
      FiringMoves(net, m, t, x);
      FiringArcs(net, s, t, x);
      CarriesWeight(net.preArcs[t], |net.places|, x, u);
      CarriesWeight(net.postArcs[t], |net.places|, x, w);
      assert Carries(net.preArcs[t], x, u) && Carries(net.postArcs[t], x, w);
    }
    assert p in In(s, t) && q in Out(s, t);
  }

  /** Firing a bridge moves one token from the last place of the source to the first
      of the target, and nothing else, as long as no monitor misreads its index. */
  lemma BridgeFires(l: L.Lowering, k: nat, m: Marking)
    requires IsNetOf(l) && ValidTdg(l.tdg) && k < |l.tdg.edges| && ValidNet(l.net.ToNet(l.parallelism))
    requires ValidLink(l.tdg, l.tdg.edges[k]) && IsBridge(l.tdg, l.tdg.edges[k])
    requires Misread(l.tdg, |l.tdg.edges|, EdgeStep(l.tdg, k)) == {}
    requires ValidMarking(l.net.ToNet(l.parallelism), m)
    requires Enabled(l.net.ToNet(l.parallelism), m, EdgeStep(l.tdg, k))
    ensures |l.chains| == |l.tdg.nodes|
    ensures
      var e, net := l.tdg.edges[k], l.net.ToNet(l.parallelism);
      MovesToken(net, m, FireMarking(net, m, EdgeStep(l.tdg, k)), ExitOf(l, e.source), EntryOf(l, e.target))
  {
    var e, t := l.tdg.edges[k], EdgeStep(l.tdg, k);
    BridgeIs(l, k);
    EndsOf(l, e.source);
    EndsOf(l, e.target);
    PlacesApart(l.tdg, e.source, e.target);
    assert {ExitOf(l, e.source)} + {} == {ExitOf(l, e.source)};
    FiringMovesToken(l, t, ExitOf(l, e.source), EntryOf(l, e.target), m);
  }

  lemma PlacesApart(tdg: Tdg, n: nat, m: nat)
    requires n < |tdg.nodes| && m < |tdg.nodes| && n != m
    requires !tdg.nodes[n].ControlNode? && !tdg.nodes[m].ControlNode?
    ensures Exit(tdg, n) != Entry(tdg, m)
  {
    if n < m {
      NodeBelow(tdg, n, m);
    } else {
      NodeBelow(tdg, m, n);
    }
  }
}
