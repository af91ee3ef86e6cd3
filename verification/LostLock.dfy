/** A task graph whose restarts lose a lock, and a run of its net that does. */
module LostLock {
  import opened Blueprint
  import opened Bounds
  import opened Conservation
  import opened Coverage
  import opened MutualExclusion
  import opened PetriNet
  import opened Scheduling
  import opened Semantics
  import opened StateClasses
  import opened TaskGraph
  import opened Wiring
  import L = Lowering

  /** Task 0 takes lock 0 for four units of time; task 1 outranks it on the same
      core and is released two units after the start. */
  function Low(): Task {
    Task(0, 1, [(0, 0), (4, 4), (1, 1)], [Lock(0, false)])
  }

  function High(): Task {
    Task(0, 2, [(1, 1)], [])
  }

  function Graph(): Tdg {
    Tdg(1, 1, 1, Restart, [TaskNode(Low()), TaskNode(High())], [], [(0, 1)], [], [(1, 2)], 1)
  }

  // ----------------------------------------------------------------------- its net

  const PLACE := Place(Fin(1), true)
  const FULL := Place(Fin(1), false)

  function Exec(task: Task, k: nat): Transition
    requires k < |task.times|
  {
    ExecTransition(task, k, false)
  }

  /** After the nodes. */
  function Chains(): Draft {
    Draft(
      Sketch(
        [PLACE, PLACE, PLACE, PLACE, PLACE, PLACE, PLACE, PLACE, PLACE],
        [0, 0, 0, 0, 0, 0, 0, 0, 0],
        [StepTransition(Low()), Exec(Low(), 0), StepTransition(Low()), Exec(Low(), 1), Exec(Low(), 2),
         StepTransition(High()), Exec(High(), 0)],
        [{0}, {1}, {2}, {3}, {4}, {6}, {7}],
        [{1}, {2}, {3}, {4}, {5}, {7}, {8}]),
      [[0, 0, 1, 1, 2, 2, 3, 3, 4, 4, 5], [6, 5, 7, 6, 8]],
      [(0, 5), (6, 8)])
  }

  lemma LowDrawn()
    ensures TaskStrand(Blank().sketch, Low(), false, 1) == Strand(First().sketch, Chains().chains[0])
  {
    var c0 := Longer(Started(Blank().sketch, 1), StepTransition(Low()), 1);
    var c1 := Segment(c0, Low(), false, 1, 0);
    var c2 := Segment(c1, Low(), false, 1, 1);
    var c3 := Segment(c2, Low(), false, 1, 2);
    assert c0.sketch.ins == [{0}] && c0.chain == [0, 0, 1];
    assert c1.sketch.ins == [{0}, {1}, {2}] && c1.chain == [0, 0, 1, 1, 2, 2, 3];
    assert c2.sketch.ins == [{0}, {1}, {2}, {3}] && c2.chain == [0, 0, 1, 1, 2, 2, 3, 3, 4];
    assert Segments(c0, Low(), false, 1, 0) == c0;
    assert Segments(c0, Low(), false, 1, 1) == c1;
    assert Segments(c0, Low(), false, 1, 2) == c2;
    assert Segments(c0, Low(), false, 1, 3) == c3;
  }

  lemma HighDrawn(v: Sketch)
    requires |v.places| == 6 && |v.transitions| == 5
    ensures
      TaskStrand(v, High(), false, 1)
        == Strand(Sketch(v.places + [PLACE, PLACE, PLACE], v.initial + [0, 0, 0],
                         v.transitions + [StepTransition(High()), Exec(High(), 0)],
                         v.ins + [{6}, {7}], v.outs + [{7}, {8}]), [6, 5, 7, 6, 8])
  {
    var c0 := Longer(Started(v, 1), StepTransition(High()), 1);
    var c1 := Segment(c0, High(), false, 1, 0);
    assert c0.chain == [6, 5, 7];
    assert Segments(c0, High(), false, 1, 0) == c0;
    assert Segments(c0, High(), false, 1, 1) == c1;
  }

  function Blank(): Draft {
    Draft(Sketch([], [], [], [], []), [], [])
  }

  function First(): Draft {
    var d := Chains();
    Draft(Sketch(d.sketch.places[..6], d.sketch.initial[..6], d.sketch.transitions[..5],
                 d.sketch.ins[..5], d.sketch.outs[..5]),
          [d.chains[0]], [(0, 5)])
  }

  lemma FirstDrawn()
    ensures NodeDraft(Graph(), Blank(), TaskNode(Low())) == Some(First())
  {
    LowDrawn();
    assert Executable(Low());
    var r := NodeDraft(Graph(), Blank(), TaskNode(Low()));
    assert r == Some(WithNode(Blank(), First().sketch, Chains().chains[0], (0, 5)));
    assert r.value.chains == First().chains && r.value.ends == First().ends;
  }

  lemma SecondDrawn()
    ensures NodeDraft(Graph(), First(), TaskNode(High())) == Some(Chains())
  {
    HighDrawn(First().sketch);
    assert Executable(High());
    var r := NodeDraft(Graph(), First(), TaskNode(High()));
    assert r.value.chains == Chains().chains && r.value.ends == Chains().ends;
    assert r.value.sketch == Chains().sketch;
  }

  lemma NodesDrawn()
    ensures NodeDrafts(Graph(), 2) == Some(Chains())
  {
    hide NodeDraft;
    FirstDrawn();
    SecondDrawn();
    assert NodeDrafts(Graph(), 0) == Some(Blank());
    assert NodeDrafts(Graph(), 1) == Some(First());
  }

  /** Before preemption: tokens, the periodic release, and two consumers. */
  function Bound(): Sketch {
    var d, now := Chains().sketch, ControlTransition(Immediate());
    var release := ControlTransition(Interval(2, Fin(2), false, false));
    Sketch(d.places + [PLACE], d.initial[0 := 1] + [1], d.transitions + [release, now, now],
           d.ins + [{9}, {5}, {8}], d.outs + [{9, 6}, {}, {}])
  }

  lemma BindingsDrawn()
    ensures ValidTdg(Graph())
    ensures
      var d := Chains();
      var filled := StartsFilled(Graph(), d.sketch, d.ends, 1);
      AllConsumed(Graph(), AllReleased(Graph(), filled, d.ends, 1), d.ends, 2) == Bound()
  {
    var d := Chains();
    assert ValidTdg(Graph());
    var filled := StartsFilled(Graph(), d.sketch, d.ends, 1);
    assert StartsFilled(Graph(), d.sketch, d.ends, 0) == d.sketch;
    assert filled == WithTokens(d.sketch, 0, 1);
    var released := AllReleased(Graph(), filled, d.ends, 1);
    assert !ReleasesItself(Graph(), 1);
    assert AllReleased(Graph(), filled, d.ends, 0) == filled;
    assert released == Released(filled, 6, 2);
    assert Consumed(Graph(), 0) && Consumed(Graph(), 1);
    assert AllConsumed(Graph(), released, d.ends, 0) == released;
    var one := WithTransition(released, ControlTransition(Immediate()), {5}, {});
    assert AllConsumed(Graph(), released, d.ends, 1) == one;
  }

  /** With the two restarts: from ready, and from holding the lock. */
  function Restarting(): Sketch {
    var v, restart := Bound(), Transition(Immediate(), 2, 0, false);
    var marked := v.transitions[1 := v.transitions[1].(suspendable := true)];
    v.(transitions := marked[7 := marked[7].(suspendable := true)] + [restart, restart],
       ins := v.ins + [{6, 1}, {6, 3}], outs := v.outs + [{7, 0}, {7, 0}])
  }

  lemma RestartsDrawn()
    ensures AllPreempted(Bound(), Graph(), Chains().chains, 1) == Restarting()
  {
    var v, chains := Bound(), Chains().chains;
    assert Ranking(Graph(), 0, 0) == [] && Ranking(Graph(), 0, 1) == [0];
    assert Insert(Graph(), [0], 1) == Insert(Graph(), [], 1) + [0];
    assert Ranking(Graph(), 0, 2) == [1, 0];
    RankingTasks(Graph(), 0, 2);
    assert SpinFree([]) == 0 && Low().locks[..0] == [] && SpinFree(Low().locks) == 1;
    var ready := SentBack(WithSuspendable(v, 1), Graph(), chains, 1, 0, 2);
    assert HoldingPreempted(ready, Graph(), chains, 1, 0, 0) == ready;
    var holding := SentBack(WithSuspendable(ready, 7), Graph(), chains, 1, 0, 6);
    assert HoldingPreempted(ready, Graph(), chains, 1, 0, 1) == holding;
    assert TaskPreempted(v, Graph(), chains, 1, 0) == holding;
    var tasks := [1, 0];
    assert RowPreempted(v, Graph(), chains, tasks, 0, 1) == v;
    assert RowPreempted(v, Graph(), chains, tasks, 0, 2) == holding;
    assert RowPreempted(holding, Graph(), chains, tasks, 1, 2) == holding;
    assert CorePreempted(v, Graph(), chains, tasks, 0) == v;
    assert CorePreempted(v, Graph(), chains, tasks, 1) == holding;
    assert CorePreempted(v, Graph(), chains, tasks, 2) == holding;
    assert AllPreempted(v, Graph(), chains, 0) == v;
    assert holding == Restarting();
  }

  /** Place 10 is the processor, place 11 the lock. */
  function WithProcessor(): Sketch {
    var v := Restarting();
    v.(places := v.places + [FULL, FULL], initial := v.initial + [1, 1],
       ins := [{0, 10}, {1}, {2}, {3}, {4}, {6, 10}, {7}, {9}, {5}, {8}, {6, 1}, {6, 3}],
       outs := [{1}, {2}, {3}, {4}, {5, 10}, {7}, {8, 10}, {9, 6}, {}, {}, {7, 0}, {7, 0}])
  }

  /** The whole net. */
  function Final(): Sketch {
    var v := WithProcessor();
    v.(ins := v.ins[2 := {2, 11}], outs := v.outs[3 := {4, 11}])
  }

  lemma BoundAt(v: Sketch, p: nat, chain: seq<nat>, acquire: nat, release: nat, t: nat, u: nat)
    requires p < |v.places| && acquire < |chain| && release < |chain| && chain[acquire] == t && chain[release] == u
    requires t < |v.ins| && u < |v.outs|
    ensures BoundTo(v, p, chain, acquire, release)
      == v.(ins := v.ins[t := v.ins[t] + {p}], outs := v.outs[u := v.outs[u] + {p}])
  {
  }

  lemma ProcessorDrawn(v: Sketch)
    requires v == WithPlace(WithPlace(Restarting(), FULL, 1), FULL, 1)
    ensures CpusBound(v, Graph(), Chains().chains, 10, 2) == WithProcessor()
  {
    hide BoundTo;
    var chains := Chains().chains;
    assert v.ins == [{0}, {1}, {2}, {3}, {4}, {6}, {7}, {9}, {5}, {8}, {6, 1}, {6, 3}];
    assert v.outs == [{1}, {2}, {3}, {4}, {5}, {7}, {8}, {9, 6}, {}, {}, {7, 0}, {7, 0}];
    assert CpusBound(v, Graph(), chains, 10, 0) == v;
    var low := v.(ins := v.ins[0 := {0} + {10}], outs := v.outs[4 := {5} + {10}]);
    BoundAt(v, 10, chains[0], 1, 9, 0, 4);
    assert CpusBound(v, Graph(), chains, 10, 1) == low;
    var high := low.(ins := low.ins[5 := {6} + {10}], outs := low.outs[6 := {8} + {10}]);
    BoundAt(low, 10, chains[1], 1, 3, 5, 6);
    assert CpusBound(v, Graph(), chains, 10, 2) == high;
    assert {0} + {10} == {0, 10} && {6} + {10} == {6, 10} && {5} + {10} == {5, 10} && {8} + {10} == {8, 10};
  }

  lemma LockDrawn()
    ensures LocksBound(WithProcessor(), Graph(), Chains().chains, 11, 2) == Final()
  {
    var chains, v := Chains().chains, WithProcessor();
    var locked := BoundTo(v, 11, chains[0], 5, 7);
    assert locked == v.(ins := v.ins[2 := {2} + {11}], outs := v.outs[3 := {4} + {11}]);
    assert {2} + {11} == {2, 11} && {4} + {11} == {4, 11};
    assert TaskLocksBound(v, Low().locks, chains[0], 11, 0) == v;
    assert TaskLocksBound(v, Low().locks, chains[0], 11, 1) == locked;
    assert TaskLocksBound(locked, High().locks, chains[1], 11, 0) == locked;
    assert LocksBound(v, Graph(), chains, 11, 0) == v;
    assert LocksBound(v, Graph(), chains, 11, 1) == locked;
    assert LocksBound(v, Graph(), chains, 11, 2) == locked;
  }

  lemma ResourcesDrawn()
    ensures WithResources(Restarting(), Graph(), Chains().chains) == Final()
  {
    var v := Restarting();
    assert Resources(v, 0, 1) == v;
    var cpus := WithPlace(v, FULL, 1);
    assert Resources(v, 1, 1) == cpus && Resources(cpus, 0, 1) == cpus;
    var places := WithPlace(cpus, FULL, 1);
    assert Resources(cpus, 1, 1) == places;
    ProcessorDrawn(places);
    LockDrawn();
  }

  lemma GraphDrawn()
    ensures ValidTdg(Graph()) && Drawn(Graph()) == Some(Final())
  {
    NodesDrawn();
    BindingsDrawn();
    RestartsDrawn();
    ResourcesDrawn();
  }

  /** The restart that sends task 0 back from holding the lock is to mark the segment
      that runs then, transition 3 at chain position 7; it marks transition 7, the
      periodic release of task 1. */
  lemma MarksTheRelease()
    ensures Drawn(Graph()) == Some(Final()) && Chains().chains[0][ReleasePos(11, 0)] == 3
    ensures !Final().transitions[3].suspendable
    ensures Final().transitions[7] == ControlTransition(Interval(2, Fin(2), false, false)).(suspendable := true)
  {
    GraphDrawn();
    hide Drawn;
    MarkedTransitions();
  }

  lemma MarkedTransitions()
    ensures Chains().chains[0][ReleasePos(11, 0)] == 3 && |Final().transitions| == 12
    ensures !Final().transitions[3].suspendable
    ensures Final().transitions[7] == ControlTransition(Interval(2, Fin(2), false, false)).(suspendable := true)
  {
  }

  // ----------------------------------------------------------------------- its run

  ghost predicate IsNet(net: Net) {
    Shows(net, Final()) && net.parallelism == map[]
  }

  /** Which transitions are enabled, and where their tokens go. */
  lemma Arcs(net: Net)
    requires IsNet(net)
    ensures ValidNet(net) && |net.places| == 12 && |net.transitions| == 12
    ensures net.transitions == Final().transitions
    ensures Final().ins == [{0, 10}, {1}, {2, 11}, {3}, {4}, {6, 10}, {7}, {9}, {5}, {8}, {6, 1}, {6, 3}]
    ensures Final().outs == [{1}, {2}, {3}, {4, 11}, {5, 10}, {7}, {8, 10}, {9, 6}, {}, {}, {7, 0}, {7, 0}]
    ensures forall p: nat :: p < 12 ==> Le(Fin(1), Final().places[p].capacity)
  {
    var s :| ShowsBy(net, Final(), s);
  }

  /** The places that each transition takes from are marked. */
  predicate Needs(t: nat, places: set<nat>) {
    match t
    case 0 => 0 in places && 10 in places
    case 1 => 1 in places
    case 2 => 2 in places && 11 in places
    case 3 => 3 in places
    case 4 => 4 in places
    case 5 => 6 in places && 10 in places
    case 6 => 7 in places
    case 7 => 9 in places
    case 8 => 5 in places
    case 9 => 8 in places
    case 10 => 6 in places && 1 in places
    case 11 => 6 in places && 3 in places
    case _ => false
  }

  lemma NeedsIns(net: Net, t: nat, places: set<nat>)
    requires IsNet(net) && t < 12
    ensures |Final().ins| == |Final().outs| == 12 && (Needs(t, places) <==> Final().ins[t] <= places)
  {
    hide Final;
    hide Final, IsNet, Steps;
    Arcs(net);
  }

  lemma EnabledBy(net: Net, places: set<nat>, t: nat)
    requires IsNet(net)
    ensures Enabled(net, Tokens(12, places), t) <==> t < 12 && Needs(t, places)
  {
    hide Final, Needs;
    Arcs(net);
    EnabledShown(net, Final(), Tokens(12, places), t);
    if t < 12 {
      NeedsIns(net, t, places);
      assert forall p: nat :: p in Final().ins[t] ==> p < 12;
    }
  }

  /** Tasks run on core 0; task 1 and the restarts have the highest priority. */
  function CoreOf(t: nat): int {
    if t < 7 || t >= 10 then 0 else -1
  }

  function RankOf(t: nat): int {
    if t < 5 then 1 else if 7 <= t < 10 then 0 else 2
  }

  /** When a transition fires, counted from when it is enabled. */
  function DueOf(t: nat): int {
    if t == 3 then 4 else if t == 7 then 2 else if t == 4 || t == 6 then 1 else 0
  }

  lemma TransitionFacts(net: Net, t: nat)
    requires IsNet(net) && t < 12
    ensures |net.transitions| == 12 && net.transitions[t].core == CoreOf(t) && net.transitions[t].priority == RankOf(t)
    ensures Earliest(net, t) == DueOf(t) && Latest(net, t) == Fin(DueOf(t))
  {
    var s :| ShowsBy(net, Final(), s);
  }

  /** Nothing on its core that is enabled has a higher priority. */
  predicate Foremost(t: nat, places: set<nat>) {
    && t < 12 && Needs(t, places)
    && forall u: nat :: u < 12 && Needs(u, places) && CoreOf(u) == CoreOf(t) ==> RankOf(u) <= RankOf(t)
  }

  lemma ActiveBy(net: Net, places: set<nat>, t: nat)
    requires IsNet(net) && Foremost(t, places)
    ensures ValidNet(net) && Active(net, Tokens(12, places), t)
  {
    hide IsNet, Needs;
    TransitionFacts(net, t);
    EnabledBy(net, places, t);
    forall u: nat | Enabled(net, Tokens(12, places), u) && SameCore(net, u, t)
      ensures net.transitions[u].priority <= net.transitions[t].priority
    {
      TransitionFacts(net, u);
      EnabledBy(net, places, u);
    }
    Unbounded(net);
  }

  lemma Unbounded(net: Net)
    requires IsNet(net)
    ensures net.parallelism == map[] && ValidNet(net) && |net.places| == 12
  {
    var s :| ShowsBy(net, Final(), s);
  }

  /** t takes its tokens from before, which leaves after. */
  ghost predicate MovesTo(t: nat, before: set<nat>, after: set<nat>) {
    && t < 12 && Final().ins[t] <= before && Final().outs[t] * (before - Final().ins[t]) == {}
    && after == before - Final().ins[t] + Final().outs[t]
  }

  lemma FiresTo(net: Net, t: nat, before: set<nat>, after: set<nat>)
    requires IsNet(net) && MovesTo(t, before, after)
    ensures ValidNet(net) && |net.places| == 12 && t < |net.transitions|
    ensures FireMarking(net, Tokens(12, before), t) == Tokens(12, after)
  {
    Arcs(net);
    FiringShown(net, Final(), t, before);
  }

  /** The clocks of all enabled transitions may advance by d. */
  ghost predicate Timely(c: Config, places: set<nat>, d: int) {
    && c.marking == Tokens(12, places)
    && forall u: nat :: u < 12 && Needs(u, places) ==>
         Execution(u) in c.clocks && c.clocks[Execution(u)] + d <= DueOf(u)
  }

  lemma Waits(net: Net, c: Config, d: nat, before: set<nat>)
    requires IsNet(net) && ValidNet(net) && ValidConfig(net, c) && Timely(c, before, d)
    ensures CanDelay(net, c, d)
  {
    hide IsNet, Needs;
    forall u: nat | Active(net, c.marking, u)
      ensures Within(c.clocks[Execution(u)] + d, Latest(net, u))
    {
      EnabledBy(net, before, u);
      TransitionFacts(net, u);
    }
  }

  lemma Go(net: Net, c: Config, d: nat, t: nat, before: set<nat>, after: set<nat>) returns (next: Config)
    requires IsNet(net) && ValidNet(net) && ValidConfig(net, c) && Timely(c, before, d)
    requires Foremost(t, before) && MovesTo(t, before, after) && c.clocks[Execution(t)] + d == DueOf(t)
    ensures Steps(net, c, Step(d, t), next) && ValidConfig(net, next) && next.marking == Tokens(12, after)
    ensures forall x: ClockVar :: x in next.clocks ==>
      next.clocks[x] == (if x in c.clocks && x.transition != t then Delay(net, c, d).clocks[x] else 0)
  {
    hide IsNet, Needs, MovesTo, CanDelay, CanFire, FireConfig;
    Waits(net, c, d, before);
    Fires(net, c, d, t, before);
    FiresTo(net, t, before, after);
    next := TakeStep(net, c, Step(d, t));
  }

  lemma Fires(net: Net, c: Config, d: nat, t: nat, before: set<nat>)
    requires IsNet(net) && ValidNet(net) && ValidConfig(net, c) && Timely(c, before, d)
    requires Foremost(t, before) && c.clocks[Execution(t)] + d == DueOf(t)
    ensures CanFire(net, Delay(net, c, d), t)
  {
    hide IsNet, Needs, Active;
    ActiveBy(net, before, t);
    TransitionFacts(net, t);
    HasClocks(net, c, before, t);
  }

  ghost predicate AllZero(c: Config) {
    forall x: ClockVar :: x in c.clocks ==> c.clocks[x] == 0
  }

  /** Every enabled transition has its clock. */
  lemma HasClocks(net: Net, c: Config, places: set<nat>, t: nat)
    requires IsNet(net) && ValidNet(net) && ValidConfig(net, c) && c.marking == Tokens(12, places)
    ensures Execution(t) in c.clocks <==> t < 12 && Needs(t, places)
  {
    hide IsNet, Needs;
    EnabledBy(net, places, t);
    assert HasClock(net, c.marking, Execution(t)) <==> Enabled(net, c.marking, t);
  }

  /** An immediate transition of highest priority, all clocks at zero. */
  lemma GoNow(net: Net, c: Config, t: nat, before: set<nat>, after: set<nat>) returns (next: Config)
    requires IsNet(net) && ValidNet(net) && ValidConfig(net, c) && AllZero(c) && c.marking == Tokens(12, before)
    requires Foremost(t, before) && MovesTo(t, before, after) && DueOf(t) == 0
    ensures Steps(net, c, Step(0, t), next) && ValidConfig(net, next) && AllZero(next)
      && next.marking == Tokens(12, after)
  {
    hide IsNet, Needs, MovesTo;
    forall u: nat | u < 12 && Needs(u, before)
      ensures Execution(u) in c.clocks
    {
      HasClocks(net, c, before, u);
    }
    next := Go(net, c, 0, t, before, after);
  }

  /** The places that are marked along the run: task 0 takes processor and lock,
      task 1 is released and sends it back. */
  function Marked(i: nat): set<nat> {
    match i
    case 0 => {0, 9, 10, 11}
    case 1 => {1, 9, 11}
    case 2 => {2, 9, 11}
    case 3 => {3, 9}
    case 4 => {3, 6, 9}
    case _ => {0, 7, 9}
  }

  function Fired(i: nat): nat {
    match i
    case 0 => 0
    case 1 => 1
    case 2 => 2
    case 3 => 7
    case _ => 11
  }

  lemma Planned(i: nat)
    requires i < 5
    ensures Foremost(Fired(i), Marked(i)) && MovesTo(Fired(i), Marked(i), Marked(i + 1))
  {
  }

  /** One of the first three steps. */
  lemma Advances(net: Net, c: Config, i: nat) returns (next: Config)
    requires IsNet(net) && ValidNet(net) && i < 3
    requires ValidConfig(net, c) && AllZero(c) && c.marking == Tokens(12, Marked(i))
    ensures Steps(net, c, Step(0, Fired(i)), next)
    ensures ValidConfig(net, next) && AllZero(next) && next.marking == Tokens(12, Marked(i + 1))
  {
    hide IsNet, Marked, Foremost, MovesTo, Steps, ValidConfig;
    Planned(i);
    next := GoNow(net, c, Fired(i), Marked(i), Marked(i + 1));
  }

  lemma Starts(net: Net)
    requires IsNet(net)
    ensures ValidNet(net) && ValidConfig(net, InitialConfig(net)) && AllZero(InitialConfig(net))
    ensures InitialConfig(net).marking == Tokens(12, Marked(0))
  {
    hide IsNet;
    InitialTokens(net);
  }

  lemma InitialTokens(net: Net)
    requires IsNet(net)
    ensures ValidNet(net) && net.initial == Tokens(12, Marked(0))
  {
    var s :| ShowsBy(net, Final(), s);
    assert net.initial == [1, 0, 0, 0, 0, 0, 0, 0, 0, 1, 1, 1];
  }

  lemma SameClocks(net: Net, c: Config, i: nat)
    requires IsNet(net) && ValidNet(net) && ValidConfig(net, c) && c.marking == Tokens(12, Marked(i))
    ensures forall u: nat :: u < 12 ==> (Execution(u) in c.clocks <==> Needs(u, Marked(i)))
  {
    hide IsNet, Marked;
    forall u: nat | u < 12
      ensures Execution(u) in c.clocks <==> Needs(u, Marked(i))
    {
      HasClocks(net, c, Marked(i), u);
    }
  }

  /** Two units later task 1 is released. */
  lemma IsReleased(net: Net, c: Config) returns (next: Config)
    requires IsNet(net) && ValidNet(net) && ValidConfig(net, c) && AllZero(c) && c.marking == Tokens(12, Marked(3))
    ensures Steps(net, c, Step(2, 7), next) && ValidConfig(net, next) && next.marking == Tokens(12, Marked(4))
    ensures Timely(next, Marked(4), 0) && Execution(11) in next.clocks && next.clocks[Execution(11)] == 0
  {
    hide IsNet, MovesTo, Foremost, Steps, ValidConfig;
    SameClocks(net, c, 3);
    Planned(3);
    next := Go(net, c, 2, 7, Marked(3), Marked(4));
    SameClocks(net, next, 4);
    assert Execution(11) !in c.clocks && next.clocks[Execution(11)] == 0;
  }

  lemma Reaches(net: Net)
    requires IsNet(net)
    ensures ValidNet(net) && Reachable(net, Tokens(12, Marked(5)))
  {
    hide IsNet, Steps, Timely, Marked, Needs, AllZero, MovesTo, Foremost, ValidConfig, InitialConfig, ValidNet;
    Starts(net);
    var c0 := InitialConfig(net);
    var c1 := Advances(net, c0, 0);
    var c2 := Advances(net, c1, 1);
    var c3 := Advances(net, c2, 2);
    var c4 := IsReleased(net, c3);
    Planned(4);
    var c5 := Go(net, c4, 0, 11, Marked(4), Marked(5));
    IsRunOf(net, c0, c1, c2, c3, c4, c5);
  }

  lemma IsRunOf(net: Net, c0: Config, c1: Config, c2: Config, c3: Config, c4: Config, c5: Config)
    requires ValidNet(net) && c0 == InitialConfig(net)
    requires Steps(net, c0, Step(0, 0), c1) && Steps(net, c1, Step(0, 1), c2) && Steps(net, c2, Step(0, 2), c3)
    requires Steps(net, c3, Step(2, 7), c4) && Steps(net, c4, Step(0, 11), c5)
    ensures Reachable(net, c5.marking)
  {
    hide Steps, InitialConfig, ValidNet;
    var configs, steps := [c0, c1, c2, c3, c4, c5], [Step(0, 0), Step(0, 1), Step(0, 2), Step(2, 7), Step(0, 11)];
    assert IsInitialRun(net, configs, steps) && configs[|steps|].marking == c5.marking;
  }

  // ----------------------------------------------------------------------- its loss

  /** The graph is lowered without an error. */
  method LowerGraph() returns (l: L.Lowering)
    ensures fresh(l) && IsLowered(l)
  {
    GraphDrawn();
    l := new L.Lowering(Graph());
    var ok := l.Transform();
  }

  lemma GraphLoses()
    ensures ValidTdg(Graph()) && !KeepsLock(Graph(), 0)
  {
    var n: nat, i: nat := 0, 0;
    assert ValidTdg(Graph());
    assert Low().locks[..0] == [] && SpinFree(Low().locks) == 1;
    assert Outranks(Graph(), 1, n) && !Sheltered(Graph(), n, i);
  }

  ghost predicate IsLowered(l: L.Lowering)
    reads l, l.net
  {
    l.tdg == Graph() && l.Lowered() && l.AsDrawn()
  }

  lemma NetOfGraph(l: L.Lowering)
    requires IsLowered(l)
    ensures IsNet(l.net.ToNet(l.parallelism))
  {
    hide Wired, Final, NodeDrafts;
    GraphDrawn();
    NetIsValid(l);
    assert ShowsBy(l.net.ToNet(l.parallelism), Final(), l.net.Contents());
  }

  lemma ChainsOfGraph(l: L.Lowering)
    requires IsLowered(l)
    ensures l.chains == Chains().chains
  {
    hide Wired, Drawn, Chains;
    NodesDrawn();
  }

  lemma LockOfGraph(l: L.Lowering)
    requires IsLowered(l)
    ensures l.locksPlace == [11] && |l.net.places| == 12
  {
    hide Wired, NodeDrafts, Final;
    GraphDrawn();
    FinalSize();
    l.PlacesOwned();
  }

  lemma FinalSize()
    ensures |Final().places| == 12
  {
  }

  /** The only critical place is the one where task 0 holds the lock. */
  lemma CriticalPlace(l: L.Lowering, p: nat)
    requires IsLowered(l)
    ensures p == l.locksPlace[0] || IsCritical(l, 0, p) ==> p == 3 || p == 11
  {
    hide IsLowered;
    ChainsOfGraph(l);
    LockOfGraph(l);
    if n: nat, i: nat, j: nat :| InCriticalSection(l, 0, p, n, i, j) {
      GraphOf(l);
      assert n == 0 && i == 0 && j == 6;
    }
  }

  lemma GraphOf(l: L.Lowering)
    requires IsLowered(l)
    ensures l.tdg == Graph()
  {
  }

  /** A reachable marking in which the lock is neither free nor held by anyone. */
  lemma LockIsLost(l: L.Lowering)
    requires IsLowered(l)
    ensures ValidNet(l.net.ToNet(l.parallelism)) && Reachable(l.net.ToNet(l.parallelism), Tokens(12, Marked(5)))
    ensures forall p: nat :: p < 12 && (p == l.locksPlace[0] || IsCritical(l, 0, p)) ==> Tokens(12, Marked(5))[p] == 0
  {
    hide IsLowered, IsNet, IsCritical;
    LockOfGraph(l);
    NetOfGraph(l);
    Reaches(l.net.ToNet(l.parallelism));
    forall p: nat | p < 12 && (p == l.locksPlace[0] || IsCritical(l, 0, p))
      ensures Tokens(12, Marked(5))[p] == 0
    {
      CriticalPlace(l, p);
    }
  }

  lemma SectionEmpty(l: L.Lowering)
    requires IsLowered(l)
    ensures |l.locksPlace| == 1 && TokensIn(Tokens(12, Marked(5)), Section(l.plan, l.locksPlace[0]), 12) == 0
  {
    hide IsNet, IsCritical, Wired;
    LockOfGraph(l);
    LockIsLost(l);
    forall p: nat | p < 12 && p in Section(l.plan, l.locksPlace[0])
      ensures Tokens(12, Marked(5))[p] == 0
    {
      LockSection(l, 0, p);
    }
    NoTokens(Tokens(12, Marked(5)), Section(l.plan, l.locksPlace[0]), 12);
  }

  lemma GraphTasks()
    ensures IsTask(Graph(), 0) && |Graph().nodes[0].task.locks| == 1 && Graph().nodes[0].task.locks[0].id == 0
    ensures forall n: nat :: IsTask(Graph(), n) ==> DistinctLocks(Graph().nodes[n].task)
  {
  }

  lemma NotEnabledAgain(l: L.Lowering, configs: seq<Config>, steps: seq<Step>)
    requires IsLowered(l) && ValidNet(l.net.ToNet(l.parallelism))
    requires IsRun(l.net.ToNet(l.parallelism), configs, steps) && configs[0].marking == Tokens(12, Marked(5))
    ensures |l.chains| > 0 && |l.chains[0]| > 5
    ensures !Enabled(l.net.ToNet(l.parallelism), configs[|steps|].marking, l.chains[0][5])
  {
    hide Wired, Section, Graph, Marked, Enabled;
    LockOfGraph(l);
    SectionEmpty(l);
    GraphTasks();
    assert AcquirePos(0) == 5;
    LostForGood(l, 0, configs, steps, 0, 0);
  }

  /** From there on task 0 never gets past asking for it. */
  lemma NeverTakenAgain(l: L.Lowering, configs: seq<Config>, steps: seq<Step>)
    requires IsLowered(l) && ValidNet(l.net.ToNet(l.parallelism))
    requires IsRun(l.net.ToNet(l.parallelism), configs, steps) && configs[0].marking == Tokens(12, Marked(5))
    ensures !Enabled(l.net.ToNet(l.parallelism), configs[|steps|].marking, 2)
  {
    hide IsLowered, IsRun, Enabled, Marked;
    NotEnabledAgain(l, configs, steps);
    ChainsOfGraph(l);
    assert Chains().chains[0][5] == 2;
  }
}
