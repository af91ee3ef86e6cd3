/** The net of a task graph, transition by transition: where each one is, what it takes
    from and what it gives to. */
module Built {
  import opened Blueprint
  import opened Bounds
  import opened PetriNet
  import opened TaskGraph

  // ------------------------------------------------------------------ numbering

  /** A task has three places more than three for each of its locks, and one
      transition less than places. */
  function PlacesOf(node: Node): nat {
    match node
    case TaskNode(task) => 3 * |task.locks| + 3
    case ControlNode(_, _, _) => 0
    case EmptyNode => 1
  }

  function StepsOf(node: Node): nat {
    match node
    case TaskNode(task) => 3 * |task.locks| + 2
    case ControlNode(_, _, _) => 1
    case EmptyNode => 0
  }

  /** The first place and the first transition of a node. */
  function FirstPlace(tdg: Tdg, n: nat): nat
    requires n <= |tdg.nodes|
  {
    if n == 0 then 0 else FirstPlace(tdg, n - 1) + PlacesOf(tdg.nodes[n - 1])
  }

  function FirstStep(tdg: Tdg, n: nat): nat
    requires n <= |tdg.nodes|
  {
    if n == 0 then 0 else FirstStep(tdg, n - 1) + StepsOf(tdg.nodes[n - 1])
  }

  /** Where a node is entered and left, if it has places. */
  function Entry(tdg: Tdg, n: nat): nat
    requires n < |tdg.nodes|
  {
    FirstPlace(tdg, n)
  }

  function Exit(tdg: Tdg, n: nat): nat
    requires n < |tdg.nodes|
  {
    FirstPlace(tdg, n) + if tdg.nodes[n].TaskNode? then 3 * |tdg.nodes[n].task.locks| + 2 else 0
  }

  // ----------------------------------------------------------------------- chains

  /** What a transition is apart from being suspendable. */
  predicate Alike(a: Transition, b: Transition) {
    a.interval == b.interval && a.priority == b.priority && a.core == b.core
  }

  /** w has the parts of v, with the same arcs, and perhaps more. */
  ghost predicate Contains(w: Sketch, v: Sketch) {
    && Even(v) && Even(w) && v.places <= w.places && |v.transitions| <= |w.transitions|
    && forall t: nat :: t < |v.transitions| ==> SameAt(v, w, t)
  }

  ghost predicate SameAt(v: Sketch, w: Sketch, t: nat) {
    && t < |v.ins| && t < |v.outs| && t < |v.transitions| && t < |w.ins| && t < |w.outs| && t < |w.transitions|
    && w.ins[t] == v.ins[t] && w.outs[t] == v.outs[t] && Alike(w.transitions[t], v.transitions[t])
  }

  lemma ContainsMore(u: Sketch, v: Sketch, w: Sketch)
    requires Contains(v, u) && Contains(w, v)
    ensures Contains(w, u)
  {
    forall t: nat | t < |u.transitions|
      ensures SameAt(u, w, t)
    {
      assert SameAt(u, v, t) && SameAt(v, w, t);
    }
  }

  ghost predicate PlaceIs(v: Sketch, p: nat, capacity: Bound, saturate: bool) {
    p < |v.places| && v.places[p] == Place(capacity, saturate)
  }

  ghost predicate Blank(initial: seq<int>) {
    forall p: nat :: p < |initial| ==> initial[p] == 0
  }

  /** c.chain is new in c.sketch: place i is place |v.places| + i, and transition i
      takes from it and gives to the next. */
  ghost predicate Linked(v: Sketch, c: Strand, capacity: int) {
    && Contains(c.sketch, v) && v.transitions <= c.sketch.transitions && |c.chain| % 2 == 1
    && (Blank(v.initial) ==> Blank(c.sketch.initial))
    && |c.sketch.places| == |v.places| + |c.chain| / 2 + 1 && |c.sketch.transitions| == |v.transitions| + |c.chain| / 2
    && forall i: nat :: i < |c.chain| ==> LinkAt(v, c, capacity, i)
  }

  ghost predicate LinkAt(v: Sketch, c: Strand, capacity: int, i: nat) {
    && i < |c.chain|
    && if i % 2 == 0 then c.chain[i] == |v.places| + i / 2 && PlaceIs(c.sketch, c.chain[i], Fin(capacity), true)
       else
         var t := |v.transitions| + i / 2;
         && c.chain[i] == t && t < |c.sketch.ins| && t < |c.sketch.outs|
         && c.sketch.ins[t] == {|v.places| + i / 2} && c.sketch.outs[t] == {|v.places| + i / 2 + 1}
  }

  lemma StartedLinked(v: Sketch, capacity: int)
    requires Even(v)
    ensures Linked(v, Started(v, capacity), capacity)
  {
  }

  lemma LongerLinked(v: Sketch, c: Strand, transition: Transition, capacity: int)
    requires Linked(v, c, capacity)
    ensures Linked(v, Longer(c, transition, capacity), capacity)
  {
    var d := Longer(c, transition, capacity);
    assert LinkAt(v, c, capacity, |c.chain| - 1);
    forall t: nat | t < |v.transitions|
      ensures SameAt(v, d.sketch, t)
    {
      assert SameAt(v, c.sketch, t);
    }
    forall i: nat | i < |d.chain|
      ensures LinkAt(v, d, capacity, i)
    {
      assert i < |c.chain| ==> LinkAt(v, c, capacity, i);
    }
  }

  lemma {:induction false} SegmentsLinked(v: Sketch, c: Strand, task: Task, resume: bool, capacity: int, k: nat)
    requires Linked(v, c, capacity) && k <= |task.times|
    ensures Linked(v, Segments(c, task, resume, capacity, k), capacity)
  {
    if k > 0 {
      var before := Segments(c, task, resume, capacity, k - 1);
      SegmentsLinked(v, c, task, resume, capacity, k - 1);
      LongerLinked(v, before, ExecTransition(task, k - 1, resume), capacity);
      LongerLinked(v, Longer(before, ExecTransition(task, k - 1, resume), capacity), StepTransition(task), capacity);
    }
  }

  lemma TaskLinked(v: Sketch, task: Task, resume: bool, capacity: int)
    requires Even(v)
    ensures Linked(v, TaskStrand(v, task, resume, capacity), capacity)
  {
    StartedLinked(v, capacity);
    LongerLinked(v, Started(v, capacity), StepTransition(task), capacity);
    SegmentsLinked(v, Longer(Started(v, capacity), StepTransition(task), capacity), task, resume, capacity,
                   |task.times|);
  }

  // ------------------------------------------------------------------------- nodes

  /** Transition t has this interval, priority and core. */
  ghost predicate StepIs(v: Sketch, t: nat, interval: Interval, priority: int, core: int) {
    && t < |v.transitions| && v.transitions[t].interval == interval && v.transitions[t].priority == priority
    && v.transitions[t].core == core
  }

  /** Position i of the chain of a task. */
  ghost predicate ChainAt(tdg: Tdg, d: Draft, m: nat, i: nat) {
    && m < |tdg.nodes| && m < |d.chains| && i < |d.chains[m]|
    && var p, v := FirstPlace(tdg, m) + i / 2, d.sketch;
       if i % 2 == 0 then d.chains[m][i] == p && PlaceIs(v, p, Fin(tdg.capacity), true)
       else
         var t := FirstStep(tdg, m) + i / 2;
         && d.chains[m][i] == t && t < |v.ins| && t < |v.outs| && v.ins[t] == {p} && v.outs[t] == {p + 1}
  }

  ghost predicate NodeAt(tdg: Tdg, d: Draft, m: nat) {
    m < |tdg.nodes| && m < |d.chains| && m < |d.ends| &&
    match tdg.nodes[m]
    case TaskNode(task) =>
      && |d.chains[m]| == 6 * |task.locks| + 5 && d.ends[m] == (Entry(tdg, m), Exit(tdg, m))
      && (forall i: nat :: i < |d.chains[m]| ==> ChainAt(tdg, d, m, i))
      && SegmentsAt(d.chains[m], d.sketch.transitions, task, tdg.policy.Resume?, |task.times|)
    case ControlNode(interval, priority, core) =>
      var t := FirstStep(tdg, m);
      && d.chains[m] == [] && d.ends[m] == (t, t) && StepIs(d.sketch, t, interval, priority, core)
      && !d.sketch.transitions[t].suspendable
      && t < |d.sketch.ins| && t < |d.sketch.outs| && d.sketch.ins[t] == {} && d.sketch.outs[t] == {}
    case EmptyNode =>
      && d.chains[m] == [] && d.ends[m] == (Entry(tdg, m), Entry(tdg, m))
      && PlaceIs(d.sketch, Entry(tdg, m), Fin(1), false)
  }

  /** The first n nodes are where they belong. */
  ghost predicate NodesBuilt(tdg: Tdg, d: Draft, n: nat)
    requires n <= |tdg.nodes|
  {
    && |d.chains| == |d.ends| == n && Even(d.sketch) && Blank(d.sketch.initial)
    && |d.sketch.places| == FirstPlace(tdg, n) && |d.sketch.transitions| == FirstStep(tdg, n)
    && forall m: nat :: m < n ==> NodeAt(tdg, d, m)
  }

  lemma NodeKept(tdg: Tdg, d: Draft, e: Draft, m: nat)
    requires NodeAt(tdg, d, m) && Contains(e.sketch, d.sketch) && d.sketch.transitions <= e.sketch.transitions
    requires d.chains <= e.chains && d.ends <= e.ends && Even(d.sketch)
    ensures NodeAt(tdg, e, m)
  {
    assert e.chains[m] == d.chains[m] && e.ends[m] == d.ends[m];
    if tdg.nodes[m].TaskNode? {
      forall i: nat | i < |d.chains[m]|
        ensures ChainAt(tdg, e, m, i)
      {
        assert ChainAt(tdg, d, m, i);
        if i % 2 == 1 {
          assert SameAt(d.sketch, e.sketch, FirstStep(tdg, m) + i / 2);
        }
      }
      SegmentsKept(d.chains[m], d.sketch.transitions, e.sketch.transitions, tdg.nodes[m].task, tdg.policy.Resume?);
    } else if tdg.nodes[m].ControlNode? {
      assert SameAt(d.sketch, e.sketch, FirstStep(tdg, m));
    }
  }

  lemma SegmentsKept(chain: seq<nat>, before: seq<Transition>, after: seq<Transition>, task: Task, resume: bool)
    requires SegmentsAt(chain, before, task, resume, |task.times|) && before <= after
    ensures SegmentsAt(chain, after, task, resume, |task.times|)
  {
    forall j: nat | j < |task.times|
      ensures StepAt(chain, after, ExecPos(|task.locks|, j), ExecTransition(task, j, resume))
    {
      assert StepAt(chain, before, ExecPos(|task.locks|, j), ExecTransition(task, j, resume));
    }
    forall j: nat | j < |task.times| && j < |task.locks|
      ensures StepAt(chain, after, AcquirePos(j), StepTransition(task))
    {
      assert StepAt(chain, before, AcquirePos(j), StepTransition(task));
    }
  }

  lemma TaskAdded(tdg: Tdg, d: Draft, n: nat, task: Task)
    requires ValidTdg(tdg) && n < |tdg.nodes| && NodesBuilt(tdg, d, n) && tdg.nodes[n] == TaskNode(task)
    requires NodeDraft(tdg, d, tdg.nodes[n]).Some?
    ensures
      var e := NodeDraft(tdg, d, tdg.nodes[n]).value;
      && Contains(e.sketch, d.sketch) && d.sketch.transitions <= e.sketch.transitions && Blank(e.sketch.initial)
      && |e.sketch.places| == FirstPlace(tdg, n + 1) && |e.sketch.transitions| == FirstStep(tdg, n + 1)
      && NodeAt(tdg, e, n)
  {
    hide TaskStrand, SegmentsAt;
    var e, c := NodeDraft(tdg, d, tdg.nodes[n]).value, TaskStrand(d.sketch, task, tdg.policy.Resume?, tdg.capacity);
    TaskLinked(d.sketch, task, tdg.policy.Resume?, tdg.capacity);
    TaskLayout(d.sketch, task, tdg.policy.Resume?, tdg.capacity);
    assert IsTask(tdg, n) && ValidTask(tdg, task);
    LayoutLength(c.chain, c.sketch.transitions, task, tdg.policy.Resume?);
    assert e.chains[n] == c.chain;
    forall i: nat | i < |c.chain|
      ensures ChainAt(tdg, e, n, i)
    {
      assert LinkAt(d.sketch, c, tdg.capacity, i);
    }
    assert LinkAt(d.sketch, c, tdg.capacity, 0) && LinkAt(d.sketch, c, tdg.capacity, |c.chain| - 1);
  }

  lemma LayoutLength(chain: seq<nat>, transitions: seq<Transition>, task: Task, resume: bool)
    requires SegmentsAt(chain, transitions, task, resume, |task.times|) && |task.times| == 2 * |task.locks| + 1
    ensures |chain| == 6 * |task.locks| + 5
  {
  }

  /** One more node. */
  lemma NodeAdded(tdg: Tdg, d: Draft, n: nat)
    requires ValidTdg(tdg) && n < |tdg.nodes| && NodesBuilt(tdg, d, n) && NodeDraft(tdg, d, tdg.nodes[n]).Some?
    ensures NodesBuilt(tdg, NodeDraft(tdg, d, tdg.nodes[n]).value, n + 1)
  {
    var e := NodeDraft(tdg, d, tdg.nodes[n]).value;
    match tdg.nodes[n] {
      case TaskNode(task) => TaskAdded(tdg, d, n, task);
      case ControlNode(interval, priority, core) =>
      case EmptyNode =>
    }
    forall m: nat | m < n
      ensures NodeAt(tdg, e, m)
    {
      NodeKept(tdg, d, e, m);
    }
  }

  lemma {:induction false} AllNodesBuilt(tdg: Tdg, n: nat)
    requires ValidTdg(tdg) && n <= |tdg.nodes| && NodeDrafts(tdg, n).Some?
    ensures NodesBuilt(tdg, NodeDrafts(tdg, n).value, n)
  {
    if n > 0 {
      AllNodesBuilt(tdg, n - 1);
      NodeAdded(tdg, NodeDrafts(tdg, n - 1).value, n - 1);
    }
  }

  // ------------------------------------------------------------------------- edges

  /** The kinds of edges: deadline monitors, bridges between places, and arcs into
      and out of forks and joins. */
  predicate IsLoop(e: Link) {
    e.source == e.target
  }

  predicate IsBridge(tdg: Tdg, e: Link)
    requires ValidLink(tdg, e)
  {
    !IsLoop(e) && !e.dashed && !tdg.nodes[e.source].ControlNode? && !tdg.nodes[e.target].ControlNode?
  }

  predicate IsJoining(tdg: Tdg, e: Link)
    requires ValidLink(tdg, e)
  {
    !IsLoop(e) && !e.dashed && !tdg.nodes[e.source].ControlNode? && tdg.nodes[e.target].ControlNode?
  }

  predicate IsForking(tdg: Tdg, e: Link)
    requires ValidLink(tdg, e)
  {
    !IsLoop(e) && !e.dashed && tdg.nodes[e.source].ControlNode? && !tdg.nodes[e.target].ControlNode?
  }

  /** The first place and the first transition of an edge: a monitor has four of
      each, a bridge one transition. */
  function EdgePlace(tdg: Tdg, k: nat): nat
    requires k <= |tdg.edges|
  {
    if k == 0 then FirstPlace(tdg, |tdg.nodes|)
    else EdgePlace(tdg, k - 1) + if IsLoop(tdg.edges[k - 1]) then 4 else 0
  }

  function EdgeStep(tdg: Tdg, k: nat): nat
    requires ValidTdg(tdg) && k <= |tdg.edges|
  {
    if k == 0 then FirstStep(tdg, |tdg.nodes|)
    else
      var e := tdg.edges[k - 1];
      EdgeStep(tdg, k - 1) + if IsLoop(e) then 4 else if IsBridge(tdg, e) then 1 else 0
  }

  /** The deadline places of those of the first k edges whose monitor takes t for
      its "ok" place. */
  function Misread(tdg: Tdg, k: nat, t: nat): set<nat>
    requires k <= |tdg.edges|
  {
    set j: nat | j < k && IsLoop(tdg.edges[j]) && EdgePlace(tdg, j) + 2 == t :: EdgePlace(tdg, j)
  }

  /** What the first k edges bring to fork or join t. */
  function Joined(tdg: Tdg, k: nat, t: nat): set<nat>
    requires ValidTdg(tdg) && k <= |tdg.edges|
  {
    set j: nat | j < k && IsJoining(tdg, tdg.edges[j]) && FirstStep(tdg, tdg.edges[j].target) == t ::
      Exit(tdg, tdg.edges[j].source)
  }

  function Forked(tdg: Tdg, k: nat, t: nat): set<nat>
    requires ValidTdg(tdg) && k <= |tdg.edges|
  {
    set j: nat | j < k && IsForking(tdg, tdg.edges[j]) && FirstStep(tdg, tdg.edges[j].source) == t ::
      Entry(tdg, tdg.edges[j].target)
  }

  /** Where a monitor looks for the start and the end of its node. */
  function StartOf(tdg: Tdg, n: nat): nat
    requires n < |tdg.nodes|
  {
    if tdg.nodes[n].ControlNode? then FirstStep(tdg, n) else Entry(tdg, n)
  }

  function EndOf(tdg: Tdg, n: nat): nat
    requires n < |tdg.nodes|
  {
    if tdg.nodes[n].ControlNode? then FirstStep(tdg, n) else Exit(tdg, n)
  }

  /** The arcs and the timing of a transition. */
  ghost predicate Does(v: Sketch, t: nat, ins: set<nat>, outs: set<nat>, interval: Interval, priority: int, core: int) {
    t < |v.ins| && t < |v.outs| && v.ins[t] == ins && v.outs[t] == outs && StepIs(v, t, interval, priority, core)
  }

  /** One of the control transitions, after k edges. */
  ghost predicate Controls(tdg: Tdg, v: Sketch, k: nat, t: nat, ins: set<nat>, outs: set<nat>, interval: Interval)
    requires k <= |tdg.edges|
  {
    Does(v, t, ins + Misread(tdg, k, t), outs, interval, 0, -1)
  }

  /** The transitions of edge j, after k edges. */
  ghost predicate BridgeAt(tdg: Tdg, v: Sketch, k: nat, j: nat)
    requires ValidTdg(tdg) && j < k <= |tdg.edges| && ValidLink(tdg, tdg.edges[j])
  {
    var e := tdg.edges[j];
    Controls(tdg, v, k, EdgeStep(tdg, j), {Exit(tdg, e.source)}, {Entry(tdg, e.target)}, e.interval)
  }

  ghost predicate MonitorAt(tdg: Tdg, v: Sketch, k: nat, j: nat)
    requires ValidTdg(tdg) && j < k <= |tdg.edges| && ValidLink(tdg, tdg.edges[j])
  {
    var e, p, t := tdg.edges[j], EdgePlace(tdg, j), EdgeStep(tdg, j);
    var start, end := StartOf(tdg, e.source), EndOf(tdg, e.source);
    var period, now := Interval(e.period, Fin(e.period), false, false), Interval(0, Fin(0), false, false);
    && e.period >= 0 && p + 2 < t + 4
    && Controls(tdg, v, k, t, if start < p + 4 then {start} else {}, if start < p + 4 then {p} else {}, period)
    && Controls(tdg, v, k, t + 1, if end < p + 4 then {end} else {}, {p + 3}, now)
    && Controls(tdg, v, k, t + 2, {p + 3}, {p + 2}, now)
    && Controls(tdg, v, k, t + 3, {p}, {p + 1}, now)
    && PlaceIs(v, p, Fin(1), false) && PlaceIs(v, p + 1, Fin(1), false)
    && PlaceIs(v, p + 2, Fin(1), false) && PlaceIs(v, p + 3, Fin(1), false)
  }

  ghost predicate EdgeAt(tdg: Tdg, v: Sketch, k: nat, j: nat)
    requires ValidTdg(tdg) && k <= |tdg.edges|
  {
    j < k && ValidLink(tdg, tdg.edges[j]) ==>
      && (IsLoop(tdg.edges[j]) ==> MonitorAt(tdg, v, k, j))
      && (IsBridge(tdg, tdg.edges[j]) ==> BridgeAt(tdg, v, k, j))
  }

  /** Transition t of the nodes, after k edges. */
  ghost predicate OldAt(tdg: Tdg, before: Sketch, v: Sketch, k: nat, t: nat)
    requires ValidTdg(tdg) && k <= |tdg.edges|
  {
    t < |before.ins| && t < |before.outs| && t < |before.transitions| ==>
      && t < |v.ins| && t < |v.outs| && t < |v.transitions| && v.transitions[t] == before.transitions[t]
      && v.ins[t] == before.ins[t] + Joined(tdg, k, t) + Misread(tdg, k, t)
      && v.outs[t] == before.outs[t] + Forked(tdg, k, t)
  }

  ghost predicate EdgesBuilt(tdg: Tdg, before: Sketch, v: Sketch, k: nat)
    requires ValidTdg(tdg) && k <= |tdg.edges|
  {
    && Even(v) && Blank(v.initial) && before.places <= v.places
    && |v.places| == EdgePlace(tdg, k) && |v.transitions| == EdgeStep(tdg, k)
    && (forall t: nat :: OldAt(tdg, before, v, k, t)) && (forall j: nat :: EdgeAt(tdg, v, k, j))
  }

  lemma MisreadStep(tdg: Tdg, k: nat, t: nat)
    requires k < |tdg.edges|
    ensures
      Misread(tdg, k + 1, t) ==
        Misread(tdg, k, t) +
          if IsLoop(tdg.edges[k]) && EdgePlace(tdg, k) + 2 == t then {EdgePlace(tdg, k)} else {}
  {
  }

  lemma JoinedStep(tdg: Tdg, k: nat, t: nat)
    requires ValidTdg(tdg) && k < |tdg.edges| && ValidLink(tdg, tdg.edges[k])
    ensures
      var e := tdg.edges[k];
      && Joined(tdg, k + 1, t) ==
           (Joined(tdg, k, t) +
             if IsJoining(tdg, e) && FirstStep(tdg, e.target) == t then {Exit(tdg, e.source)} else {})
      && Forked(tdg, k + 1, t) ==
           (Forked(tdg, k, t) +
             if IsForking(tdg, e) && FirstStep(tdg, e.source) == t then {Entry(tdg, e.target)} else {})
  {
  }

  lemma {:induction false} EdgeStepsGrow(tdg: Tdg, j: nat, k: nat)
    requires ValidTdg(tdg) && j <= k <= |tdg.edges|
    ensures EdgeStep(tdg, j) <= EdgeStep(tdg, k) && EdgePlace(tdg, j) <= EdgePlace(tdg, k)
  {
    if j < k {
      EdgeStepsGrow(tdg, j, k - 1);
    }
  }

  /** A monitor takes only a transition that is there already for its "ok" place. */
  lemma NotMisread(tdg: Tdg, before: Sketch, v: Sketch, k: nat, t: nat)
    requires ValidTdg(tdg) && k <= |tdg.edges| && EdgesBuilt(tdg, before, v, k) && t >= EdgeStep(tdg, k)
    ensures Misread(tdg, k, t) == {}
  {
    forall j: nat | j < k && IsLoop(tdg.edges[j])
      ensures EdgePlace(tdg, j) + 2 < t
    {
      assert EdgeAt(tdg, v, k, j) && ValidLink(tdg, tdg.edges[j]);
      EdgeStepsGrow(tdg, j + 1, k);
    }
  }

  lemma {:induction false} NodeBelow(tdg: Tdg, n: nat, m: nat)
    requires n < m <= |tdg.nodes|
    ensures FirstStep(tdg, n) + StepsOf(tdg.nodes[n]) <= FirstStep(tdg, m)
    ensures FirstPlace(tdg, n) + PlacesOf(tdg.nodes[n]) <= FirstPlace(tdg, m)
  {
    if n + 1 < m {
      NodeBelow(tdg, n, m - 1);
    }
  }

  /** What one edge changes at transition t: a fork or join gets an arc, or the
      monitor takes t for its "ok" place. */
  ghost predicate ChangesAt(tdg: Tdg, v: Sketch, w: Sketch, k: nat, t: nat)
    requires ValidTdg(tdg) && k < |tdg.edges| && ValidLink(tdg, tdg.edges[k])
  {
    var e := tdg.edges[k];
    t < |v.ins| && t < |v.outs| && t < |v.transitions| ==>
      && t < |w.ins| && t < |w.outs| && t < |w.transitions| && w.transitions[t] == v.transitions[t]
      && (w.ins[t] == v.ins[t]
            + (if IsJoining(tdg, e) && FirstStep(tdg, e.target) == t then {Exit(tdg, e.source)} else {})
            + (if IsLoop(e) && EdgePlace(tdg, k) + 2 == t then {EdgePlace(tdg, k)} else {}))
      && (w.outs[t] == v.outs[t]
            + if IsForking(tdg, e) && FirstStep(tdg, e.source) == t then {Entry(tdg, e.target)} else {})
  }

  ghost predicate Changes(tdg: Tdg, v: Sketch, w: Sketch, k: nat)
    requires ValidTdg(tdg) && k < |tdg.edges| && ValidLink(tdg, tdg.edges[k])
  {
    && Even(w) && Blank(w.initial) && v.places <= w.places
    && |w.places| == EdgePlace(tdg, k + 1) && |w.transitions| == EdgeStep(tdg, k + 1)
    && forall t: nat :: ChangesAt(tdg, v, w, k, t)
  }

  /** The ends of the nodes are where they belong. */
  ghost predicate EndsAre(tdg: Tdg, ends: seq<(nat, nat)>) {
    |ends| == |tdg.nodes| && forall n: nat :: n < |ends| ==> ends[n] == (StartOf(tdg, n), EndOf(tdg, n))
  }

  lemma EndsBuilt(tdg: Tdg, d: Draft)
    requires NodesBuilt(tdg, d, |tdg.nodes|)
    ensures EndsAre(tdg, d.ends)
  {
    forall n: nat | n < |d.ends|
      ensures d.ends[n] == (StartOf(tdg, n), EndOf(tdg, n))
    {
      assert NodeAt(tdg, d, n);
    }
  }

  lemma PlacesBelow(tdg: Tdg, k: nat, n: nat)
    requires ValidTdg(tdg) && k <= |tdg.edges| && n < |tdg.nodes|
    ensures !tdg.nodes[n].ControlNode? ==> Entry(tdg, n) < EdgePlace(tdg, k) && Exit(tdg, n) < EdgePlace(tdg, k)
    ensures tdg.nodes[n].ControlNode? ==> FirstStep(tdg, n) < FirstStep(tdg, |tdg.nodes|) <= EdgeStep(tdg, k)
  {
    NodeBelow(tdg, n, |tdg.nodes|);
    EdgeStepsGrow(tdg, 0, k);
  }

  lemma EdgeChanges(tdg: Tdg, v: Sketch, ends: seq<(nat, nat)>, k: nat)
    requires ValidTdg(tdg) && k < |tdg.edges| && EndsAre(tdg, ends)
    requires Even(v) && Blank(v.initial) && |v.places| == EdgePlace(tdg, k) && |v.transitions| == EdgeStep(tdg, k)
    requires ValidLink(tdg, tdg.edges[k]) && EdgeDrawn(tdg, v, ends, tdg.edges[k]).Some?
    ensures Changes(tdg, v, EdgeDrawn(tdg, v, ends, tdg.edges[k]).value, k)
  {
    var e, w := tdg.edges[k], EdgeDrawn(tdg, v, ends, tdg.edges[k]).value;
    PlacesBelow(tdg, k, e.source);
    PlacesBelow(tdg, k, e.target);
    if IsLoop(e) {
      MonitorChanges(tdg, v, k, EndOf(tdg, e.source), StartOf(tdg, e.source));
    } else {
      hide WithIn, WithOut, Monitored;
      forall t: nat
        ensures ChangesAt(tdg, v, w, k, t)
      {
      }
    }
  }

  lemma MonitorChanges(tdg: Tdg, v: Sketch, k: nat, end: nat, start: nat)
    requires ValidTdg(tdg) && k < |tdg.edges| && ValidLink(tdg, tdg.edges[k]) && IsLoop(tdg.edges[k])
    requires Even(v) && Blank(v.initial) && |v.places| == EdgePlace(tdg, k) && |v.transitions| == EdgeStep(tdg, k)
    requires Monitored(v, end, start, tdg.edges[k].period).Some?
    ensures Changes(tdg, v, Monitored(v, end, start, tdg.edges[k].period).value, k)
  {
    var w := Monitored(v, end, start, tdg.edges[k].period).value;
    forall t: nat
      ensures ChangesAt(tdg, v, w, k, t)
    {
      if t < |v.transitions| {
        MonitorMisplaced(v, end, start, tdg.edges[k].period, t);
      }
    }
  }

  lemma ControlsKept(tdg: Tdg, v: Sketch, w: Sketch, k: nat, t: nat, ins: set<nat>, outs: set<nat>, interval: Interval)
    requires ValidTdg(tdg) && k < |tdg.edges| && ValidLink(tdg, tdg.edges[k]) && t >= FirstStep(tdg, |tdg.nodes|)
    requires Controls(tdg, v, k, t, ins, outs, interval) && ChangesAt(tdg, v, w, k, t)
    ensures Controls(tdg, w, k + 1, t, ins, outs, interval)
  {
    PlacesBelow(tdg, 0, tdg.edges[k].source);
    PlacesBelow(tdg, 0, tdg.edges[k].target);
    MisreadStep(tdg, k, t);
  }

  lemma EdgeKept(tdg: Tdg, v: Sketch, w: Sketch, k: nat, j: nat)
    requires ValidTdg(tdg) && j < k < |tdg.edges| && ValidLink(tdg, tdg.edges[k]) && Even(v)
    requires EdgeAt(tdg, v, k, j) && Changes(tdg, v, w, k)
    ensures EdgeAt(tdg, w, k + 1, j)
  {
    hide Controls, ChangesAt;
    var e, t, p := tdg.edges[j], EdgeStep(tdg, j), EdgePlace(tdg, j);
    assert ValidLink(tdg, e);
    EdgeStepsGrow(tdg, 0, j);
    assert ChangesAt(tdg, v, w, k, t) && ChangesAt(tdg, v, w, k, t + 1);
    assert ChangesAt(tdg, v, w, k, t + 2) && ChangesAt(tdg, v, w, k, t + 3);
    if IsLoop(e) {
      var start, end := StartOf(tdg, e.source), EndOf(tdg, e.source);
      var period, now := Interval(e.period, Fin(e.period), false, false), Interval(0, Fin(0), false, false);
      ControlsKept(tdg, v, w, k, t, if start < p + 4 then {start} else {}, if start < p + 4 then {p} else {}, period);
      ControlsKept(tdg, v, w, k, t + 1, if end < p + 4 then {end} else {}, {p + 3}, now);
      ControlsKept(tdg, v, w, k, t + 2, {p + 3}, {p + 2}, now);
      ControlsKept(tdg, v, w, k, t + 3, {p}, {p + 1}, now);
    }
    if IsBridge(tdg, e) {
      ControlsKept(tdg, v, w, k, t, {Exit(tdg, e.source)}, {Entry(tdg, e.target)}, e.interval);
    }
  }

  /** One more edge. */
  lemma EdgeAdded(tdg: Tdg, before: Sketch, v: Sketch, ends: seq<(nat, nat)>, k: nat)
    requires ValidTdg(tdg) && k < |tdg.edges| && EndsAre(tdg, ends) && EdgesBuilt(tdg, before, v, k)
    requires ValidLink(tdg, tdg.edges[k]) && EdgeDrawn(tdg, v, ends, tdg.edges[k]).Some?
    ensures EdgesBuilt(tdg, before, EdgeDrawn(tdg, v, ends, tdg.edges[k]).value, k + 1)
  {
    var w := EdgeDrawn(tdg, v, ends, tdg.edges[k]).value;
    EdgeChanges(tdg, v, ends, k);
    NewEdge(tdg, before, v, ends, k);
    hide EdgeDrawn, ChangesAt, EdgeAt;
    var more := k + 1;
    forall t: nat
      ensures OldAt(tdg, before, w, more, t)
    {
      assert OldAt(tdg, before, v, k, t) && ChangesAt(tdg, v, w, k, t);
      OldKept(tdg, before, v, w, k, t);
    }
    forall j: nat
      ensures EdgeAt(tdg, w, more, j)
    {
      if j < k {
        assert EdgeAt(tdg, v, k, j);
        EdgeKept(tdg, v, w, k, j);
      } else if j > k {
        NoEdge(tdg, w, more, j);
      }
    }
  }

  lemma NoEdge(tdg: Tdg, v: Sketch, k: nat, j: nat)
    requires ValidTdg(tdg) && k <= |tdg.edges| && j >= k
    ensures EdgeAt(tdg, v, k, j)
  {
  }

  lemma OldKept(tdg: Tdg, before: Sketch, v: Sketch, w: Sketch, k: nat, t: nat)
    requires ValidTdg(tdg) && k < |tdg.edges| && ValidLink(tdg, tdg.edges[k])
    requires OldAt(tdg, before, v, k, t) && ChangesAt(tdg, v, w, k, t)
    ensures OldAt(tdg, before, w, k + 1, t)
  {
    MisreadStep(tdg, k, t);
    JoinedStep(tdg, k, t);
  }

  lemma NewEdge(tdg: Tdg, before: Sketch, v: Sketch, ends: seq<(nat, nat)>, k: nat)
    requires ValidTdg(tdg) && k < |tdg.edges| && EndsAre(tdg, ends) && EdgesBuilt(tdg, before, v, k)
    requires ValidLink(tdg, tdg.edges[k]) && EdgeDrawn(tdg, v, ends, tdg.edges[k]).Some?
    ensures EdgeAt(tdg, EdgeDrawn(tdg, v, ends, tdg.edges[k]).value, k + 1, k)
  {
    var e := tdg.edges[k];
    if IsLoop(e) {
      NewMonitor(tdg, before, v, k);
    } else {
      NothingMisread(tdg, before, v, k, EdgeStep(tdg, k));
    }
  }

  lemma NewMonitor(tdg: Tdg, before: Sketch, v: Sketch, k: nat)
    requires ValidTdg(tdg) && k < |tdg.edges| && EdgesBuilt(tdg, before, v, k)
    requires ValidLink(tdg, tdg.edges[k]) && IsLoop(tdg.edges[k])
    requires
      var e := tdg.edges[k];
      Monitored(v, EndOf(tdg, e.source), StartOf(tdg, e.source), e.period).Some?
    ensures
      var e := tdg.edges[k];
      MonitorAt(tdg, Monitored(v, EndOf(tdg, e.source), StartOf(tdg, e.source), e.period).value, k + 1, k)
  {
    var e, t, p := tdg.edges[k], EdgeStep(tdg, k), EdgePlace(tdg, k);
    var w := Monitored(v, EndOf(tdg, e.source), StartOf(tdg, e.source), e.period).value;
    NothingMisread(tdg, before, v, k, t);
    NothingMisread(tdg, before, v, k, t + 1);
    NothingMisread(tdg, before, v, k, t + 2);
    NothingMisread(tdg, before, v, k, t + 3);
    MonitorNew(v, EndOf(tdg, e.source), StartOf(tdg, e.source), e.period);
    assert |v.transitions| == t && |v.places| == p;
    hide EdgesBuilt, Misread, Monitored, StartOf, EndOf, EdgeStep, EdgePlace, ValidTdg, Even;
  }

  /** The parts of a monitor, and the misplaced arc among them. */
  lemma MonitorNew(v: Sketch, end: nat, start: nat, period: int)
    requires Even(v) && Monitored(v, end, start, period).Some?
    ensures
      var w, t, p := Monitored(v, end, start, period).value, |v.transitions|, |v.places|;
      var extra := (u: nat) => if p + 2 == u then {p} else {};
      var now := Interval(0, Fin(0), false, false);
      && period >= 0 && p + 2 < t + 4
      && Does(w, t, (if start < p + 4 then {start} else {}) + extra(t), if start < p + 4 then {p} else {},
              Interval(period, Fin(period), false, false), 0, -1)
      && Does(w, t + 1, (if end < p + 4 then {end} else {}) + extra(t + 1), {p + 3}, now, 0, -1)
      && Does(w, t + 2, {p + 3} + extra(t + 2), {p + 2}, now, 0, -1)
      && Does(w, t + 3, {p} + extra(t + 3), {p + 1}, now, 0, -1)
      && PlaceIs(w, p, Fin(1), false) && PlaceIs(w, p + 1, Fin(1), false)
      && PlaceIs(w, p + 2, Fin(1), false) && PlaceIs(w, p + 3, Fin(1), false)
  {
    hide WithIn;
  }

  lemma NothingMisread(tdg: Tdg, before: Sketch, v: Sketch, k: nat, t: nat)
    requires ValidTdg(tdg) && k < |tdg.edges| && EdgesBuilt(tdg, before, v, k) && t >= EdgeStep(tdg, k)
    ensures
      Misread(tdg, k + 1, t) == if IsLoop(tdg.edges[k]) && EdgePlace(tdg, k) + 2 == t then {EdgePlace(tdg, k)} else {}
  {
    NotMisread(tdg, before, v, k, t);
    MisreadStep(tdg, k, t);
  }

  lemma {:induction false} AllEdgesBuilt(tdg: Tdg, before: Sketch, ends: seq<(nat, nat)>, k: nat)
    requires ValidTdg(tdg) && k <= |tdg.edges| && EndsAre(tdg, ends)
    requires Even(before) && Blank(before.initial)
    requires |before.places| == FirstPlace(tdg, |tdg.nodes|) && |before.transitions| == FirstStep(tdg, |tdg.nodes|)
    requires EdgesDrawn(tdg, before, ends, k).Some?
    ensures EdgesBuilt(tdg, before, EdgesDrawn(tdg, before, ends, k).value, k)
  {
    if k == 0 {
      assert forall t: nat :: Joined(tdg, 0, t) == {} && Misread(tdg, 0, t) == {} && Forked(tdg, 0, t) == {};
    } else {
      AllEdgesBuilt(tdg, before, ends, k - 1);
      assert ValidLink(tdg, tdg.edges[k - 1]);
      EdgeAdded(tdg, before, EdgesDrawn(tdg, before, ends, k - 1).value, ends, k - 1);
    }
  }

  // ------------------------------------------------- starts, releases and consumers

  /** The last of the first k starting bindings that puts tokens into p. */
  ghost predicate StartsAt(tdg: Tdg, k: nat, j: nat, p: nat)
    requires k <= |tdg.starts|
  {
    && j < k && tdg.starts[j].0 < |tdg.nodes| && tdg.starts[j].1 > 0 && Entry(tdg, tdg.starts[j].0) == p
    && forall i: nat :: j < i < k && tdg.starts[i].0 < |tdg.nodes| && tdg.starts[i].1 > 0 ==>
         Entry(tdg, tdg.starts[i].0) != p
  }

  /** The tokens of p are those of that binding, none without one. */
  ghost predicate FilledAt(tdg: Tdg, v: Sketch, k: nat, p: nat)
    requires k <= |tdg.starts|
  {
    p < |v.initial| ==>
      && (forall j: nat :: StartsAt(tdg, k, j, p) ==> v.initial[p] == tdg.starts[j].1)
      && ((forall j: nat :: !StartsAt(tdg, k, j, p)) ==> v.initial[p] == 0)
  }

  lemma {:induction false} StartsBuilt(tdg: Tdg, v: Sketch, ends: seq<(nat, nat)>, k: nat)
    requires ValidTdg(tdg) && EndsAre(tdg, ends) && k <= |tdg.starts| && Even(v) && Blank(v.initial)
    requires |v.places| >= FirstPlace(tdg, |tdg.nodes|)
    ensures
      var w := StartsFilled(tdg, v, ends, k);
      && w == v.(initial := w.initial) && |w.initial| == |v.initial| && forall p: nat :: FilledAt(tdg, w, k, p)
  {
    if k > 0 {
      var u, w := StartsFilled(tdg, v, ends, k - 1), StartsFilled(tdg, v, ends, k);
      StartsBuilt(tdg, v, ends, k - 1);
      var n, tokens := tdg.starts[k - 1].0, tdg.starts[k - 1].1;
      assert IsTask(tdg, n);
      NodeBelow(tdg, n, |tdg.nodes|);
      forall p: nat
        ensures FilledAt(tdg, w, k, p)
      {
        assert FilledAt(tdg, u, k - 1, p);
        StartsMore(tdg, k - 1, p);
      }
    }
  }

  lemma StartsMore(tdg: Tdg, k: nat, p: nat)
    requires k < |tdg.starts| && tdg.starts[k].0 < |tdg.nodes|
    ensures forall j: nat :: j < k ==>
      (StartsAt(tdg, k + 1, j, p) <==>
        StartsAt(tdg, k, j, p) && !(tdg.starts[k].1 > 0 && Entry(tdg, tdg.starts[k].0) == p))
    ensures StartsAt(tdg, k + 1, k, p) <==> tdg.starts[k].1 > 0 && Entry(tdg, tdg.starts[k].0) == p
  {
  }

  /** The release transitions of the first k periodic bindings. */
  function Releases(tdg: Tdg, k: nat): nat
    requires k <= |tdg.periodic|
  {
    if k == 0 then 0 else Releases(tdg, k - 1) + if ReleasesItself(tdg, tdg.periodic[k - 1].0) then 0 else 1
  }

  function Consumers(tdg: Tdg, n: nat): nat
    requires n <= |tdg.nodes|
  {
    if n == 0 then 0 else Consumers(tdg, n - 1) + if Consumed(tdg, n - 1) then 1 else 0
  }

  /** Binding k has a marked place whose transition gives its token back and one to
      the entry of the task, once a period. */
  ghost predicate ReleaseAt(tdg: Tdg, v: Sketch, p0: nat, t0: nat, k: nat) {
    k < |tdg.periodic| && tdg.periodic[k].0 < |tdg.nodes| && !ReleasesItself(tdg, tdg.periodic[k].0) ==>
      var n, period := tdg.periodic[k].0, tdg.periodic[k].1;
      var p, t := p0 + Releases(tdg, k), t0 + Releases(tdg, k);
      && Does(v, t, {p}, {p, Entry(tdg, n)}, Interval(period, Fin(period), false, false), 0, -1)
      && PlaceIs(v, p, Fin(1), true) && p < |v.initial| && v.initial[p] == 1
  }

  ghost predicate ReleasesBuilt(tdg: Tdg, v: Sketch, w: Sketch, k: nat)
    requires k <= |tdg.periodic| && ValidTdg(tdg)
  {
    && Contains(w, v) && v.initial <= w.initial && v.transitions <= w.transitions
    && |w.places| == |v.places| + Releases(tdg, k) && |w.transitions| == |v.transitions| + Releases(tdg, k)
    && forall j: nat :: j < k ==> ReleaseAt(tdg, w, |v.places|, |v.transitions|, j)
  }

  lemma {:induction false} AllReleasesBuilt(tdg: Tdg, v: Sketch, ends: seq<(nat, nat)>, k: nat)
    requires ValidTdg(tdg) && EndsAre(tdg, ends) && k <= |tdg.periodic| && Even(v)
    ensures ReleasesBuilt(tdg, v, AllReleased(tdg, v, ends, k), k)
  {
    hide ReleasesBuilt, Released;
    if k == 0 {
      NoReleases(tdg, v);
    } else {
      AllReleasesBuilt(tdg, v, ends, k - 1);
      var n := tdg.periodic[k - 1].0;
      assert IsTask(tdg, n);
      ReleaseAdded(tdg, v, AllReleased(tdg, v, ends, k - 1), k - 1);
    }
  }

  lemma NoReleases(tdg: Tdg, v: Sketch)
    requires ValidTdg(tdg) && Even(v)
    ensures ReleasesBuilt(tdg, v, v, 0)
  {
  }

  lemma ReleaseAdded(tdg: Tdg, v: Sketch, u: Sketch, k: nat)
    requires ValidTdg(tdg) && k < |tdg.periodic| && ReleasesBuilt(tdg, v, u, k) && IsTask(tdg, tdg.periodic[k].0)
    ensures
      var n := tdg.periodic[k].0;
      ReleasesBuilt(tdg, v, if ReleasesItself(tdg, n) then u else Released(u, Entry(tdg, n), tdg.periodic[k].1), k + 1)
  {
    var n := tdg.periodic[k].0;
    NewRelease(tdg, u, |v.places|, |v.transitions|, k);
    if ReleasesItself(tdg, n) {
      ContainsSelf(u);
      ReleasesMore(tdg, v, u, u, k);
    } else {
      ReleasedContains(u, Entry(tdg, n), tdg.periodic[k].1);
      ReleasesMore(tdg, v, u, Released(u, Entry(tdg, n), tdg.periodic[k].1), k);
    }
  }

  lemma ReleasesMore(tdg: Tdg, v: Sketch, u: Sketch, w: Sketch, k: nat)
    requires ValidTdg(tdg) && k < |tdg.periodic| && ReleasesBuilt(tdg, v, u, k) && IsTask(tdg, tdg.periodic[k].0)
    requires Contains(w, u) && u.initial <= w.initial && u.transitions <= w.transitions
      && ReleaseAt(tdg, w, |v.places|, |v.transitions|, k)
    requires |w.places| == |v.places| + Releases(tdg, k + 1)
    requires |w.transitions| == |v.transitions| + Releases(tdg, k + 1)
    ensures ReleasesBuilt(tdg, v, w, k + 1)
  {
    ContainsMore(v, u, w);
    hide Contains, ReleaseAt, ValidTdg, Releases;
    forall j: nat | j < k + 1
      ensures ReleaseAt(tdg, w, |v.places|, |v.transitions|, j)
    {
      if j < k {
        ReleaseKept(tdg, u, w, |v.places|, |v.transitions|, j);
      }
    }
  }

  lemma ContainsSelf(v: Sketch)
    requires Even(v)
    ensures Contains(v, v)
  {
  }

  lemma ReleasedContains(v: Sketch, entry: nat, period: int)
    requires Even(v)
    ensures
      var w := Released(v, entry, period);
      && Contains(w, v) && v.initial <= w.initial && v.transitions <= w.transitions
      && |w.places| == |v.places| + 1 && |w.transitions| == |v.transitions| + 1
  {
  }

  lemma NewRelease(tdg: Tdg, v: Sketch, p0: nat, t0: nat, k: nat)
    requires k < |tdg.periodic| && tdg.periodic[k].0 < |tdg.nodes| && Even(v)
    requires |v.places| == p0 + Releases(tdg, k) && |v.transitions| == t0 + Releases(tdg, k)
    ensures
      var n := tdg.periodic[k].0;
      ReleaseAt(tdg, if ReleasesItself(tdg, n) then v else Released(v, Entry(tdg, n), tdg.periodic[k].1), p0, t0, k)
  {
  }

  lemma ReleaseKept(tdg: Tdg, u: Sketch, w: Sketch, p0: nat, t0: nat, k: nat)
    requires k < |tdg.periodic| && ReleaseAt(tdg, u, p0, t0, k)
    requires Contains(w, u) && u.initial <= w.initial
    ensures ReleaseAt(tdg, w, p0, t0, k)
  {
    if tdg.periodic[k].0 < |tdg.nodes| && !ReleasesItself(tdg, tdg.periodic[k].0) {
      assert SameAt(u, w, t0 + Releases(tdg, k));
    }
  }

  lemma {:induction false} ReleasesGrow(tdg: Tdg, j: nat, k: nat)
    requires j < k <= |tdg.periodic|
    ensures Releases(tdg, j) + (if ReleasesItself(tdg, tdg.periodic[j].0) then 0 else 1) <= Releases(tdg, k)
  {
    if j < k - 1 {
      ReleasesGrow(tdg, j, k - 1);
    }
  }

  /** A transition takes from the exit of the task and gives nothing. */
  ghost predicate ConsumerAt(tdg: Tdg, v: Sketch, t0: nat, n: nat)
    requires n < |tdg.nodes|
  {
    Consumed(tdg, n) ==>
      Does(v, t0 + Consumers(tdg, n), {Exit(tdg, n)}, {}, Interval(0, Fin(0), false, false), 0, -1)
  }

  ghost predicate ConsumersBuilt(tdg: Tdg, v: Sketch, w: Sketch, n: nat)
    requires n <= |tdg.nodes|
  {
    && Contains(w, v) && w.places == v.places && w.initial == v.initial && v.transitions <= w.transitions
    && |w.transitions| == |v.transitions| + Consumers(tdg, n)
    && forall m: nat :: m < n ==> ConsumerAt(tdg, w, |v.transitions|, m)
  }

  lemma {:induction false} AllConsumersBuilt(tdg: Tdg, v: Sketch, ends: seq<(nat, nat)>, n: nat)
    requires EndsAre(tdg, ends) && n <= |tdg.nodes| && Even(v)
    ensures ConsumersBuilt(tdg, v, AllConsumed(tdg, v, ends, n), n)
  {
    if n > 0 {
      var u, w := AllConsumed(tdg, v, ends, n - 1), AllConsumed(tdg, v, ends, n);
      AllConsumersBuilt(tdg, v, ends, n - 1);
      assert Contains(w, u);
      ContainsMore(v, u, w);
      forall m: nat | m < n
        ensures ConsumerAt(tdg, w, |v.transitions|, m)
      {
        if m < n - 1 {
          assert ConsumerAt(tdg, u, |v.transitions|, m);
          ConsumersGrow(tdg, m, n - 1);
          assert Consumed(tdg, m) ==> SameAt(u, w, |v.transitions| + Consumers(tdg, m));
        }
      }
    }
  }

  lemma {:induction false} ConsumersGrow(tdg: Tdg, m: nat, n: nat)
    requires m < n <= |tdg.nodes|
    ensures Consumers(tdg, m) + (if Consumed(tdg, m) then 1 else 0) <= Consumers(tdg, n)
  {
    if m < n - 1 {
      ConsumersGrow(tdg, m, n - 1);
    }
  }

  // ---------------------------------------------------------------------- restarts

  /** Chain positions from which a restart sends a task back: ready, and holding one
      of the locks before the first that spins. */
  ghost predicate SentFrom(tdg: Tdg, low: nat, pos: nat) {
    && IsTask(tdg, low)
    && var locks := tdg.nodes[low].task.locks;
       pos == 2 || exists i: nat :: i < SpinFree(locks) && pos == 6 * |locks| - 2 * i
  }

  /** Transition t lets high enter, from its entry to ready, and sends low back from
      position pos to its entry. */
  ghost predicate RestartAt(tdg: Tdg, v: Sketch, t: nat, high: nat, low: nat, pos: nat) {
    && Outranks(tdg, high, low) && SentFrom(tdg, low, pos) && t >= FirstStep(tdg, |tdg.nodes|)
    && var task := tdg.nodes[high].task;
       Does(v, t, {Entry(tdg, high), Entry(tdg, low) + pos / 2}, {Entry(tdg, high) + 1, Entry(tdg, low)},
            Interval(0, Fin(0), false, false), task.priority, task.core)
  }

  ghost predicate SomeRestart(tdg: Tdg, v: Sketch, t: nat) {
    exists high: nat, low: nat, pos: nat :: RestartAt(tdg, v, t, high, low, pos)
  }

  /** w adds restarts to v, and nothing else. */
  ghost predicate OnlyRestarts(tdg: Tdg, v: Sketch, w: Sketch) {
    && Contains(w, v) && w.places == v.places && w.initial == v.initial
    && forall t: nat :: |v.transitions| <= t < |w.transitions| ==> SomeRestart(tdg, w, t)
  }

  /** low is sent back from pos somewhere in the net. */
  ghost predicate RestartFrom(tdg: Tdg, v: Sketch, high: nat, low: nat, pos: nat) {
    exists t: nat :: RestartAt(tdg, v, t, high, low, pos)
  }

  ghost predicate PairRestarts(tdg: Tdg, v: Sketch, high: nat, low: nat) {
    Outranks(tdg, high, low) ==>
      forall pos: nat :: SentFrom(tdg, low, pos) ==> RestartFrom(tdg, v, high, low, pos)
  }

  lemma RestartKept(tdg: Tdg, v: Sketch, w: Sketch, t: nat)
    requires Contains(w, v) && t < |v.transitions|
    ensures forall high: nat, low: nat, pos: nat ::
      RestartAt(tdg, v, t, high, low, pos) ==> RestartAt(tdg, w, t, high, low, pos)
    ensures SomeRestart(tdg, v, t) ==> SomeRestart(tdg, w, t)
  {
    assert SameAt(v, w, t);
    if high: nat, low: nat, pos: nat :| RestartAt(tdg, v, t, high, low, pos) {
      assert RestartAt(tdg, w, t, high, low, pos);
    }
  }

  lemma PairsKept(tdg: Tdg, v: Sketch, w: Sketch, high: nat, low: nat)
    requires Contains(w, v) && PairRestarts(tdg, v, high, low)
    ensures PairRestarts(tdg, w, high, low)
  {
    forall pos: nat | Outranks(tdg, high, low) && SentFrom(tdg, low, pos)
      ensures RestartFrom(tdg, w, high, low, pos)
    {
      assert RestartFrom(tdg, v, high, low, pos);
      var t: nat :| RestartAt(tdg, v, t, high, low, pos);
      RestartKept(tdg, v, w, t);
    }
  }

  lemma RestartsOn(tdg: Tdg, u: Sketch, v: Sketch, w: Sketch)
    requires OnlyRestarts(tdg, u, v) && OnlyRestarts(tdg, v, w)
    ensures OnlyRestarts(tdg, u, w)
  {
    ContainsMore(u, v, w);
    forall t: nat | |u.transitions| <= t < |w.transitions|
      ensures SomeRestart(tdg, w, t)
    {
      if t < |v.transitions| {
        RestartKept(tdg, v, w, t);
      }
    }
  }

  /** The chains are where they belong. */
  ghost predicate ChainsAre(tdg: Tdg, chains: seq<seq<nat>>) {
    |chains| == |tdg.nodes| && forall n: nat :: ChainIs(tdg, chains, n)
  }

  ghost predicate ChainIs(tdg: Tdg, chains: seq<seq<nat>>, n: nat) {
    IsTask(tdg, n) && n < |chains| ==>
      && |chains[n]| == 6 * |tdg.nodes[n].task.locks| + 5
      && forall i: int :: 0 <= i < |chains[n]| ==>
           At(chains[n], i) == (if i % 2 == 0 then FirstPlace(tdg, n) else FirstStep(tdg, n)) + i / 2
  }

  lemma ChainsBuilt(tdg: Tdg, d: Draft)
    requires NodesBuilt(tdg, d, |tdg.nodes|)
    ensures ChainsAre(tdg, d.chains)
  {
    forall n: nat
      ensures ChainIs(tdg, d.chains, n)
    {
      if IsTask(tdg, n) {
        assert NodeAt(tdg, d, n);
        forall i: int | 0 <= i < |d.chains[n]|
          ensures At(d.chains[n], i)
            == (if i % 2 == 0 then FirstPlace(tdg, n) else FirstStep(tdg, n)) + i / 2
        {
          assert ChainAt(tdg, d, n, i);
        }
      }
    }
  }

  /** v has its nodes. */
  ghost predicate Ready(tdg: Tdg, v: Sketch) {
    Even(v) && |v.transitions| >= FirstStep(tdg, |tdg.nodes|)
  }

  lemma OneRestart(tdg: Tdg, v: Sketch, chains: seq<seq<nat>>, high: nat, low: nat, pos: nat)
    requires ChainsAre(tdg, chains) && Ready(tdg, v) && Outranks(tdg, high, low) && SentFrom(tdg, low, pos)
      && pos % 2 == 0
    ensures
      var w := SentBack(v, tdg, chains, high, low, pos);
      OnlyRestarts(tdg, v, w) && RestartFrom(tdg, w, high, low, pos)
  {
    var w, t := SentBack(v, tdg, chains, high, low, pos), |v.transitions|;
    assert ChainIs(tdg, chains, high) && ChainIs(tdg, chains, low);
    assert RestartAt(tdg, w, t, high, low, pos);
    forall u: nat | u < t
      ensures SameAt(v, w, u)
    {
    }
  }

  lemma MarkedOnly(tdg: Tdg, v: Sketch, t: nat)
    requires Even(v)
    ensures OnlyRestarts(tdg, v, WithSuspendable(v, t))
  {
    var w := WithSuspendable(v, t);
    forall u: nat | u < |v.transitions|
      ensures SameAt(v, w, u)
    {
    }
  }

  lemma {:induction false} HoldingRestarts(tdg: Tdg, v: Sketch, chains: seq<seq<nat>>, high: nat, low: nat, k: nat)
    requires ChainsAre(tdg, chains) && Ready(tdg, v) && Outranks(tdg, high, low)
      && k <= SpinFree(tdg.nodes[low].task.locks)
    ensures
      var w := HoldingPreempted(v, tdg, chains, high, low, k);
      && OnlyRestarts(tdg, v, w)
      && forall i: nat :: i < k ==> RestartFrom(tdg, w, high, low, 6 * |tdg.nodes[low].task.locks| - 2 * i)
  {
    hide SentBack, WithSuspendable, OnlyRestarts, RestartFrom, Contains;
    if k == 0 {
      NoRestarts(tdg, v);
    } else {
      HoldingRestarts(tdg, v, chains, high, low, k - 1);
      assert ChainIs(tdg, chains, low);
      var length := 6 * |tdg.nodes[low].task.locks|;
      OnlyEven(tdg, v, HoldingPreempted(v, tdg, chains, high, low, k - 1));
      HoldingOne(tdg, v, chains, high, low, k - 1);
      var u, w := HoldingPreempted(v, tdg, chains, high, low, k - 1), HoldingPreempted(v, tdg, chains, high, low, k);
      forall i: nat | i < k - 1
        ensures RestartFrom(tdg, w, high, low, length - 2 * i)
      {
        FromKept(tdg, u, w, high, low, length - 2 * i);
      }
      RestartsOn(tdg, v, u, w);
    }
  }

  lemma NoRestarts(tdg: Tdg, v: Sketch)
    requires Even(v)
    ensures OnlyRestarts(tdg, v, v)
  {
  }

  lemma OnlyEven(tdg: Tdg, v: Sketch, w: Sketch)
    requires OnlyRestarts(tdg, v, w)
    ensures Even(v) && Even(w) && (Ready(tdg, v) ==> Ready(tdg, w))
  {
  }

  lemma FromKept(tdg: Tdg, v: Sketch, w: Sketch, high: nat, low: nat, pos: nat)
    requires OnlyRestarts(tdg, v, w) && RestartFrom(tdg, v, high, low, pos)
    ensures RestartFrom(tdg, w, high, low, pos)
  {
    var t: nat :| RestartAt(tdg, v, t, high, low, pos);
    RestartKept(tdg, v, w, t);
  }

  lemma HoldingOne(tdg: Tdg, v: Sketch, chains: seq<seq<nat>>, high: nat, low: nat, k: nat)
    requires ChainsAre(tdg, chains) && Outranks(tdg, high, low) && k < SpinFree(tdg.nodes[low].task.locks)
    requires Ready(tdg, HoldingPreempted(v, tdg, chains, high, low, k))
    ensures
      var u, w := HoldingPreempted(v, tdg, chains, high, low, k), HoldingPreempted(v, tdg, chains, high, low, k + 1);
      OnlyRestarts(tdg, u, w) && RestartFrom(tdg, w, high, low, 6 * |tdg.nodes[low].task.locks| - 2 * k)
  {
    assert ChainIs(tdg, chains, low);
    var u, locks := HoldingPreempted(v, tdg, chains, high, low, k), tdg.nodes[low].task.locks;
    var pos: nat := 6 * |locks| - 2 * k;
    assert ReleasePos(|chains[low]|, k) == pos + 1;
    MarkedOnly(tdg, u, pos + 1);
    OneRestart(tdg, WithSuspendable(u, pos + 1), chains, high, low, pos);
    RestartsOn(tdg, u, WithSuspendable(u, pos + 1), SentBack(WithSuspendable(u, pos + 1), tdg, chains, high, low, pos));
  }

  lemma TaskRestarts(tdg: Tdg, v: Sketch, chains: seq<seq<nat>>, high: nat, low: nat)
    requires ChainsAre(tdg, chains) && Ready(tdg, v) && Outranks(tdg, high, low)
    ensures
      var w := TaskPreempted(v, tdg, chains, high, low);
      OnlyRestarts(tdg, v, w) && PairRestarts(tdg, w, high, low)
  {
    hide SentBack, WithSuspendable, HoldingPreempted, RestartFrom;
    assert ChainIs(tdg, chains, low);
    var locks, marked := tdg.nodes[low].task.locks, WithSuspendable(v, At(chains[low], 3));
    var ready := SentBack(marked, tdg, chains, high, low, 2);
    var w := HoldingPreempted(ready, tdg, chains, high, low, SpinFree(locks));
    MarkedOnly(tdg, v, At(chains[low], 3));
    OneRestart(tdg, marked, chains, high, low, 2);
    HoldingRestarts(tdg, ready, chains, high, low, SpinFree(locks));
    RestartsOn(tdg, v, marked, ready);
    RestartsOn(tdg, v, ready, w);
    FromKept(tdg, ready, w, high, low, 2);
  }

  /** tasks are the tasks of one core, by falling priority. */
  ghost predicate Ranked(tdg: Tdg, core: int, tasks: seq<nat>) {
    Falling(tdg, tasks) && forall n: nat {:trigger n in tasks} :: n in tasks <==> IsTask(tdg, n) && CoreIs(tdg, n, core)
  }

  ghost predicate CoreIs(tdg: Tdg, n: nat, core: int) {
    IsTask(tdg, n) && tdg.nodes[n].task.core == core
  }

  /** tasks[i] has its restarts with the tasks between i and j. */
  ghost predicate RowRestarts(tdg: Tdg, v: Sketch, tasks: seq<nat>, i: nat, j: nat) {
    i < |tasks| && forall m: nat :: i < m < j && m < |tasks| ==> PairRestarts(tdg, v, tasks[i], tasks[m])
  }

  lemma RowKept(tdg: Tdg, v: Sketch, w: Sketch, tasks: seq<nat>, i: nat, j: nat)
    requires OnlyRestarts(tdg, v, w) && RowRestarts(tdg, v, tasks, i, j)
    ensures RowRestarts(tdg, w, tasks, i, j)
  {
    forall m: nat | i < m < j && m < |tasks|
      ensures PairRestarts(tdg, w, tasks[i], tasks[m])
    {
      PairsKept(tdg, v, w, tasks[i], tasks[m]);
    }
  }

  lemma {:induction false} RowBuilt(tdg: Tdg, v: Sketch, chains: seq<seq<nat>>, core: int, tasks: seq<nat>, i: nat,
                                    j: nat)
    requires ChainsAre(tdg, chains) && Ready(tdg, v) && Ranked(tdg, core, tasks) && i < |tasks| && j <= |tasks|
    ensures forall n :: n in tasks ==> IsTask(tdg, n)
    ensures
      var w := RowPreempted(v, tdg, chains, tasks, i, j);
      OnlyRestarts(tdg, v, w) && RowRestarts(tdg, w, tasks, i, j)
  {
    hide OnlyRestarts, PairRestarts, Contains, TaskPreempted;
    if j <= i + 1 {
      NoRestarts(tdg, v);
    } else {
      RowBuilt(tdg, v, chains, core, tasks, i, j - 1);
      var u, w := RowPreempted(v, tdg, chains, tasks, i, j - 1), RowPreempted(v, tdg, chains, tasks, i, j);
      var high, low := tasks[i], tasks[j - 1];
      assert high in tasks && low in tasks;
      OnlyEven(tdg, v, u);
      PairBuilt(tdg, u, chains, high, low);
      RestartsOn(tdg, v, u, w);
      RowKept(tdg, u, w, tasks, i, j - 1);
    }
  }

  lemma PairBuilt(tdg: Tdg, v: Sketch, chains: seq<seq<nat>>, high: nat, low: nat)
    requires ChainsAre(tdg, chains) && Ready(tdg, v) && IsTask(tdg, high) && IsTask(tdg, low)
    requires tdg.nodes[high].task.core == tdg.nodes[low].task.core
    ensures
      var w := if PriorityOf(tdg, low) < PriorityOf(tdg, high) then TaskPreempted(v, tdg, chains, high, low) else v;
      OnlyRestarts(tdg, v, w) && PairRestarts(tdg, w, high, low)
  {
    if PriorityOf(tdg, low) < PriorityOf(tdg, high) {
      TaskRestarts(tdg, v, chains, high, low);
    } else {
      NoRestarts(tdg, v);
    }
  }

  /** The first n tasks of the core have their restarts with those behind them. */
  ghost predicate RowsRestart(tdg: Tdg, v: Sketch, tasks: seq<nat>, n: nat) {
    forall i: nat :: i < n && i < |tasks| ==> RowRestarts(tdg, v, tasks, i, |tasks|)
  }

  lemma {:induction false} CoreBuilt(tdg: Tdg, v: Sketch, chains: seq<seq<nat>>, core: int, tasks: seq<nat>, n: nat)
    requires ChainsAre(tdg, chains) && Ready(tdg, v) && Ranked(tdg, core, tasks) && n <= |tasks|
    ensures forall n :: n in tasks ==> IsTask(tdg, n)
    ensures
      var w := CorePreempted(v, tdg, chains, tasks, n);
      OnlyRestarts(tdg, v, w) && RowsRestart(tdg, w, tasks, n)
  {
    hide OnlyRestarts, RowRestarts, Contains, RowPreempted;
    if n == 0 {
      NoRestarts(tdg, v);
    } else {
      CoreBuilt(tdg, v, chains, core, tasks, n - 1);
      var u, w := CorePreempted(v, tdg, chains, tasks, n - 1), CorePreempted(v, tdg, chains, tasks, n);
      OnlyEven(tdg, v, u);
      RowBuilt(tdg, u, chains, core, tasks, n - 1, |tasks|);
      RestartsOn(tdg, v, u, w);
      forall i: nat | i < n - 1
        ensures RowRestarts(tdg, w, tasks, i, |tasks|)
      {
        RowKept(tdg, u, w, tasks, i, |tasks|);
      }
    }
  }

  /** All restarts between tasks of the first n cores are there. */
  ghost predicate CoresRestart(tdg: Tdg, v: Sketch, n: int) {
    forall high: nat, low: nat {:trigger PairRestarts(tdg, v, high, low)} ::
      CoreBelow(tdg, high, n) ==> PairRestarts(tdg, v, high, low)
  }

  ghost predicate CoreBelow(tdg: Tdg, t: nat, n: int) {
    IsTask(tdg, t) && 0 <= tdg.nodes[t].task.core < n
  }

  lemma {:induction false} AllRestartsBuilt(tdg: Tdg, v: Sketch, chains: seq<seq<nat>>, n: nat)
    requires ChainsAre(tdg, chains) && Ready(tdg, v)
    ensures
      var w := AllPreempted(v, tdg, chains, n);
      OnlyRestarts(tdg, v, w) && CoresRestart(tdg, w, n)
  {
    hide OnlyRestarts, PairRestarts, Contains, CorePreempted, RowsRestart;
    if n == 0 {
      NoRestarts(tdg, v);
    } else {
      AllRestartsBuilt(tdg, v, chains, n - 1);
      var tasks := Ranking(tdg, n - 1, |tdg.nodes|);
      RankingTasks(tdg, n - 1, |tdg.nodes|);
      var u, w := AllPreempted(v, tdg, chains, n - 1), AllPreempted(v, tdg, chains, n);
      OnlyEven(tdg, v, u);
      CoreBuilt(tdg, u, chains, n - 1, tasks, |tasks|);
      RestartsOn(tdg, v, u, w);
      forall high: nat, low: nat | CoreBelow(tdg, high, n)
        ensures PairRestarts(tdg, w, high, low)
      {
        if tdg.nodes[high].task.core < n - 1 {
          assert CoreBelow(tdg, high, n - 1);
          OnlyPairsKept(tdg, u, w, high, low);
        } else {
          CorePairs(tdg, w, n - 1, tasks, high, low);
        }
      }
    }
  }

  lemma OnlyPairsKept(tdg: Tdg, v: Sketch, w: Sketch, high: nat, low: nat)
    requires OnlyRestarts(tdg, v, w) && PairRestarts(tdg, v, high, low)
    ensures PairRestarts(tdg, w, high, low)
  {
    PairsKept(tdg, v, w, high, low);
  }

  lemma CorePairs(tdg: Tdg, v: Sketch, core: int, tasks: seq<nat>, high: nat, low: nat)
    requires Ranked(tdg, core, tasks) && RowsRestart(tdg, v, tasks, |tasks|) && CoreIs(tdg, high, core)
    ensures PairRestarts(tdg, v, high, low)
  {
    if Outranks(tdg, high, low) {
      assert CoreIs(tdg, low, core) && high in tasks && low in tasks;
      var i: nat :| i < |tasks| && tasks[i] == high;
      var j: nat :| j < |tasks| && tasks[j] == low;
      assert RowRestarts(tdg, v, tasks, i, |tasks|);
      assert PriorityOf(tdg, tasks[i]) > PriorityOf(tdg, tasks[j]);
    }
  }

  /** The transitions that restarts mark suspendable: the first segment of a task that
      is outranked, and those whose index is the position at which it gives back one
      of the locks before the first that spins. */
  ghost predicate MarkedBy(tdg: Tdg, t: nat, high: nat, low: nat) {
    && Outranks(tdg, high, low)
    && var locks := tdg.nodes[low].task.locks;
       t == FirstStep(tdg, low) + 1 || exists i: nat :: i < SpinFree(locks) && t == 6 * |locks| + 1 - 2 * i
  }

  /** w marks t if v does or the condition holds. */
  ghost predicate MarksIf(v: Sketch, w: Sketch, t: nat, marked: bool) {
    t < |v.transitions| ==>
      t < |w.transitions| && (w.transitions[t].suspendable <==> v.transitions[t].suspendable || marked)
  }

  lemma TaskMarks(tdg: Tdg, v: Sketch, chains: seq<seq<nat>>, high: nat, low: nat, t: nat)
    requires ChainsAre(tdg, chains) && Even(v) && Outranks(tdg, high, low)
    ensures MarksIf(v, TaskPreempted(v, tdg, chains, high, low), t, MarkedBy(tdg, t, high, low))
  {
    assert ChainIs(tdg, chains, low);
    var locks, chain := tdg.nodes[low].task.locks, chains[low];
    assert At(chain, 3) == FirstStep(tdg, low) + 1;
    var ready := SentBack(WithSuspendable(v, At(chain, 3)), tdg, chains, high, low, 2);
    if t < |v.transitions| {
      HoldingMarks(ready, tdg, chains, high, low, SpinFree(locks), t);
      if AtRelease(chain, SpinFree(locks), t) {
        var i: nat :| i < SpinFree(locks) && t == ReleasePos(|chain|, i);
        assert i < SpinFree(locks) && t == 6 * |locks| + 1 - 2 * i;
      }
      if i: nat :| i < SpinFree(locks) && t == 6 * |locks| + 1 - 2 * i {
        assert t == ReleasePos(|chain|, i);
      }
    }
  }

  lemma MarksOn(u: Sketch, v: Sketch, w: Sketch, t: nat, a: bool, b: bool)
    requires MarksIf(u, v, t, a) && MarksIf(v, w, t, b)
    ensures MarksIf(u, w, t, a || b)
  {
  }

  /** One of tasks[i + 1..j] is outranked by tasks[i] and marks t. */
  ghost predicate RowMarks(tdg: Tdg, tasks: seq<nat>, i: nat, j: nat, t: nat) {
    exists m: nat :: i < m < j && m < |tasks| && i < |tasks| && MarkedBy(tdg, t, tasks[i], tasks[m])
  }

  lemma {:induction false} RowMarked(tdg: Tdg, v: Sketch, chains: seq<seq<nat>>, core: int, tasks: seq<nat>, i: nat,
                                     j: nat, t: nat)
    requires ChainsAre(tdg, chains) && Ready(tdg, v) && Ranked(tdg, core, tasks) && i < |tasks| && j <= |tasks|
    ensures forall n :: n in tasks ==> IsTask(tdg, n)
    ensures MarksIf(v, RowPreempted(v, tdg, chains, tasks, i, j), t, RowMarks(tdg, tasks, i, j, t))
  {
    hide TaskPreempted, MarksIf, MarkedBy;
    if j <= i + 1 {
      MarksSelf(v, t);
    } else {
      RowMarked(tdg, v, chains, core, tasks, i, j - 1, t);
      RowBuilt(tdg, v, chains, core, tasks, i, j - 1);
      var u := RowPreempted(v, tdg, chains, tasks, i, j - 1);
      OnlyEven(tdg, v, u);
      var high, low := tasks[i], tasks[j - 1];
      assert high in tasks && low in tasks && CoreIs(tdg, high, core) && CoreIs(tdg, low, core);
      PairMarks(tdg, u, chains, high, low, t);
      var a, b := RowMarks(tdg, tasks, i, j - 1, t), MarkedBy(tdg, t, high, low);
      MarksOn(v, u, RowPreempted(v, tdg, chains, tasks, i, j), t, a, b);
      assert RowMarks(tdg, tasks, i, j, t) <==> a || b;
    }
  }

  lemma MarksSelf(v: Sketch, t: nat)
    ensures MarksIf(v, v, t, false)
  {
  }

  lemma PairMarks(tdg: Tdg, v: Sketch, chains: seq<seq<nat>>, high: nat, low: nat, t: nat)
    requires ChainsAre(tdg, chains) && Even(v) && IsTask(tdg, high) && IsTask(tdg, low)
    requires tdg.nodes[high].task.core == tdg.nodes[low].task.core
    ensures
      var w := if PriorityOf(tdg, low) < PriorityOf(tdg, high) then TaskPreempted(v, tdg, chains, high, low) else v;
      MarksIf(v, w, t, MarkedBy(tdg, t, high, low))
  {
    if PriorityOf(tdg, low) < PriorityOf(tdg, high) {
      TaskMarks(tdg, v, chains, high, low, t);
    }
  }

  ghost predicate RowsMark(tdg: Tdg, tasks: seq<nat>, n: nat, t: nat) {
    exists i: nat :: i < n && RowMarks(tdg, tasks, i, |tasks|, t)
  }

  lemma {:induction false} CoreMarked(tdg: Tdg, v: Sketch, chains: seq<seq<nat>>, core: int, tasks: seq<nat>, n: nat,
                                      t: nat)
    requires ChainsAre(tdg, chains) && Ready(tdg, v) && Ranked(tdg, core, tasks) && n <= |tasks|
    ensures forall n :: n in tasks ==> IsTask(tdg, n)
    ensures MarksIf(v, CorePreempted(v, tdg, chains, tasks, n), t, RowsMark(tdg, tasks, n, t))
  {
    hide RowPreempted, MarksIf, RowMarks;
    if n == 0 {
      MarksSelf(v, t);
    } else {
      CoreMarked(tdg, v, chains, core, tasks, n - 1, t);
      CoreBuilt(tdg, v, chains, core, tasks, n - 1);
      var u := CorePreempted(v, tdg, chains, tasks, n - 1);
      OnlyEven(tdg, v, u);
      RowMarked(tdg, u, chains, core, tasks, n - 1, |tasks|, t);
      var a, b := RowsMark(tdg, tasks, n - 1, t), RowMarks(tdg, tasks, n - 1, |tasks|, t);
      MarksOn(v, u, CorePreempted(v, tdg, chains, tasks, n), t, a, b);
      assert RowsMark(tdg, tasks, n, t) <==> a || b;
    }
  }

  /** A pair of tasks of the first n cores marks t. */
  ghost predicate CoresMark(tdg: Tdg, n: int, t: nat) {
    exists high: nat, low: nat :: CoreBelow(tdg, high, n) && MarkedBy(tdg, t, high, low)
  }

  lemma {:induction false} AllMarked(tdg: Tdg, v: Sketch, chains: seq<seq<nat>>, n: nat, t: nat)
    requires ChainsAre(tdg, chains) && Ready(tdg, v)
    ensures MarksIf(v, AllPreempted(v, tdg, chains, n), t, CoresMark(tdg, n, t))
  {
    hide CorePreempted, MarksIf, MarkedBy, RowsMark;
    if n == 0 {
      MarksSelf(v, t);
    } else {
      AllMarked(tdg, v, chains, n - 1, t);
      AllRestartsBuilt(tdg, v, chains, n - 1);
      var u := AllPreempted(v, tdg, chains, n - 1);
      OnlyEven(tdg, v, u);
      var tasks := Ranking(tdg, n - 1, |tdg.nodes|);
      RankingTasks(tdg, n - 1, |tdg.nodes|);
      CoreMarked(tdg, u, chains, n - 1, tasks, |tasks|, t);
      var a, b := CoresMark(tdg, n - 1, t), RowsMark(tdg, tasks, |tasks|, t);
      MarksOn(v, u, AllPreempted(v, tdg, chains, n), t, a, b);
      CoreMarks(tdg, n - 1, tasks, t);
    }
  }

  lemma CoreMarks(tdg: Tdg, core: int, tasks: seq<nat>, t: nat)
    requires Ranked(tdg, core, tasks) && core >= 0
    ensures CoresMark(tdg, core + 1, t) <==> CoresMark(tdg, core, t) || RowsMark(tdg, tasks, |tasks|, t)
  {
    if high: nat, low: nat :| CoreBelow(tdg, high, core + 1) && MarkedBy(tdg, t, high, low) {
      if CoreIs(tdg, high, core) {
        assert CoreIs(tdg, low, core) && high in tasks && low in tasks;
        var i: nat :| i < |tasks| && tasks[i] == high;
        var j: nat :| j < |tasks| && tasks[j] == low;
        assert PriorityOf(tdg, tasks[i]) > PriorityOf(tdg, tasks[j]);
        assert RowMarks(tdg, tasks, i, |tasks|, t);
      } else {
        assert CoreBelow(tdg, high, core);
      }
    }
    if i: nat :| i < |tasks| && RowMarks(tdg, tasks, i, |tasks|, t) {
      var m: nat :| i < m < |tasks| && MarkedBy(tdg, t, tasks[i], tasks[m]);
      assert tasks[i] in tasks && CoreBelow(tdg, tasks[i], core + 1);
    }
    if high: nat, low: nat :| CoreBelow(tdg, high, core) && MarkedBy(tdg, t, high, low) {
      assert CoreBelow(tdg, high, core + 1);
    }
  }

  // --------------------------------------------------------------------- resources

  /** The processors of the first n nodes that are taken and given back at t: by the
      first and the last step of each task. */
  function CpusTaken(tdg: Tdg, first: nat, n: nat, t: nat): set<nat>
    requires n <= |tdg.nodes|
  {
    set m: nat | m < n && IsTask(tdg, m) && 0 <= tdg.nodes[m].task.core && FirstStep(tdg, m) == t ::
      first + tdg.nodes[m].task.core
  }

  function CpusGiven(tdg: Tdg, first: nat, n: nat, t: nat): set<nat>
    requires n <= |tdg.nodes|
  {
    set m: nat | m < n && IsTask(tdg, m) && 0 <= tdg.nodes[m].task.core
      && FirstStep(tdg, m) + 3 * |tdg.nodes[m].task.locks| + 1 == t ::
      first + tdg.nodes[m].task.core
  }

  /** The first k locks of one task: lock j is taken at step 2 + 2 j and given back
      at j steps before the last but one. */
  function TaskTaken(locks: seq<Lock>, first: nat, step: nat, k: nat, t: nat): set<nat>
    requires k <= |locks|
  {
    set j: nat | j < k && step + 2 + 2 * j == t :: first + locks[j].id
  }

  function TaskGiven(locks: seq<Lock>, first: nat, step: nat, k: nat, t: nat): set<nat>
    requires k <= |locks|
  {
    set j: nat | j < k && step + 3 * |locks| - j == t :: first + locks[j].id
  }

  function LocksTaken(tdg: Tdg, first: nat, n: nat, t: nat): set<nat>
    requires n <= |tdg.nodes|
  {
    set m: nat, x: nat | m < n && IsTask(tdg, m)
      && x in TaskTaken(tdg.nodes[m].task.locks, first, FirstStep(tdg, m), |tdg.nodes[m].task.locks|, t) :: x
  }

  function LocksGiven(tdg: Tdg, first: nat, n: nat, t: nat): set<nat>
    requires n <= |tdg.nodes|
  {
    set m: nat, x: nat | m < n && IsTask(tdg, m)
      && x in TaskGiven(tdg.nodes[m].task.locks, first, FirstStep(tdg, m), |tdg.nodes[m].task.locks|, t) :: x
  }

  /** w is v with more arcs. */
  ghost predicate MoreArcs(v: Sketch, w: Sketch) {
    Even(w) && w.places == v.places && w.initial == v.initial && w.transitions == v.transitions
  }

  ghost predicate ArcsAt(v: Sketch, w: Sketch, t: nat, taken: set<nat>, given: set<nat>) {
    t < |v.ins| && t < |v.outs| ==>
      t < |w.ins| && t < |w.outs| && w.ins[t] == v.ins[t] + taken && w.outs[t] == v.outs[t] + given
  }

  ghost predicate CpusAt(tdg: Tdg, v: Sketch, w: Sketch, first: nat, n: nat, t: nat)
    requires n <= |tdg.nodes|
  {
    ArcsAt(v, w, t, CpusTaken(tdg, first, n, t), CpusGiven(tdg, first, n, t))
  }

  ghost predicate TaskLocksAt(v: Sketch, w: Sketch, locks: seq<Lock>, first: nat, step: nat, k: nat, t: nat)
    requires k <= |locks|
  {
    ArcsAt(v, w, t, TaskTaken(locks, first, step, k, t), TaskGiven(locks, first, step, k, t))
  }

  ghost predicate LocksAt(tdg: Tdg, v: Sketch, w: Sketch, first: nat, n: nat, t: nat)
    requires n <= |tdg.nodes|
  {
    ArcsAt(v, w, t, LocksTaken(tdg, first, n, t), LocksGiven(tdg, first, n, t))
  }

  function Only(hit: bool, p: nat): set<nat> {
    if hit then {p} else {}
  }

  /** One resource, taken at one transition and given back at another. */
  lemma OneBond(v: Sketch, p: nat, take: nat, give: nat)
    requires Even(v) && p < |v.places|
    ensures
      var w := WithOut(WithIn(v, p, take), give, p);
      MoreArcs(v, w) && forall t: nat :: BondAt(v, w, p, take, give, t)
  {
    var w := WithOut(WithIn(v, p, take), give, p);
    forall t: nat
      ensures BondAt(v, w, p, take, give, t)
    {
      if t < |v.ins| {
        assert v.ins[t] + {} == v.ins[t] && v.outs[t] + {} == v.outs[t];
      }
    }
  }

  ghost predicate BondAt(v: Sketch, w: Sketch, p: nat, take: nat, give: nat, t: nat) {
    ArcsAt(v, w, t, Only(t == take, p), Only(t == give, p))
  }

  lemma ArcsOn(u: Sketch, v: Sketch, w: Sketch, t: nat, taken: set<nat>, given: set<nat>, more: set<nat>,
               back: set<nat>)
    requires ArcsAt(u, v, t, taken, given) && ArcsAt(v, w, t, more, back)
    ensures ArcsAt(u, w, t, taken + more, given + back)
  {
  }

  lemma CpusStep(tdg: Tdg, first: nat, n: nat, t: nat)
    requires n < |tdg.nodes|
    ensures IsTask(tdg, n) && 0 <= tdg.nodes[n].task.core ==>
      var p, step := first + tdg.nodes[n].task.core, FirstStep(tdg, n);
      && CpusTaken(tdg, first, n + 1, t) == CpusTaken(tdg, first, n, t) + Only(t == step, p)
      && CpusGiven(tdg, first, n + 1, t)
           == CpusGiven(tdg, first, n, t) + Only(t == step + 3 * |tdg.nodes[n].task.locks| + 1, p)
    ensures !IsTask(tdg, n) ==>
      && CpusTaken(tdg, first, n + 1, t) == CpusTaken(tdg, first, n, t)
      && CpusGiven(tdg, first, n + 1, t) == CpusGiven(tdg, first, n, t)
  {
  }

  lemma {:induction false} CpusBuilt(tdg: Tdg, v: Sketch, chains: seq<seq<nat>>, first: nat, n: nat)
    requires ChainsAre(tdg, chains) && n <= |tdg.nodes| && Even(v) && |v.places| >= first + tdg.numCpus
    requires ValidTdg(tdg) && !tdg.policy.Resume?
    ensures
      var w := CpusBound(v, tdg, chains, first, n);
      MoreArcs(v, w) && forall t: nat :: CpusAt(tdg, v, w, first, n, t)
  {
    hide WithIn, WithOut, CpusTaken, CpusGiven;
    if n == 0 {
      NoCpus(tdg, v, first);
    } else {
      CpusBuilt(tdg, v, chains, first, n - 1);
      var u, w := CpusBound(v, tdg, chains, first, n - 1), CpusBound(v, tdg, chains, first, n);
      CpuBond(tdg, u, chains, first, n - 1);
      hide CpusBound, ArcsAt;
      forall t: nat
        ensures CpusAt(tdg, v, w, first, n, t)
      {
        assert CpusAt(tdg, v, u, first, n - 1, t);
        CpuAdded(tdg, v, u, w, first, n - 1, t);
      }
    }
  }

  lemma NoCpus(tdg: Tdg, v: Sketch, first: nat)
    requires Even(v)
    ensures MoreArcs(v, v) && forall t: nat :: CpusAt(tdg, v, v, first, 0, t)
  {
  }

  /** The processor of node n, if it is a task. */
  ghost predicate CpuAt(tdg: Tdg, v: Sketch, w: Sketch, first: nat, n: nat, t: nat)
    requires n < |tdg.nodes|
  {
    if IsTask(tdg, n) then
      && 0 <= tdg.nodes[n].task.core
      && var p, step := first + tdg.nodes[n].task.core, FirstStep(tdg, n);
         BondAt(v, w, p, step, step + 3 * |tdg.nodes[n].task.locks| + 1, t)
    else w == v
  }

  lemma CpuBond(tdg: Tdg, v: Sketch, chains: seq<seq<nat>>, first: nat, n: nat)
    requires ChainsAre(tdg, chains) && n < |tdg.nodes| && Even(v) && |v.places| >= first + tdg.numCpus
    requires ValidTdg(tdg) && !tdg.policy.Resume?
    ensures
      var chain := chains[n];
      var w := if IsTask(tdg, n) && 0 <= tdg.nodes[n].task.core
               then BoundTo(v, first + tdg.nodes[n].task.core, chain, 1, |chain| - 2) else v;
      MoreArcs(v, w) && forall t: nat :: CpuAt(tdg, v, w, first, n, t)
  {
    assert ChainIs(tdg, chains, n);
    if IsTask(tdg, n) {
      assert ValidTask(tdg, tdg.nodes[n].task);
      var step, length := FirstStep(tdg, n), |chains[n]|;
      assert At(chains[n], 1) == step && At(chains[n], length - 2) == step + 3 * |tdg.nodes[n].task.locks| + 1;
      OneBond(v, first + tdg.nodes[n].task.core, step, step + 3 * |tdg.nodes[n].task.locks| + 1);
    }
  }

  lemma CpuAdded(tdg: Tdg, v: Sketch, u: Sketch, w: Sketch, first: nat, n: nat, t: nat)
    requires n < |tdg.nodes| && CpusAt(tdg, v, u, first, n, t) && CpuAt(tdg, u, w, first, n, t)
    ensures CpusAt(tdg, v, w, first, n + 1, t)
  {
    hide CpusTaken, CpusGiven, ArcsAt;
    CpusStep(tdg, first, n, t);
    if IsTask(tdg, n) {
      var p, step := first + tdg.nodes[n].task.core, FirstStep(tdg, n);
      ArcsOn(v, u, w, t, CpusTaken(tdg, first, n, t), CpusGiven(tdg, first, n, t), Only(t == step, p),
             Only(t == step + 3 * |tdg.nodes[n].task.locks| + 1, p));
    }
  }

  lemma {:induction false} TaskLocksBuilt(v: Sketch, locks: seq<Lock>, chain: seq<nat>, first: nat, step: nat, k: nat)
    requires k <= |locks| && Even(v) && |chain| == 6 * |locks| + 5
    requires forall i: int :: 0 <= i < |chain| && i % 2 == 1 ==> At(chain, i) == step + i / 2
    requires forall j :: 0 <= j < |locks| ==> first + locks[j].id < |v.places|
    ensures
      var w := TaskLocksBound(v, locks, chain, first, k);
      MoreArcs(v, w) && forall t: nat :: TaskLocksAt(v, w, locks, first, step, k, t)
  {
    hide WithIn, WithOut, TaskTaken, TaskGiven;
    if k == 0 {
      NoLocks(v, locks, first, step);
    } else {
      TaskLocksBuilt(v, locks, chain, first, step, k - 1);
      var u, w := TaskLocksBound(v, locks, chain, first, k - 1), TaskLocksBound(v, locks, chain, first, k);
      OneLock(u, locks, chain, first, step, k - 1);
      hide TaskLocksBound, ArcsAt, LockAt, At;
      forall t: nat
        ensures TaskLocksAt(v, w, locks, first, step, k, t)
      {
        assert TaskLocksAt(v, u, locks, first, step, k - 1, t);
        LockAdded(v, u, w, locks, first, step, k - 1, t);
      }
    }
  }

  /** Lock k of a task. */
  ghost predicate LockAt(v: Sketch, w: Sketch, locks: seq<Lock>, first: nat, step: nat, k: nat, t: nat)
    requires k < |locks|
  {
    BondAt(v, w, first + locks[k].id, step + 2 * (k + 1), step + 3 * |locks| - k, t)
  }

  lemma OneLock(v: Sketch, locks: seq<Lock>, chain: seq<nat>, first: nat, step: nat, k: nat)
    requires k < |locks| && Even(v) && |chain| == 6 * |locks| + 5 && first + locks[k].id < |v.places|
    requires forall i: int :: 0 <= i < |chain| && i % 2 == 1 ==> At(chain, i) == step + i / 2
    ensures
      var w := BoundTo(v, first + locks[k].id, chain, AcquirePos(k), ReleasePos(|chain|, k));
      && MoreArcs(v, w)
      && forall t: nat :: LockAt(v, w, locks, first, step, k, t)
  {
    assert At(chain, AcquirePos(k)) == step + 2 * (k + 1);
    assert At(chain, ReleasePos(|chain|, k)) == step + 3 * |locks| - k;
    OneBond(v, first + locks[k].id, step + 2 * (k + 1), step + 3 * |locks| - k);
  }

  lemma NoLocks(v: Sketch, locks: seq<Lock>, first: nat, step: nat)
    requires Even(v)
    ensures MoreArcs(v, v) && forall t: nat :: TaskLocksAt(v, v, locks, first, step, 0, t)
  {
  }

  lemma LockAdded(v: Sketch, u: Sketch, w: Sketch, locks: seq<Lock>, first: nat, step: nat, k: nat, t: nat)
    requires k < |locks| && TaskLocksAt(v, u, locks, first, step, k, t)
    requires LockAt(u, w, locks, first, step, k, t)
    ensures TaskLocksAt(v, w, locks, first, step, k + 1, t)
  {
    var p := first + locks[k].id;
    assert TaskTaken(locks, first, step, k + 1, t)
      == TaskTaken(locks, first, step, k, t) + Only(t == step + 2 * (k + 1), p);
    assert TaskGiven(locks, first, step, k + 1, t)
      == TaskGiven(locks, first, step, k, t) + Only(t == step + 3 * |locks| - k, p);
  }

  lemma {:induction false} LocksBuilt(tdg: Tdg, v: Sketch, chains: seq<seq<nat>>, first: nat, n: nat)
    requires ChainsAre(tdg, chains) && n <= |tdg.nodes| && Even(v) && |v.places| >= first + tdg.lockCount
    requires ValidTdg(tdg)
    ensures
      var w := LocksBound(v, tdg, chains, first, n);
      MoreArcs(v, w) && forall t: nat :: LocksAt(tdg, v, w, first, n, t)
  {
    hide TaskLocksBound;
    if n > 0 {
      LocksBuilt(tdg, v, chains, first, n - 1);
      var u, w := LocksBound(v, tdg, chains, first, n - 1), LocksBound(v, tdg, chains, first, n);
      assert ChainIs(tdg, chains, n - 1);
      if IsTask(tdg, n - 1) {
        var locks := tdg.nodes[n - 1].task.locks;
        assert ValidTask(tdg, tdg.nodes[n - 1].task);
        TaskLocksBuilt(u, locks, chains[n - 1], first, FirstStep(tdg, n - 1), |locks|);
      }
      forall t: nat
        ensures LocksAt(tdg, v, w, first, n, t)
      {
        assert LocksAt(tdg, v, u, first, n - 1, t);
        LocksAdded(tdg, v, u, w, first, n - 1, t);
      }
    }
  }

  lemma LocksAdded(tdg: Tdg, v: Sketch, u: Sketch, w: Sketch, first: nat, n: nat, t: nat)
    requires n < |tdg.nodes| && LocksAt(tdg, v, u, first, n, t) && |u.ins| == |u.outs| == |v.ins| == |v.outs|
    requires
      if !IsTask(tdg, n) then w == u
      else
        var locks := tdg.nodes[n].task.locks;
        TaskLocksAt(u, w, locks, first, FirstStep(tdg, n), |locks|, t)
    ensures LocksAt(tdg, v, w, first, n + 1, t)
  {
    var taken, given := LocksTaken(tdg, first, n, t), LocksGiven(tdg, first, n, t);
    if IsTask(tdg, n) {
      var locks := tdg.nodes[n].task.locks;
      assert LocksTaken(tdg, first, n + 1, t)
        == taken + TaskTaken(locks, first, FirstStep(tdg, n), |locks|, t);
      assert LocksGiven(tdg, first, n + 1, t)
        == given + TaskGiven(locks, first, FirstStep(tdg, n), |locks|, t);
    } else {
      assert LocksTaken(tdg, first, n + 1, t) == taken && LocksGiven(tdg, first, n + 1, t) == given;
    }
  }

  // --------------------------------------------------------------------- the whole

  /** Where the resource places are: processors, unless the policy is resume, and
      then locks. */
  function FirstResource(tdg: Tdg): nat {
    EdgePlace(tdg, |tdg.edges|) + Releases(tdg, |tdg.periodic|)
  }

  function FirstLock(tdg: Tdg): nat {
    FirstResource(tdg) + if tdg.policy.Resume? then 0 else tdg.numCpus
  }

  /** The resources that t takes and gives back. */
  function TakenAt(tdg: Tdg, t: nat): set<nat> {
    (if tdg.policy.Resume? then {} else CpusTaken(tdg, FirstResource(tdg), |tdg.nodes|, t))
      + LocksTaken(tdg, FirstLock(tdg), |tdg.nodes|, t)
  }

  function GivenAt(tdg: Tdg, t: nat): set<nat> {
    (if tdg.policy.Resume? then {} else CpusGiven(tdg, FirstResource(tdg), |tdg.nodes|, t))
      + LocksGiven(tdg, FirstLock(tdg), |tdg.nodes|, t)
  }

  ghost predicate ResourcedAt(tdg: Tdg, v: Sketch, w: Sketch, t: nat) {
    ArcsAt(v, w, t, TakenAt(tdg, t), GivenAt(tdg, t))
  }

  /** Resource place p is full from the start. */
  ghost predicate FullAt(v: Sketch, p: nat, tokens: int) {
    PlaceIs(v, p, Fin(tokens), false) && p < |v.initial| && v.initial[p] == tokens
  }

  lemma {:induction false} ResourcesBuilt(v: Sketch, count: nat, tokens: int)
    requires Even(v)
    ensures
      var w := Resources(v, count, tokens);
      && Even(w) && w.transitions == v.transitions && w.ins == v.ins && w.outs == v.outs
      && v.places <= w.places && v.initial <= w.initial && |w.places| == |v.places| + count
      && forall p: nat :: |v.places| <= p < |v.places| + count ==> FullAt(w, p, tokens)
  {
    if count > 0 {
      ResourcesBuilt(v, count - 1, tokens);
      var w := Resources(v, count, tokens);
      forall p: nat | |v.places| <= p < |v.places| + count
        ensures FullAt(w, p, tokens)
      {
        assert p < |v.places| + count - 1 ==> FullAt(Resources(v, count - 1, tokens), p, tokens);
      }
    }
  }

  /** What binding the resources makes of a net. */
  ghost predicate Resourced(tdg: Tdg, v: Sketch, w: Sketch) {
    && Even(w) && w.transitions == v.transitions && v.places <= w.places && v.initial <= w.initial
    && |w.places| == FirstLock(tdg) + tdg.lockCount
    && (!tdg.policy.Resume? ==>
          forall p: nat :: FirstResource(tdg) <= p < FirstLock(tdg) ==> FullAt(w, p, tdg.coresPerCpu))
    && (forall p: nat :: FirstLock(tdg) <= p < |w.places| ==> FullAt(w, p, 1))
    && forall t: nat :: ResourcedAt(tdg, v, w, t)
  }

  lemma AllResourcesBuilt(tdg: Tdg, v: Sketch, chains: seq<seq<nat>>)
    requires ValidTdg(tdg) && ChainsAre(tdg, chains) && Even(v) && |v.places| == FirstResource(tdg)
    ensures Resourced(tdg, v, WithResources(v, tdg, chains))
  {
    assert |chains| == |tdg.nodes|;
    hide Resources, CpusBound, LocksBound, ChainsAre;
    var cpus := if tdg.policy.Resume? then v else Resources(v, tdg.numCpus, tdg.coresPerCpu);
    var places := Resources(cpus, tdg.lockCount, 1);
    var bound := if tdg.policy.Resume? then places else CpusBound(places, tdg, chains, |v.places|, |tdg.nodes|);
    var w := WithResources(v, tdg, chains);
    ResourcesBuilt(v, tdg.numCpus, tdg.coresPerCpu);
    ResourcesBuilt(cpus, tdg.lockCount, 1);
    if !tdg.policy.Resume? {
      CpusBuilt(tdg, places, chains, |v.places|, |tdg.nodes|);
    }
    LocksBuilt(tdg, bound, chains, |cpus.places|, |tdg.nodes|);
    forall p: nat | FirstResource(tdg) <= p < FirstLock(tdg)
      ensures FullAt(w, p, tdg.coresPerCpu)
    {
      assert FullAt(cpus, p, tdg.coresPerCpu);
    }
    forall p: nat | FirstLock(tdg) <= p < |w.places|
      ensures FullAt(w, p, 1)
    {
      assert FullAt(places, p, 1);
    }
    forall t: nat
      ensures ResourcedAt(tdg, v, w, t)
    {
      assert LocksAt(tdg, bound, w, FirstLock(tdg), |tdg.nodes|, t);
      if !tdg.policy.Resume? {
        assert CpusAt(tdg, places, bound, FirstResource(tdg), |tdg.nodes|, t);
      }
    }
  }

  /** Transitions from n on are not suspendable. */
  ghost predicate PlainFrom(v: Sketch, n: nat) {
    forall t: nat :: n <= t < |v.transitions| ==> PlainAt(v, t)
  }

  ghost predicate PlainAt(v: Sketch, t: nat) {
    t < |v.transitions| ==> !v.transitions[t].suspendable
  }

  /** w has the transitions of v and others that are not suspendable. */
  lemma PlainMore(v: Sketch, w: Sketch, n: nat)
    requires PlainFrom(v, n) && n <= |v.transitions| <= |w.transitions|
    requires forall t: nat :: t < |v.transitions| ==> w.transitions[t] == v.transitions[t]
    requires PlainFrom(w, |v.transitions|)
    ensures PlainFrom(w, n)
  {
    forall t: nat | n <= t < |w.transitions|
      ensures PlainAt(w, t)
    {
      assert t < |v.transitions| ==> PlainAt(v, t);
    }
  }

  lemma {:induction false} EdgesPlain(tdg: Tdg, v: Sketch, ends: seq<(nat, nat)>, k: nat)
    requires ValidTdg(tdg) && k <= |tdg.edges| && |ends| == |tdg.nodes| && EdgesDrawn(tdg, v, ends, k).Some?
    ensures
      var w := EdgesDrawn(tdg, v, ends, k).value;
      |w.transitions| >= |v.transitions| && PlainFrom(w, |v.transitions|)
  {
    hide WithIn, WithOut;
    if k > 0 {
      EdgesPlain(tdg, v, ends, k - 1);
      assert ValidLink(tdg, tdg.edges[k - 1]);
      var u, w := EdgesDrawn(tdg, v, ends, k - 1).value, EdgesDrawn(tdg, v, ends, k).value;
      assert |w.transitions| >= |u.transitions| && PlainFrom(w, |u.transitions|);
      PlainMore(u, w, |v.transitions|);
    }
  }

  lemma {:induction false} ReleasesPlain(tdg: Tdg, v: Sketch, ends: seq<(nat, nat)>, k: nat)
    requires ValidTdg(tdg) && k <= |tdg.periodic| && |ends| == |tdg.nodes|
    ensures
      var w := AllReleased(tdg, v, ends, k);
      |w.transitions| >= |v.transitions| && PlainFrom(w, |v.transitions|)
  {
    if k > 0 {
      ReleasesPlain(tdg, v, ends, k - 1);
      assert IsTask(tdg, tdg.periodic[k - 1].0);
      PlainMore(AllReleased(tdg, v, ends, k - 1), AllReleased(tdg, v, ends, k), |v.transitions|);
    }
  }

  lemma {:induction false} ConsumersPlain(tdg: Tdg, v: Sketch, ends: seq<(nat, nat)>, n: nat)
    requires n <= |tdg.nodes| == |ends|
    ensures
      var w := AllConsumed(tdg, v, ends, n);
      |w.transitions| >= |v.transitions| && PlainFrom(w, |v.transitions|)
  {
    if n > 0 {
      ConsumersPlain(tdg, v, ends, n - 1);
      PlainMore(AllConsumed(tdg, v, ends, n - 1), AllConsumed(tdg, v, ends, n), |v.transitions|);
    }
  }

  /** The net after the edges, with releases and consumers, and with restarts. */
  datatype Stages = Stages(nodes: Draft, edges: Sketch, bound: Sketch, restarted: Sketch)

  ghost predicate StagesBuilt(tdg: Tdg, x: Stages)
    requires ValidTdg(tdg)
  {
    && NodesBuilt(tdg, x.nodes, |tdg.nodes|)
    && EdgesBuilt(tdg, x.nodes.sketch, x.edges, |tdg.edges|)
    && BindingsBuilt(tdg, x.edges, x.bound)
    && OnlyRestarts(tdg, x.bound, x.restarted)
    && (if tdg.policy.Restart? then CoresRestart(tdg, x.restarted, tdg.numCpus) else x.restarted == x.bound)
    && PlainFrom(x.bound, FirstStep(tdg, |tdg.nodes|))
    && forall t: nat :: MarksAt(tdg, x.bound, x.restarted, t)
  }

  ghost predicate MarksAt(tdg: Tdg, v: Sketch, w: Sketch, t: nat) {
    MarksIf(v, w, t, tdg.policy.Restart? && CoresMark(tdg, tdg.numCpus, t))
  }

  lemma AllMarksBuilt(tdg: Tdg, v: Sketch, chains: seq<seq<nat>>)
    requires ChainsAre(tdg, chains) && Ready(tdg, v)
    ensures
      var w := if tdg.policy.Restart? then AllPreempted(v, tdg, chains, tdg.numCpus) else v;
      forall t: nat :: MarksAt(tdg, v, w, t)
  {
    var w := if tdg.policy.Restart? then AllPreempted(v, tdg, chains, tdg.numCpus) else v;
    forall t: nat
      ensures MarksAt(tdg, v, w, t)
    {
      AllMarked(tdg, v, chains, tdg.numCpus, t);
    }
  }

  lemma AllPlain(tdg: Tdg, v: Sketch, e: Sketch, ends: seq<(nat, nat)>)
    requires ValidTdg(tdg) && EndsAre(tdg, ends) && EdgesDrawn(tdg, v, ends, |tdg.edges|) == Some(e)
    requires |v.transitions| == FirstStep(tdg, |tdg.nodes|)
    requires Even(e) && Blank(e.initial) && |e.places| >= FirstPlace(tdg, |tdg.nodes|)
    ensures
      var filled := StartsFilled(tdg, e, ends, |tdg.starts|);
      var released := AllReleased(tdg, filled, ends, |tdg.periodic|);
      PlainFrom(AllConsumed(tdg, released, ends, |tdg.nodes|), FirstStep(tdg, |tdg.nodes|))
  {
    hide StartsFilled, AllReleased, AllConsumed, EdgesDrawn;
    var filled := StartsFilled(tdg, e, ends, |tdg.starts|);
    var released := AllReleased(tdg, filled, ends, |tdg.periodic|);
    EdgesPlain(tdg, v, ends, |tdg.edges|);
    StartsBuilt(tdg, e, ends, |tdg.starts|);
    assert PlainFrom(filled, |v.transitions|) by {
      forall t: nat | |v.transitions| <= t < |filled.transitions|
        ensures PlainAt(filled, t)
      {
        assert PlainAt(e, t);
      }
    }
    AllReleasesBuilt(tdg, filled, ends, |tdg.periodic|);
    ReleasesPlain(tdg, filled, ends, |tdg.periodic|);
    PlainMore(filled, released, |v.transitions|);
    AllConsumersBuilt(tdg, released, ends, |tdg.nodes|);
    ConsumersPlain(tdg, released, ends, |tdg.nodes|);
    PlainMore(released, AllConsumed(tdg, released, ends, |tdg.nodes|), |v.transitions|);
  }

  /** Tokens, releases and consumers, after the edges. */
  ghost predicate BindingsBuilt(tdg: Tdg, v: Sketch, w: Sketch)
    requires ValidTdg(tdg)
  {
    var p0, t0 := |v.places|, |v.transitions|;
    && Contains(w, v) && v.transitions <= w.transitions && |w.places| == p0 + Releases(tdg, |tdg.periodic|)
    && |w.transitions| == t0 + Releases(tdg, |tdg.periodic|) + Consumers(tdg, |tdg.nodes|)
    && (forall p: nat :: p < p0 ==> FilledAt(tdg, w, |tdg.starts|, p))
    && (forall j: nat :: j < |tdg.periodic| ==> ReleaseAt(tdg, w, p0, t0, j))
    && forall n: nat :: n < |tdg.nodes| ==> ConsumerLast(tdg, w, t0, n)
  }

  /** The consumers come behind the releases. */
  ghost predicate ConsumerLast(tdg: Tdg, v: Sketch, t0: nat, n: nat)
    requires n < |tdg.nodes|
  {
    ConsumerAt(tdg, v, t0 + Releases(tdg, |tdg.periodic|), n)
  }

  lemma AllBindingsBuilt(tdg: Tdg, v: Sketch, ends: seq<(nat, nat)>)
    requires ValidTdg(tdg) && EndsAre(tdg, ends) && Even(v) && Blank(v.initial)
    requires |v.places| >= FirstPlace(tdg, |tdg.nodes|)
    ensures
      var filled := StartsFilled(tdg, v, ends, |tdg.starts|);
      var released := AllReleased(tdg, filled, ends, |tdg.periodic|);
      BindingsBuilt(tdg, v, AllConsumed(tdg, released, ends, |tdg.nodes|))
  {
    hide StartsFilled, AllReleased, AllConsumed;
    var filled := StartsFilled(tdg, v, ends, |tdg.starts|);
    var released := AllReleased(tdg, filled, ends, |tdg.periodic|);
    var w := AllConsumed(tdg, released, ends, |tdg.nodes|);
    StartsBuilt(tdg, v, ends, |tdg.starts|);
    AllReleasesBuilt(tdg, filled, ends, |tdg.periodic|);
    AllConsumersBuilt(tdg, released, ends, |tdg.nodes|);
    FilledContains(v, filled);
    ContainsMore(v, filled, released);
    ContainsMore(v, released, w);
    forall p: nat | p < |v.places|
      ensures FilledAt(tdg, w, |tdg.starts|, p)
    {
      assert FilledAt(tdg, filled, |tdg.starts|, p);
    }
    forall j: nat | j < |tdg.periodic|
      ensures ReleaseAt(tdg, w, |v.places|, |v.transitions|, j)
    {
      ReleaseKept(tdg, released, w, |v.places|, |v.transitions|, j);
    }
    forall n: nat | n < |tdg.nodes|
      ensures ConsumerLast(tdg, w, |v.transitions|, n)
    {
      assert ConsumerAt(tdg, w, |released.transitions|, n);
    }
  }

  lemma FilledContains(v: Sketch, w: Sketch)
    requires Even(v) && w == v.(initial := w.initial) && |w.initial| == |v.initial|
    ensures Contains(w, v)
  {
  }

  /** The stages of the net of a task graph. */
  lemma DrawnStages(tdg: Tdg) returns (x: Stages)
    requires ValidTdg(tdg) && Drawn(tdg).Some?
    ensures StagesBuilt(tdg, x) && NodeDrafts(tdg, |tdg.nodes|) == Some(x.nodes)
    ensures Resourced(tdg, x.restarted, Drawn(tdg).value)
  {
    hide NodesBuilt, EdgesBuilt, BindingsBuilt, OnlyRestarts, CoresRestart, Resourced, PlainFrom, MarksAt;
    var d := NodeDrafts(tdg, |tdg.nodes|).value;
    AllNodesBuilt(tdg, |tdg.nodes|);
    NodeFacts(tdg, d);
    AllEdgesBuilt(tdg, d.sketch, d.ends, |tdg.edges|);
    var e := EdgesDrawn(tdg, d.sketch, d.ends, |tdg.edges|).value;
    EdgeFacts(tdg, d.sketch, e);
    AllBindingsBuilt(tdg, e, d.ends);
    var filled := StartsFilled(tdg, e, d.ends, |tdg.starts|);
    var released := AllReleased(tdg, filled, d.ends, |tdg.periodic|);
    var bound := AllConsumed(tdg, released, d.ends, |tdg.nodes|);
    BindingFacts(tdg, e, bound);
    NoRestarts(tdg, bound);
    AllRestartsBuilt(tdg, bound, d.chains, tdg.numCpus);
    var restarted := if tdg.policy.Restart? then AllPreempted(bound, tdg, d.chains, tdg.numCpus) else bound;
    RestartFacts(tdg, bound, restarted);
    AllPlain(tdg, d.sketch, e, d.ends);
    AllMarksBuilt(tdg, bound, d.chains);
    AllResourcesBuilt(tdg, restarted, d.chains);
    x := Stages(d, e, bound, restarted);
  }

  lemma NodeFacts(tdg: Tdg, d: Draft)
    requires NodesBuilt(tdg, d, |tdg.nodes|)
    ensures |d.chains| == |d.ends| == |tdg.nodes| && EndsAre(tdg, d.ends) && ChainsAre(tdg, d.chains)
    ensures Even(d.sketch) && Blank(d.sketch.initial)
    ensures |d.sketch.places| == FirstPlace(tdg, |tdg.nodes|) && |d.sketch.transitions| == FirstStep(tdg, |tdg.nodes|)
  {
    EndsBuilt(tdg, d);
    ChainsBuilt(tdg, d);
  }

  lemma EdgeFacts(tdg: Tdg, before: Sketch, v: Sketch)
    requires ValidTdg(tdg) && EdgesBuilt(tdg, before, v, |tdg.edges|)
    ensures Even(v) && Blank(v.initial) && |v.places| == EdgePlace(tdg, |tdg.edges|) >= FirstPlace(tdg, |tdg.nodes|)
    ensures |v.transitions| == EdgeStep(tdg, |tdg.edges|) >= FirstStep(tdg, |tdg.nodes|)
  {
    EdgeStepsGrow(tdg, 0, |tdg.edges|);
  }

  lemma BindingFacts(tdg: Tdg, v: Sketch, w: Sketch)
    requires ValidTdg(tdg) && BindingsBuilt(tdg, v, w)
    ensures Even(w) && |w.places| == |v.places| + Releases(tdg, |tdg.periodic|) && |w.transitions| >= |v.transitions|
  {
  }

  lemma RestartFacts(tdg: Tdg, v: Sketch, w: Sketch)
    requires OnlyRestarts(tdg, v, w)
    ensures Even(w) && w.places == v.places
  {
  }
}
