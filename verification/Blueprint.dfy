/** What a task graph is lowered to, as a function of the graph: its places and
    transitions in order, and the input and output places of each transition. */
module Blueprint {
  import opened Bounds
  import opened Conservation
  import opened PetriNet
  import opened Ptpn
  import opened TaskGraph

  datatype Option<+T> = None | Some(value: T)

  /** A net whose arcs have weight 1. */
  datatype Sketch = Sketch(
    places: seq<Place>,
    initial: seq<int>,
    transitions: seq<Transition>,
    ins: seq<set<nat>>,
    outs: seq<set<nat>>)

  ghost function SketchOf(s: Incidence): (v: Sketch)
    requires Shaped(s)
    ensures v.places == s.places && v.initial == s.initial && v.transitions == s.transitions
    ensures |v.ins| == |v.outs| == |s.transitions|
    ensures forall t: nat :: t < |s.transitions| ==> v.ins[t] == In(s, t) && v.outs[t] == Out(s, t)
  {
    Sketch(s.places, s.initial, s.transitions,
           seq(|s.transitions|, t requires 0 <= t < |s.transitions| => In(s, t)),
           seq(|s.transitions|, t requires 0 <= t < |s.transitions| => Out(s, t)))
  }

  function WithPlace(v: Sketch, place: Place, tokens: int): Sketch {
    v.(places := v.places + [place], initial := v.initial + [tokens])
  }

  function WithTransition(v: Sketch, transition: Transition, ins: set<nat>, outs: set<nat>): Sketch {
    v.(transitions := v.transitions + [transition], ins := v.ins + [ins], outs := v.outs + [outs])
  }

  /** One more arc from p to t; an index out of range changes nothing. */
  function WithIn(v: Sketch, p: nat, t: nat): (r: Sketch)
    ensures r == v.(ins := r.ins) && |r.ins| == |v.ins|
    ensures forall u: nat :: u < |v.ins| ==> r.ins[u] == if u == t && p < |v.places| then v.ins[u] + {p} else v.ins[u]
  {
    if p < |v.places| && t < |v.ins| then v.(ins := v.ins[t := v.ins[t] + {p}]) else v
  }

  function WithOut(v: Sketch, t: nat, p: nat): (r: Sketch)
    ensures r == v.(outs := r.outs) && |r.outs| == |v.outs|
    ensures forall u: nat :: u < |v.outs| ==>
      r.outs[u] == if u == t && p < |v.places| then v.outs[u] + {p} else v.outs[u]
  {
    if p < |v.places| && t < |v.outs| then v.(outs := v.outs[t := v.outs[t] + {p}]) else v
  }

  function WithTokens(v: Sketch, p: nat, tokens: int): Sketch {
    if p < |v.initial| then v.(initial := v.initial[p := tokens]) else v
  }

  function WithSuspendable(v: Sketch, t: nat): Sketch {
    if t < |v.transitions| then v.(transitions := v.transitions[t := v.transitions[t].(suspendable := true)]) else v
  }

  // ------------------------------------------------------ the operations of a net

  lemma SketchPlace(s: Incidence, place: Place, tokens: int)
    requires Shaped(s)
    ensures
      var r := PlaceAdded(s, place);
      var filled := r.(initial := r.initial[|s.places| := tokens]);
      Shaped(filled) && SketchOf(filled) == WithPlace(SketchOf(s), place, tokens)
  {
    var r := PlaceAdded(s, place);
    var filled := r.(initial := r.initial[|s.places| := tokens]);
    assert Shaped(filled);
    forall t: nat | t < |s.transitions|
      ensures In(filled, t) == In(s, t) && Out(filled, t) == Out(s, t)
    {
    }
    assert SketchOf(filled).ins == SketchOf(s).ins && SketchOf(filled).outs == SketchOf(s).outs;
  }

  lemma SketchTransition(s: Incidence, transition: Transition)
    requires Shaped(s)
    ensures Shaped(TransitionAdded(s, transition))
    ensures SketchOf(TransitionAdded(s, transition)) == WithTransition(SketchOf(s), transition, {}, {})
  {
    var r := TransitionAdded(s, transition);
    assert Shaped(r);
    forall t: nat | t < |r.transitions|
      ensures In(r, t) == (if t < |s.transitions| then In(s, t) else {})
      ensures Out(r, t) == if t < |s.transitions| then Out(s, t) else {}
    {
    }
    assert SketchOf(r).ins == SketchOf(s).ins + [{}] && SketchOf(r).outs == SketchOf(s).outs + [{}];
  }

  lemma SketchIn(s: Incidence, p: nat, t: nat)
    requires Shaped(s) && p < |s.places| && t < |s.transitions|
    ensures Shaped(PreArcSet(s, p, t, 1)) && SketchOf(PreArcSet(s, p, t, 1)) == WithIn(SketchOf(s), p, t)
  {
    var r := PreArcSet(s, p, t, 1);
    assert Shaped(r);
    forall u: nat | u < |s.transitions|
      ensures In(r, u) == (if u == t then In(s, u) + {p} else In(s, u))
      ensures Out(r, u) == Out(s, u)
    {
    }
    assert SketchOf(r).ins == WithIn(SketchOf(s), p, t).ins && SketchOf(r).outs == SketchOf(s).outs;
  }

  lemma SketchOut(s: Incidence, t: nat, p: nat)
    requires Shaped(s) && p < |s.places| && t < |s.transitions|
    ensures Shaped(PostArcSet(s, t, p, 1)) && SketchOf(PostArcSet(s, t, p, 1)) == WithOut(SketchOf(s), t, p)
  {
    var r := PostArcSet(s, t, p, 1);
    assert Shaped(r);
    forall u: nat | u < |s.transitions|
      ensures In(r, u) == In(s, u)
      ensures Out(r, u) == if u == t then Out(s, u) + {p} else Out(s, u)
    {
    }
    assert SketchOf(r).ins == SketchOf(s).ins && SketchOf(r).outs == WithOut(SketchOf(s), t, p).outs;
  }

  /** Neither tokens nor suspendability touch an arc. */
  lemma SketchSameArcs(s: Incidence, r: Incidence)
    requires Shaped(s) && Shaped(r) && s.pre == r.pre && s.post == r.post
    requires |s.places| == |r.places| && |s.transitions| == |r.transitions|
    ensures SketchOf(r) == SketchOf(s).(places := r.places, initial := r.initial, transitions := r.transitions)
  {
    forall t: nat | t < |s.transitions|
      ensures In(r, t) == In(s, t) && Out(r, t) == Out(s, t)
    {
    }
    assert SketchOf(r).ins == SketchOf(s).ins && SketchOf(r).outs == SketchOf(s).outs;
  }

  // --------------------------------------------------------- nets that are sketched

  /** The net has these places, transitions and arcs. */
  ghost predicate Shows(net: Net, v: Sketch) {
    exists s: Incidence :: ShowsBy(net, v, s)
  }

  ghost predicate ShowsBy(net: Net, v: Sketch, s: Incidence) {
    ValidNet(net) && Realizes(net, s) && UnitArcs(s) && SketchOf(s) == v
  }

  /** Enabled means a token in every input place. */
  lemma EnabledShown(net: Net, v: Sketch, m: Marking, t: nat)
    requires Shows(net, v) && ValidMarking(net, m)
    ensures Enabled(net, m, t) <==> t < |v.ins| && forall p: nat :: p in v.ins[t] ==> p < |m| && m[p] >= 1
  {
    var s :| ShowsBy(net, v, s);
    if t < |s.transitions| {
      EnabledIff(net, s, m, t);
    }
  }

  /** One token in each of these places. */
  function Tokens(n: nat, places: set<nat>): (m: Marking)
    ensures |m| == n && forall p: nat :: p < n ==> m[p] == if p in places then 1 else 0
  {
    seq(n, p requires 0 <= p < n => if p in places then 1 else 0)
  }

  /** Firing moves single tokens along the arcs. */
  lemma FiringShown(net: Net, v: Sketch, t: nat, places: set<nat>)
    requires Shows(net, v) && t < |v.ins| == |v.outs|
    requires v.ins[t] <= places && v.outs[t] * (places - v.ins[t]) == {}
    requires forall p: nat :: p in v.outs[t] && p < |v.places| ==> Le(Fin(1), v.places[p].capacity)
    ensures t < |net.preArcs| && t < |net.postArcs|
    ensures FireMarking(net, Tokens(|net.places|, places), t) == Tokens(|net.places|, places - v.ins[t] + v.outs[t])
  {
    var s :| ShowsBy(net, v, s);
    var m, r := Tokens(|net.places|, places), Tokens(|net.places|, places - v.ins[t] + v.outs[t]);
    forall p: nat | p < |m|
      ensures TokensAfter(net, m, t, p) == r[p]
    {
      FiringArcs(net, s, t, p);
      assert p !in v.outs[t] * (places - v.ins[t]);
    }
  }

  // ------------------------------------------------------------------- transitions

  function Immediate(): (r: Interval)
    ensures r.Valid()
  {
    Interval(0, Fin(0), false, false)
  }

  /** A transition outside processor scheduling. */
  function ControlTransition(interval: Interval): Transition {
    Transition(interval, 0, -1, false)
  }

  /** Segments run at the task's priority on its core.  Under the resume policy
      they can be suspended, except the first ones of a task whose lock at the same
      position spins. */
  function ExecTransition(task: Task, k: nat, resume: bool): Transition
    requires k < |task.times|
  {
    var spins := k < |task.locks| && task.locks[k].spin;
    var interval := Interval(task.times[k].0, Fin(task.times[k].1), false, false);
    Transition(interval, task.priority, task.core, resume && !spins)
  }

  function StepTransition(task: Task): Transition {
    Transition(Immediate(), task.priority, task.core, false)
  }

  // ------------------------------------------------------------------------- nodes

  /** A net with one chain of it picked out. */
  datatype Strand = Strand(sketch: Sketch, chain: seq<nat>)

  /** Element i of a chain, 0 outside of it. */
  function At(chain: seq<nat>, i: int): nat {
    if 0 <= i < |chain| then chain[i] else 0
  }

  function Started(v: Sketch, capacity: int): Strand {
    Strand(WithPlace(v, Place(Fin(capacity), true), 0), [|v.places|])
  }

  function Longer(c: Strand, transition: Transition, capacity: int): Strand {
    var v, last := c.sketch, At(c.chain, |c.chain| - 1);
    Strand(WithPlace(WithTransition(v, transition, {last}, {|v.places|}), Place(Fin(capacity), true), 0),
           c.chain + [|v.transitions|, |v.places|])
  }

  /** Segment k, and the lock step after it if there is one. */
  function Segment(c: Strand, task: Task, resume: bool, capacity: int, k: nat): Strand
    requires k < |task.times|
  {
    var d := Longer(c, ExecTransition(task, k, resume), capacity);
    if k < |task.locks| then Longer(d, StepTransition(task), capacity) else d
  }

  function Segments(c: Strand, task: Task, resume: bool, capacity: int, k: nat): Strand
    requires k <= |task.times|
  {
    if k == 0 then c else Segment(Segments(c, task, resume, capacity, k - 1), task, resume, capacity, k - 1)
  }

  function TaskStrand(v: Sketch, task: Task, resume: bool, capacity: int): Strand {
    Segments(Longer(Started(v, capacity), StepTransition(task), capacity), task, resume, capacity, |task.times|)
  }

  /** Position i of a chain is this transition. */
  ghost predicate StepAt(chain: seq<nat>, transitions: seq<Transition>, i: nat, transition: Transition) {
    i < |chain| && chain[i] < |transitions| && transitions[chain[i]] == transition
  }

  /** The first k segments of a chain, with the processor step before and the lock
      steps between them. */
  ghost predicate SegmentsAt(chain: seq<nat>, transitions: seq<Transition>, task: Task, resume: bool, k: nat) {
    && k <= |task.times| && |chain| == ChainLength(|task.locks|, k)
    && StepAt(chain, transitions, 1, StepTransition(task))
    && (forall j: nat :: j < k ==>
          StepAt(chain, transitions, ExecPos(|task.locks|, j), ExecTransition(task, j, resume)))
    && (forall j: nat :: j < k && j < |task.locks| ==> StepAt(chain, transitions, AcquirePos(j), StepTransition(task)))
  }

  lemma SegmentMore(chain: seq<nat>, more: seq<nat>, before: seq<Transition>, after: seq<Transition>, task: Task,
                    resume: bool, k: nat)
    requires SegmentsAt(chain, before, task, resume, k) && chain <= more && before <= after && k < |task.times|
    requires |more| == ChainLength(|task.locks|, k + 1)
    requires StepAt(more, after, ExecPos(|task.locks|, k), ExecTransition(task, k, resume))
    requires k < |task.locks| ==> StepAt(more, after, AcquirePos(k), StepTransition(task))
    ensures SegmentsAt(more, after, task, resume, k + 1)
  {
    forall j: nat | j < k + 1
      ensures StepAt(more, after, ExecPos(|task.locks|, j), ExecTransition(task, j, resume))
    {
      if j < k {
        assert StepAt(chain, before, ExecPos(|task.locks|, j), ExecTransition(task, j, resume));
      }
    }
    forall j: nat | j < k + 1 && j < |task.locks|
      ensures StepAt(more, after, AcquirePos(j), StepTransition(task))
    {
      if j < k {
        assert StepAt(chain, before, AcquirePos(j), StepTransition(task));
      }
    }
  }

  lemma SegmentLayout(c: Strand, task: Task, resume: bool, capacity: int, k: nat)
    requires k < |task.times| && SegmentsAt(c.chain, c.sketch.transitions, task, resume, k)
    ensures
      var d := Segment(c, task, resume, capacity, k);
      SegmentsAt(d.chain, d.sketch.transitions, task, resume, k + 1)
  {
    var d := Segment(c, task, resume, capacity, k);
    SegmentMore(c.chain, d.chain, c.sketch.transitions, d.sketch.transitions, task, resume, k);
  }

  lemma {:induction false} SegmentsLayout(c: Strand, task: Task, resume: bool, capacity: int, k: nat)
    requires k <= |task.times| && SegmentsAt(c.chain, c.sketch.transitions, task, resume, 0)
    ensures var d := Segments(c, task, resume, capacity, k); SegmentsAt(d.chain, d.sketch.transitions, task, resume, k)
  {
    hide Segment, SegmentsAt;
    if k > 0 {
      SegmentsLayout(c, task, resume, capacity, k - 1);
      SegmentLayout(Segments(c, task, resume, capacity, k - 1), task, resume, capacity, k - 1);
    }
  }

  /** The chain of a task has its parts in their places. */
  lemma TaskLayout(v: Sketch, task: Task, resume: bool, capacity: int)
    ensures
      var c := TaskStrand(v, task, resume, capacity);
      SegmentsAt(c.chain, c.sketch.transitions, task, resume, |task.times|)
  {
    SegmentsLayout(Longer(Started(v, capacity), StepTransition(task), capacity), task, resume, capacity, |task.times|);
  }

  predicate Executable(task: Task) {
    task.times != [] && forall j :: 0 <= j < |task.times| ==> 0 <= task.times[j].0 <= task.times[j].1
  }

  /** The net, the chain of each node, and where each node starts and ends. */
  datatype Draft = Draft(sketch: Sketch, chains: seq<seq<nat>>, ends: seq<(nat, nat)>)

  function WithNode(d: Draft, v: Sketch, chain: seq<nat>, pair: (nat, nat)): Draft {
    Draft(v, d.chains + [chain], d.ends + [pair])
  }

  /** A task becomes a chain, a fork or join one transition, an empty node one
      place. */
  function NodeDraft(tdg: Tdg, d: Draft, node: Node): Option<Draft> {
    var v := d.sketch;
    match node
    case TaskNode(task) =>
      var c := TaskStrand(v, task, tdg.policy.Resume?, tdg.capacity);
      if Executable(task) then Some(WithNode(d, c.sketch, c.chain, (At(c.chain, 0), At(c.chain, |c.chain| - 1))))
        else None
    case ControlNode(interval, priority, core) =>
      Some(WithNode(d, WithTransition(v, Transition(interval, priority, core, false), {}, {}), [],
                    (|v.transitions|, |v.transitions|)))
    case EmptyNode =>
      Some(WithNode(d, WithPlace(v, Place(Fin(1), false), 0), [], (|v.places|, |v.places|)))
  }

  function NodeDrafts(tdg: Tdg, n: nat): Option<Draft>
    requires n <= |tdg.nodes|
  {
    if n == 0 then Some(Draft(Sketch([], [], [], [], []), [], []))
    else
      match NodeDrafts(tdg, n - 1)
      case None => None
      case Some(d) => NodeDraft(tdg, d, tdg.nodes[n - 1])
  }

  // ------------------------------------------------------------------------- edges

  function Bridged(v: Sketch, p: nat, interval: Interval, q: nat): Sketch {
    WithTransition(v, ControlTransition(interval), {p}, {q})
  }

  function EdgeDrawn(tdg: Tdg, v: Sketch, ends: seq<(nat, nat)>, e: Link): Option<Sketch>
    requires |ends| == |tdg.nodes| && ValidLink(tdg, e)
  {
    var from, to := ends[e.source].1, ends[e.target].0;
    if e.source == e.target then Monitored(v, from, to, e.period)
    else if e.dashed then Some(v)
    else if tdg.nodes[e.source].ControlNode? then
      if tdg.nodes[e.target].ControlNode? then None else Some(WithOut(v, from, to))
    else if tdg.nodes[e.target].ControlNode? then Some(WithIn(v, from, to))
    else Some(Bridged(v, from, e.interval, to))
  }

  function EdgesDrawn(tdg: Tdg, v: Sketch, ends: seq<(nat, nat)>, k: nat): Option<Sketch>
    requires ValidTdg(tdg) && |ends| == |tdg.nodes| && k <= |tdg.edges|
  {
    if k == 0 then Some(v)
    else
      match EdgesDrawn(tdg, v, ends, k - 1)
      case None => None
      case Some(w) => EdgeDrawn(tdg, w, ends, tdg.edges[k - 1])
  }

  /** The deadline monitor.  It fails without a period, and when no transition has
      the index of its third place, "ok"; the transition that does takes from the
      deadline place. */
  function Monitored(v: Sketch, end: nat, start: nat, period: int): Option<Sketch> {
    var deadline, timeout, done, endPlace := |v.places|, |v.places| + 1, |v.places| + 2, |v.places| + 3;
    var monitor := MonitorParts(v, end, start, period);
    if period < 0 || done >= |monitor.transitions| then None else Some(WithIn(monitor, deadline, done))
  }

  function FourPlaces(v: Sketch): Sketch {
    var place := Place(Fin(1), false);
    v.(places := v.places + [place, place, place, place], initial := v.initial + [0, 0, 0, 0])
  }

  function FourTransitions(v: Sketch, period: int): Sketch {
    var timed, now := ControlTransition(Interval(period, Fin(period), false, false)), ControlTransition(Immediate());
    v.(transitions := v.transitions + [timed, now, now, now], ins := v.ins + [{}, {}, {}, {}],
       outs := v.outs + [{}, {}, {}, {}])
  }

  /** Four places and four transitions: timed from start to deadline, ending from
      end to its place, complete from there to done, out from deadline to timeout.
      For a fork or join start and end are its transition, whose index is taken for
      that of a place; if there is no such place timed and ending take nothing, and
      timed has no arcs. */
  function MonitorParts(v: Sketch, end: nat, start: nat, period: int): Sketch {
    var deadline, timeout, done, endPlace := |v.places|, |v.places| + 1, |v.places| + 2, |v.places| + 3;
    FourTransitions(FourPlaces(v), period).(
      ins := v.ins + [OnlyPlace(v, start), OnlyPlace(v, end), {endPlace}, {deadline}],
      outs := v.outs + [if start < |v.places| + 4 then {deadline} else {}, {endPlace}, {done}, {timeout}])
  }

  /** p, if it is a place once the monitor has its places. */
  function OnlyPlace(v: Sketch, p: nat): set<nat> {
    if p < |v.places| + 4 then {p} else {}
  }

  ghost predicate Even(v: Sketch) {
    |v.initial| == |v.places| && |v.ins| == |v.outs| == |v.transitions|
  }

  /** The monitor's arcs, one by one. */
  function MonitorWired(v: Sketch, end: nat, start: nat, deadline: nat, timed: nat): Sketch {
    TimerWired(EndingWired(v, deadline, timed), end, start, deadline, timed)
  }

  function EndingWired(v: Sketch, deadline: nat, timed: nat): Sketch {
    var ended := WithIn(WithOut(v, timed + 1, deadline + 3), deadline + 3, timed + 2);
    WithIn(WithOut(ended, timed + 2, deadline + 2), deadline, deadline + 2)
  }

  function TimerWired(v: Sketch, end: nat, start: nat, deadline: nat, timed: nat): Sketch {
    EndsWired(WithOut(WithIn(v, deadline, timed + 3), timed + 3, deadline + 1), end, start, deadline, timed)
  }

  function EndsWired(v: Sketch, end: nat, start: nat, deadline: nat, timed: nat): Sketch {
    var ended := WithIn(v, end, timed + 1);
    if start < |v.places| then WithOut(WithIn(ended, start, timed), timed, deadline) else ended
  }

  lemma MonitorIn(v: Sketch, end: nat, start: nat, period: int, t: nat)
    requires Even(v) && |v.places| + 2 < |v.transitions| + 4 && t < |v.transitions| + 4
    ensures
      var r := MonitorWired(FourTransitions(FourPlaces(v), period), end, start, |v.places|, |v.transitions|);
      t < |r.ins| && r.ins[t] == WithIn(MonitorParts(v, end, start, period), |v.places|, |v.places| + 2).ins[t]
  {
    hide WithIn, WithOut;
    var parts, p, n := FourTransitions(FourPlaces(v), period), |v.places|, |v.transitions|;
    var r := MonitorWired(parts, end, start, p, n);
    var misplaced: set<nat> := if t == p + 2 then {p} else {};
    if t < n {
      assert parts.ins[t] == v.ins[t];
      assert r.ins[t] == v.ins[t] + misplaced;
    } else {
      assert parts.ins[t] == {};
      var i: set<nat> :=
        if t == n then OnlyPlace(v, start) else if t == n + 1 then OnlyPlace(v, end)
        else if t == n + 2 then {p + 3} else {p};
      assert r.ins[t] == i + misplaced;
    }
  }

  lemma MonitorIns(v: Sketch, end: nat, start: nat, period: int)
    requires Even(v) && |v.places| + 2 < |v.transitions| + 4
    ensures
      MonitorWired(FourTransitions(FourPlaces(v), period), end, start, |v.places|, |v.transitions|).ins
        == WithIn(MonitorParts(v, end, start, period), |v.places|, |v.places| + 2).ins
  {
    var r := MonitorWired(FourTransitions(FourPlaces(v), period), end, start, |v.places|, |v.transitions|);
    var wanted := WithIn(MonitorParts(v, end, start, period), |v.places|, |v.places| + 2);
    assert |r.ins| == |wanted.ins| == |v.ins| + 4;
    hide *;
    forall t: nat | t < |v.transitions| + 4
      ensures r.ins[t] == wanted.ins[t]
    {
      MonitorIn(v, end, start, period, t);
    }
  }

  lemma MonitorOuts(v: Sketch, end: nat, start: nat, period: int)
    requires Even(v) && |v.places| + 2 < |v.transitions| + 4
    ensures
      MonitorWired(FourTransitions(FourPlaces(v), period), end, start, |v.places|, |v.transitions|).outs
        == MonitorParts(v, end, start, period).outs
  {
    hide WithIn, WithOut;
    var parts, p, n := FourTransitions(FourPlaces(v), period), |v.places|, |v.transitions|;
    var r, wanted := MonitorWired(parts, end, start, p, n), MonitorParts(v, end, start, period);
    forall t: nat | t < n + 4
      ensures r.outs[t] == wanted.outs[t]
    {
      if t < n {
        assert parts.outs[t] == v.outs[t];
      } else {
        assert parts.outs[t] == {};
        var o: set<nat> :=
          if t == n then (if start < p + 4 then {p} else {}) else if t == n + 1 then {p + 3}
          else if t == n + 2 then {p + 2} else {p + 1};
        assert r.outs[t] == o;
      }
    }
  }

  lemma MonitorDrawn(v: Sketch, end: nat, start: nat, period: int)
    requires Even(v) && |v.places| + 2 < |v.transitions| + 4 && period >= 0
    ensures
      Some(MonitorWired(FourTransitions(FourPlaces(v), period), end, start, |v.places|, |v.transitions|))
        == Monitored(v, end, start, period)
  {
    MonitorIns(v, end, start, period);
    MonitorOuts(v, end, start, period);
  }

  /** The index of a place where one of a transition belongs: the monitor fails
      unless some transition has it, and when an older one does, that one takes from
      the deadline place from now on.  No other older transition changes. */
  lemma MonitorMisplaced(v: Sketch, end: nat, start: nat, period: int, t: nat)
    requires Even(v) && t < |v.transitions|
    ensures Monitored(v, end, start, period).None? <==> period < 0 || |v.places| + 2 >= |v.transitions| + 4
    ensures Monitored(v, end, start, period).Some? ==>
      var r := Monitored(v, end, start, period).value;
      && t < |r.ins| && t < |r.outs| && r.outs[t] == v.outs[t]
      && r.ins[t] == if t == |v.places| + 2 then v.ins[t] + {|v.places|} else v.ins[t]
  {
  }

  lemma TransitionDrawn(v: Sketch, transition: Transition, ins: set<nat>, outs: set<nat>)
    requires Even(v)
    ensures forall p: nat, q: nat :: p < |v.places| && q < |v.places| && ins == {p} && outs == {q} ==>
      WithOut(WithIn(WithTransition(v, transition, {}, {}), p, |v.transitions|), |v.transitions|, q)
        == WithTransition(v, transition, ins, outs)
    ensures forall p: nat :: p < |v.places| && ins == {p} && outs == {} ==>
      WithIn(WithTransition(v, transition, {}, {}), p, |v.transitions|) == WithTransition(v, transition, ins, outs)
  {
    assert forall p: nat :: {} + {p} == {p};
  }

  lemma EdgesFail(tdg: Tdg, v: Sketch, ends: seq<(nat, nat)>, k: nat)
    requires ValidTdg(tdg) && |ends| == |tdg.nodes| && k <= |tdg.edges|
    ensures EdgesDrawn(tdg, v, ends, k).None? ==> EdgesDrawn(tdg, v, ends, |tdg.edges|).None?
    decreases |tdg.edges| - k
  {
    if k < |tdg.edges| {
      EdgesFail(tdg, v, ends, k + 1);
    }
  }

  lemma NodesFail(tdg: Tdg, n: nat)
    requires n <= |tdg.nodes|
    ensures NodeDrafts(tdg, n).None? ==> NodeDrafts(tdg, |tdg.nodes|).None?
    decreases |tdg.nodes| - n
  {
    if n < |tdg.nodes| {
      NodesFail(tdg, n + 1);
    }
  }

  // ---------------------------------------------------------------------- bindings

  function StartsFilled(tdg: Tdg, v: Sketch, ends: seq<(nat, nat)>, k: nat): Sketch
    requires ValidTdg(tdg) && |ends| == |tdg.nodes| && k <= |tdg.starts|
  {
    if k == 0 then v
    else
      var w, start := StartsFilled(tdg, v, ends, k - 1), tdg.starts[k - 1];
      assert IsTask(tdg, start.0);
      if start.1 > 0 then WithTokens(w, ends[start.0].0, start.1) else w
  }

  /** A marked period place whose transition puts one token into the entry and
      gives its own back, once a period. */
  function Released(v: Sketch, entry: nat, period: int): Sketch {
    WithTransition(WithPlace(v, Place(Fin(1), true), 1), ControlTransition(Interval(period, Fin(period), false, false)),
                   {|v.places|}, {|v.places|, entry})
  }

  lemma ReleaseDrawn(v: Sketch, entry: nat, period: int, r: Sketch)
    requires Even(v) && entry < |v.places|
    requires
      var p, t := |v.places|, |v.transitions|;
      var bare := WithTransition(WithPlace(v, Place(Fin(1), true), 0),
                                 ControlTransition(Interval(period, Fin(period), false, false)), {}, {});
      r == WithOut(WithOut(WithIn(WithTokens(bare, p, 1), p, t), t, p), t, entry)
    ensures r == Released(v, entry, period)
  {
    var wanted, p, t := Released(v, entry, period), |v.places|, |v.transitions|;
    var none: set<nat> := {};
    assert none + {p} == {p};
    assert (v.ins + [none])[t := none + {p}] == v.ins + [{p}];
    assert {p} + {entry} == {p, entry} && (v.outs + [none])[t := none + {p}] == v.outs + [{p}];
    assert (v.outs + [{p}])[t := {p} + {entry}] == v.outs + [{p, entry}];
    assert (v.initial + [0])[p := 1] == v.initial + [1];
  }

  predicate ReleasesItself(tdg: Tdg, n: nat) {
    exists k :: 0 <= k < |tdg.edges| && tdg.edges[k].source == n && tdg.edges[k].target == n
  }

  predicate HasSuccessor(tdg: Tdg, n: nat) {
    exists k :: 0 <= k < |tdg.edges| && tdg.edges[k].source == n && tdg.edges[k].target != n
  }

  function AllReleased(tdg: Tdg, v: Sketch, ends: seq<(nat, nat)>, k: nat): Sketch
    requires ValidTdg(tdg) && |ends| == |tdg.nodes| && k <= |tdg.periodic|
  {
    if k == 0 then v
    else
      var w, n := AllReleased(tdg, v, ends, k - 1), tdg.periodic[k - 1].0;
      assert IsTask(tdg, n);
      if ReleasesItself(tdg, n) then w else Released(w, ends[n].0, tdg.periodic[k - 1].1)
  }

  predicate Consumed(tdg: Tdg, n: nat) {
    IsTask(tdg, n) && (!HasSuccessor(tdg, n) || n in tdg.ends)
  }

  function AllConsumed(tdg: Tdg, v: Sketch, ends: seq<(nat, nat)>, n: nat): Sketch
    requires n <= |tdg.nodes| == |ends|
  {
    if n == 0 then v
    else
      var w := AllConsumed(tdg, v, ends, n - 1);
      if Consumed(tdg, n - 1) then WithTransition(w, ControlTransition(Immediate()), {ends[n - 1].1}, {}) else w
  }

  // -------------------------------------------------------------------- preemption

  function PriorityOf(tdg: Tdg, n: nat): int {
    if IsTask(tdg, n) then tdg.nodes[n].task.priority else 0
  }

  lemma CrossingDrawn(v: Sketch, transition: Transition, a: nat, b: nat, c: nat, d: nat)
    requires Even(v) && a < |v.places| && b < |v.places| && c < |v.places| && d < |v.places|
    ensures
      var t := |v.transitions|;
      var taken := WithIn(WithIn(WithTransition(v, transition, {}, {}), a, t), b, t);
      WithOut(WithOut(taken, t, c), t, d) == WithTransition(v, transition, {a, b}, {c, d})
  {
    var none: set<nat> := {};
    assert none + {a} + {b} == {a, b} && none + {c} + {d} == {c, d};
  }

  /** n goes behind the last task of at least its priority. */
  function Insert(tdg: Tdg, tasks: seq<nat>, n: nat): seq<nat> {
    if tasks == [] || PriorityOf(tdg, tasks[|tasks| - 1]) >= PriorityOf(tdg, n) then tasks + [n]
    else Insert(tdg, tasks[..|tasks| - 1], n) + [tasks[|tasks| - 1]]
  }

  lemma InsertBefore(tdg: Tdg, tasks: seq<nat>, n: nat, k: nat)
    requires 0 < k <= |tasks| && PriorityOf(tdg, tasks[k - 1]) < PriorityOf(tdg, n)
    ensures Insert(tdg, tasks[..k], n) + tasks[k..] == Insert(tdg, tasks[..k - 1], n) + tasks[k - 1..]
  {
    assert tasks[..k][..k - 1] == tasks[..k - 1] && tasks[..k][k - 1] == tasks[k - 1];
    assert [tasks[k - 1]] + tasks[k..] == tasks[k - 1..];
  }

  lemma InsertHere(tdg: Tdg, tasks: seq<nat>, n: nat, k: nat)
    requires k <= |tasks| && (k > 0 ==> PriorityOf(tdg, tasks[k - 1]) >= PriorityOf(tdg, n))
    ensures Insert(tdg, tasks[..k], n) == tasks[..k] + [n]
  {
  }

  /** The tasks of a core among the first n nodes, by falling priority. */
  function Ranking(tdg: Tdg, core: int, n: nat): seq<nat> {
    if n == 0 then []
    else
      var tasks := Ranking(tdg, core, n - 1);
      if IsTask(tdg, n - 1) && tdg.nodes[n - 1].task.core == core then Insert(tdg, tasks, n - 1) else tasks
  }

  /** high enters, low goes back from position pos to its entry. */
  function SentBack(v: Sketch, tdg: Tdg, chains: seq<seq<nat>>, high: nat, low: nat, pos: int): Sketch
    requires high < |chains| && low < |chains| && IsTask(tdg, high)
  {
    var h, l, task := chains[high], chains[low], tdg.nodes[high].task;
    var transition := Transition(Immediate(), task.priority, task.core, false);
    WithTransition(v, transition, {At(h, 0), At(l, pos)}, {At(h, 2), At(l, 0)})
  }

  /** The preemptions at the first k locks, each after marking the transition whose
      index is the position as suspendable. */
  function HoldingPreempted(v: Sketch, tdg: Tdg, chains: seq<seq<nat>>, high: nat, low: nat, k: nat): Sketch
    requires high < |chains| && low < |chains| && IsTask(tdg, high)
  {
    if k == 0 then v
    else
      var w, pos := HoldingPreempted(v, tdg, chains, high, low, k - 1), ReleasePos(|chains[low]|, k - 1);
      SentBack(if pos >= 0 then WithSuspendable(w, pos) else w, tdg, chains, high, low, pos - 1)
  }

  /** t has the index of one of the first k release positions of the chain. */
  predicate AtRelease(chain: seq<nat>, k: nat, t: nat) {
    exists i: nat :: i < k && t == ReleasePos(|chain|, i)
  }

  /** The position where the transition belongs: an older transition becomes
      suspendable exactly if its index is one of the release positions, and changes
      in no other way. */
  lemma {:induction false} HoldingMarks(v: Sketch, tdg: Tdg, chains: seq<seq<nat>>, high: nat, low: nat, k: nat, t: nat)
    requires high < |chains| && low < |chains| && IsTask(tdg, high) && t < |v.transitions|
    ensures
      var r := HoldingPreempted(v, tdg, chains, high, low, k);
      && t < |r.transitions|
      && r.transitions[t] == v.transitions[t].(
           suspendable := v.transitions[t].suspendable || AtRelease(chains[low], k, t))
  {
    if k > 0 {
      HoldingMarks(v, tdg, chains, high, low, k - 1, t);
      var i: nat := k - 1;
      assert t == ReleasePos(|chains[low]|, i) ==> AtRelease(chains[low], k, t);
      if AtRelease(chains[low], k - 1, t) {
        var j: nat :| j < k - 1 && t == ReleasePos(|chains[low]|, j);
        assert j < k;
      }
    }
  }

  /** The segment that holds lock i is marked as meant only if it was before, or if
      its index happens to be one of those positions. */
  lemma SegmentMarked(v: Sketch, tdg: Tdg, chains: seq<seq<nat>>, high: nat, low: nat, k: nat, i: nat)
    requires high < |chains| && low < |chains| && IsTask(tdg, high)
    requires 0 <= ReleasePos(|chains[low]|, i) < |chains[low]|
    requires chains[low][ReleasePos(|chains[low]|, i)] < |v.transitions|
    ensures
      var t := chains[low][ReleasePos(|chains[low]|, i)];
      var r := HoldingPreempted(v, tdg, chains, high, low, k);
      && t < |r.transitions|
      && (r.transitions[t].suspendable <==> v.transitions[t].suspendable || AtRelease(chains[low], k, t))
  {
    HoldingMarks(v, tdg, chains, high, low, k, chains[low][ReleasePos(|chains[low]|, i)]);
  }

  /** The number of locks before the first that spins. */
  function SpinFree(locks: seq<Lock>): (r: nat)
    ensures r <= |locks|
    ensures forall i :: 0 <= i < r ==> !locks[i].spin
    ensures r < |locks| ==> locks[r].spin
  {
    if locks == [] then 0
    else
      var init := SpinFree(locks[..|locks| - 1]);
      if init == |locks| - 1 && !locks[init].spin then |locks| else init
  }

  function TaskPreempted(v: Sketch, tdg: Tdg, chains: seq<seq<nat>>, high: nat, low: nat): Sketch
    requires high < |chains| && low < |chains| && IsTask(tdg, high) && IsTask(tdg, low)
  {
    var ready := SentBack(WithSuspendable(v, At(chains[low], 3)), tdg, chains, high, low, 2);
    HoldingPreempted(ready, tdg, chains, high, low, SpinFree(tdg.nodes[low].task.locks))
  }

  /** tasks[i] preempts those of tasks[i + 1..j] with a lower priority. */
  function RowPreempted(v: Sketch, tdg: Tdg, chains: seq<seq<nat>>, tasks: seq<nat>, i: nat, j: nat): Sketch
    requires i < |tasks| && j <= |tasks| && |chains| == |tdg.nodes|
    requires forall n :: n in tasks ==> IsTask(tdg, n)
  {
    if j <= i + 1 then v
    else
      var w, high, low := RowPreempted(v, tdg, chains, tasks, i, j - 1), tasks[i], tasks[j - 1];
      assert high in tasks && low in tasks;
      if PriorityOf(tdg, low) < PriorityOf(tdg, high) then TaskPreempted(w, tdg, chains, high, low) else w
  }

  function CorePreempted(v: Sketch, tdg: Tdg, chains: seq<seq<nat>>, tasks: seq<nat>, i: nat): Sketch
    requires i <= |tasks| && |chains| == |tdg.nodes| && forall n :: n in tasks ==> IsTask(tdg, n)
  {
    if i == 0 then v
    else RowPreempted(CorePreempted(v, tdg, chains, tasks, i - 1), tdg, chains, tasks, i - 1, |tasks|)
  }

  ghost predicate Falling(tdg: Tdg, tasks: seq<nat>) {
    forall i, j :: 0 <= i < j < |tasks| ==> PriorityOf(tdg, tasks[i]) >= PriorityOf(tdg, tasks[j])
  }

  lemma {:induction false} InsertTasks(tdg: Tdg, tasks: seq<nat>, n: nat)
    ensures forall m: nat {:trigger m in Insert(tdg, tasks, n)} :: m in Insert(tdg, tasks, n) <==> m in tasks || m == n
    ensures Falling(tdg, tasks) ==> Falling(tdg, Insert(tdg, tasks, n))
  {
    if tasks != [] {
      var init, last, r := tasks[..|tasks| - 1], tasks[|tasks| - 1], Insert(tdg, tasks, n);
      assert tasks == init + [last];
      if PriorityOf(tdg, last) < PriorityOf(tdg, n) {
        InsertTasks(tdg, init, n);
        forall i | Falling(tdg, tasks) && 0 <= i < |r| - 1
          ensures PriorityOf(tdg, r[i]) >= PriorityOf(tdg, last)
        {
          assert r[i] in Insert(tdg, init, n);
          if r[i] in init {
            var k :| 0 <= k < |init| && init[k] == r[i];
            assert tasks[k] == r[i] && tasks[|tasks| - 1] == last;
          }
        }
      } else {
        forall i | Falling(tdg, tasks) && 0 <= i < |tasks|
          ensures PriorityOf(tdg, tasks[i]) >= PriorityOf(tdg, n)
        {
          assert i < |tasks| - 1 ==> PriorityOf(tdg, tasks[i]) >= PriorityOf(tdg, tasks[|tasks| - 1]);
        }
      }
    }
  }

  /** The tasks of the core, all of them and no others. */
  lemma NothingFalls(tdg: Tdg)
    ensures Falling(tdg, [])
  {
  }

  lemma {:induction false} RankingTasks(tdg: Tdg, core: int, n: nat)
    ensures Falling(tdg, Ranking(tdg, core, n))
    ensures forall m: nat {:trigger m in Ranking(tdg, core, n)} ::
      m in Ranking(tdg, core, n) <==> m < n && IsTask(tdg, m) && tdg.nodes[m].task.core == core
  {
    hide Falling, Insert;
    if n == 0 {
      NothingFalls(tdg);
    } else {
      RankingTasks(tdg, core, n - 1);
      InsertTasks(tdg, Ranking(tdg, core, n - 1), n - 1);
    }
  }

  function AllPreempted(v: Sketch, tdg: Tdg, chains: seq<seq<nat>>, cores: nat): Sketch
    requires |chains| == |tdg.nodes|
  {
    if cores == 0 then v
    else
      var tasks := Ranking(tdg, cores - 1, |tdg.nodes|);
      RankingTasks(tdg, cores - 1, |tdg.nodes|);
      CorePreempted(AllPreempted(v, tdg, chains, cores - 1), tdg, chains, tasks, |tasks|)
  }

  // --------------------------------------------------------------------- resources

  /** count new places, each full. */
  function Resources(v: Sketch, count: nat, tokens: int): (r: Sketch)
    ensures |r.places| == |v.places| + count
  {
    if count == 0 then v else WithPlace(Resources(v, count - 1, tokens), Place(Fin(tokens), false), tokens)
  }

  /** Taken at one chain transition and given back at another. */
  function BoundTo(v: Sketch, resource: nat, chain: seq<nat>, acquire: int, release: int): Sketch {
    WithOut(WithIn(v, resource, At(chain, acquire)), At(chain, release), resource)
  }

  /** Processor c has place first + c. */
  function CpusBound(v: Sketch, tdg: Tdg, chains: seq<seq<nat>>, first: nat, n: nat): Sketch
    requires n <= |tdg.nodes| == |chains|
  {
    if n == 0 then v
    else
      var w, chain := CpusBound(v, tdg, chains, first, n - 1), chains[n - 1];
      if IsTask(tdg, n - 1) && 0 <= tdg.nodes[n - 1].task.core
      then BoundTo(w, first + tdg.nodes[n - 1].task.core, chain, 1, |chain| - 2)
      else w
  }

  /** The first k locks of a task; lock l has place first + l. */
  function TaskLocksBound(v: Sketch, locks: seq<Lock>, chain: seq<nat>, first: nat, k: nat): Sketch
    requires k <= |locks|
  {
    if k == 0 then v
    else
      BoundTo(TaskLocksBound(v, locks, chain, first, k - 1), first + locks[k - 1].id, chain,
            AcquirePos(k - 1), ReleasePos(|chain|, k - 1))
  }

  function LocksBound(v: Sketch, tdg: Tdg, chains: seq<seq<nat>>, first: nat, n: nat): Sketch
    requires n <= |tdg.nodes| == |chains|
  {
    if n == 0 then v
    else
      var w := LocksBound(v, tdg, chains, first, n - 1);
      if IsTask(tdg, n - 1) then
        var locks := tdg.nodes[n - 1].task.locks;
        TaskLocksBound(w, locks, chains[n - 1], first, |locks|)
      else w
  }

  /** Resource places and bindings; under the resume policy only those of locks. */
  function WithResources(v: Sketch, tdg: Tdg, chains: seq<seq<nat>>): Sketch
    requires |tdg.nodes| == |chains|
  {
    var cpus := if tdg.policy.Resume? then v else Resources(v, tdg.numCpus, tdg.coresPerCpu);
    var places := Resources(cpus, tdg.lockCount, 1);
    var bound := if tdg.policy.Resume? then places else CpusBound(places, tdg, chains, |v.places|, |tdg.nodes|);
    LocksBound(bound, tdg, chains, |cpus.places|, |tdg.nodes|)
  }

  // --------------------------------------------------------------------- the whole

  /** Everything after the edges. */
  function Finished(tdg: Tdg, v: Sketch, d: Draft): Sketch
    requires ValidTdg(tdg) && |d.chains| == |d.ends| == |tdg.nodes|
  {
    var filled := StartsFilled(tdg, v, d.ends, |tdg.starts|);
    var released := AllReleased(tdg, filled, d.ends, |tdg.periodic|);
    var consumed := AllConsumed(tdg, released, d.ends, |tdg.nodes|);
    var preempted := if tdg.policy.Restart? then AllPreempted(consumed, tdg, d.chains, tdg.numCpus) else consumed;
    WithResources(preempted, tdg, d.chains)
  }

  lemma {:induction false} NodeCount(tdg: Tdg, n: nat)
    requires n <= |tdg.nodes| && NodeDrafts(tdg, n).Some?
    ensures var d := NodeDrafts(tdg, n).value; |d.chains| == |d.ends| == n
  {
    if n > 0 {
      NodeCount(tdg, n - 1);
    }
  }

  /** The whole net; None stands for an error. */
  function Drawn(tdg: Tdg): Option<Sketch>
    requires ValidTdg(tdg)
  {
    match NodeDrafts(tdg, |tdg.nodes|)
    case None => None
    case Some(d) =>
      NodeCount(tdg, |tdg.nodes|);
      match EdgesDrawn(tdg, d.sketch, d.ends, |tdg.edges|)
      case None => None
      case Some(v) => Some(Finished(tdg, v, d))
  }
}
