/** Lowering a task dependency graph to a net, stage by stage. */
module Lowering {
  import opened Blueprint
  import opened Bounds
  import opened PetriNet
  import opened Ptpn
  import opened TaskGraph
  import opened Wiring

  /** Where a node starts and ends. */
  ghost predicate NodeAt(tdg: Tdg, plan: Plan, ends: seq<(nat, nat)>, n: nat) {
    n < |ends| ==>
      && n < |plan.chains| && n < |tdg.nodes|
      && match tdg.nodes[n]
         case TaskNode(task) =>
           && |plan.chains[n]| == ChainLength(|task.locks|, |task.times|) && 0 < |task.times|
           && ends[n] == (plan.chains[n][0], plan.chains[n][|plan.chains[n]| - 1])
         case ControlNode(_, _, _) => plan.chains[n] == [] && ends[n].0 == ends[n].1 < |plan.kinds|
         case EmptyNode =>
           plan.chains[n] == [] && ends[n].0 == ends[n].1 < |plan.owners| && plan.owners[ends[n].0] == Free
  }

  ghost predicate NodesOk(tdg: Tdg, plan: Plan, ends: seq<(nat, nat)>) {
    forall n: nat :: NodeAt(tdg, plan, ends, n)
  }

  /** A self-loop at a node that starts or ends here. */
  ghost predicate LoopAt(tdg: Tdg, ends: seq<(nat, nat)>, k: nat, p: nat) {
    && k < |tdg.edges| && tdg.edges[k].source == tdg.edges[k].target < |ends|
    && (ends[tdg.edges[k].source].0 == p || ends[tdg.edges[k].source].1 == p)
  }

  /** Only the monitor of a self-loop makes a stray. */
  ghost predicate StraysOk(tdg: Tdg, plan: Plan, ends: seq<(nat, nat)>) {
    forall x :: x in plan.strays ==> exists k: nat :: LoopAt(tdg, ends, k, x.place)
  }

  /** The first n edges have their strays at the places of chains. */
  ghost predicate LoopsTaken(tdg: Tdg, plan: Plan, ends: seq<(nat, nat)>, n: nat) {
    forall k: nat, p: nat :: k < n && LoopAt(tdg, ends, k, p) ==> Taken(plan, p)
  }

  ghost predicate Taken(plan: Plan, p: nat) {
    p < |plan.owners| && plan.owners[p].OnChain? ==> exists t: nat :: Stray(t, p) in plan.strays
  }

  /** The nodes that have their ends keep them, and the first m edges their strays. */
  lemma NodesKept(tdg: Tdg, before: Plan, after: Plan, ends: seq<(nat, nat)>, m: nat)
    requires before.owners <= after.owners && before.kinds <= after.kinds && before.strays <= after.strays
    requires |ends| <= |before.chains| && |ends| <= |after.chains| && before.chains[..|ends|] == after.chains[..|ends|]
    requires NodesOk(tdg, before, ends) && LoopsTaken(tdg, before, ends, m)
    requires m == 0 || forall p :: |before.owners| <= p < |after.owners| ==> !after.owners[p].OnChain?
    ensures NodesOk(tdg, after, ends) && LoopsTaken(tdg, after, ends, m)
  {
    forall n: nat
      ensures NodeAt(tdg, after, ends, n)
    {
      assert NodeAt(tdg, before, ends, n);
      if n < |ends| {
        assert before.chains[..|ends|][n] == before.chains[n] && after.chains[..|ends|][n] == after.chains[n];
      }
    }
    forall k: nat, p: nat | k < m && LoopAt(tdg, ends, k, p)
      ensures Taken(after, p)
    {
      assert Taken(before, p);
    }
  }

  /** The start of a node that is not a fork or join is an unguarded place. */
  lemma StartIsLoose(s: Incidence, tdg: Tdg, plan: Plan, ends: seq<(nat, nat)>, n: nat)
    requires Wired(s, plan) && NodeAt(tdg, plan, ends, n) && n < |ends| && !tdg.nodes[n].ControlNode?
    ensures ends[n].0 < |plan.owners| && !Guarded(plan, ends[n].0)
    ensures ends[n].1 < |plan.owners| && !Guarded(plan, ends[n].1)
  {
    if tdg.nodes[n].TaskNode? {
      assert LengthAt(plan, n) && ChainAt(plan, n, 0) && ChainAt(plan, n, |plan.chains[n]| - 1);
    }
  }

  class Lowering {
    const tdg: Tdg
    const net: PTPN
    var chains: seq<seq<nat>>
    var ends: seq<(nat, nat)>
    var cpusPlace: seq<nat>
    var locksPlace: seq<nat>
    var parallelism: map<int, int>
    ghost var plan: Plan
    ghost var monitored: nat

    constructor (tdg: Tdg)
      requires ValidTdg(tdg)
      ensures Valid() && this.tdg == tdg && fresh(net) && Unlinked() && ends == [] && chains == []
      ensures net.Contents() == Incidence([], [], [], [], []) && parallelism == map[]
    {
      this.tdg := tdg;
      net := new PTPN();
      chains, ends, cpusPlace, locksPlace, parallelism := [], [], [], [], map[];
      plan, monitored := Plan([], [], [], {}, {}, tdg.capacity), 0;
      new;
      EmptyWired(tdg.capacity);
    }

    ghost predicate Valid()
      reads this, net
    {
      && ValidTdg(tdg) && net.Valid() && Wired(net.Contents(), plan) && plan.chains == chains
      && |ends| <= |chains| && NodesOk(tdg, plan, ends) && plan.room == tdg.capacity
      && StraysOk(tdg, plan, ends) && LoopsTaken(tdg, plan, ends, monitored)
    }

    /** No edge is drawn yet. */
    ghost predicate Unlinked()
      reads this
    {
      Early(plan) && plan.strays == {} && monitored == 0
    }

    /** The net as places and arcs. */
    ghost function Sketched(): Sketch
      requires net.Valid()
      reads net
    {
      SketchOf(net.Contents())
    }

    ghost function Drafted(): Draft
      requires net.Valid()
      reads this, net
    {
      Draft(Sketched(), chains, ends)
    }

    // ------------------------------------------------------- single additions

    method AddFreePlace(place: Place) returns (p: nat)
      requires Valid() && !Negative(place.capacity)
      modifies this`plan, net
      ensures Valid() && p == |old(plan.owners)| && plan == old(plan).(owners := old(plan.owners) + [Free])
      ensures Sketched() == WithPlace(old(Sketched()), place, 0)
    {
      PlaceWired(net.Contents(), plan, place, Free);
      SketchPlace(net.Contents(), place, 0);
      ghost var before := net.Contents();
      p := net.AddPlace(place);
      assert net.Contents() == net.Contents().(initial := net.Contents().initial[|before.places| := 0]);
      ghost var more := plan.(owners := plan.owners + [Free]);
      NodesKept(tdg, plan, more, ends, monitored);
      plan := more;
    }

    method AddOuterTransition(transition: Transition) returns (t: nat)
      requires Valid() && transition.interval.Valid()
      modifies this`plan, net
      ensures Valid() && t == |old(plan.kinds)| && plan == old(plan).(kinds := old(plan.kinds) + [Outer])
      ensures Sketched() == WithTransition(old(Sketched()), transition, {}, {})
    {
      SketchTransition(net.Contents(), transition);
      TransitionWired(net.Contents(), plan, transition);
      t := net.AddTransition(transition);
      ghost var more := plan.(kinds := plan.kinds + [Outer]);
      NodesKept(tdg, plan, more, ends, monitored);
      plan := more;
    }

    /** An arc from an unguarded place; false stands for a range error. */
    method TakeFrom(p: nat, t: nat) returns (ok: bool)
      requires Valid() && (p < |plan.owners| ==> !Guarded(plan, p))
      modifies net
      ensures Valid() && (ok <==> p < |plan.owners| && t < |plan.kinds|)
      ensures Sketched() == WithIn(old(Sketched()), p, t)
    {
      if p < |net.places| && t < |net.transitions| {
        LoosePreWired(net.Contents(), plan, p, t);
        SketchIn(net.Contents(), p, t);
      }
      ok := net.SetPreArc(p, t, 1);
    }

    /** An arc to an unguarded place. */
    method PutInto(t: nat, p: nat) returns (ok: bool)
      requires Valid() && (p < |plan.owners| ==> !Guarded(plan, p))
      modifies net
      ensures Valid() && (ok <==> p < |plan.owners| && t < |plan.kinds|)
      ensures Sketched() == WithOut(old(Sketched()), t, p)
    {
      if p < |net.places| && t < |net.transitions| {
        LoosePostWired(net.Contents(), plan, t, p);
        SketchOut(net.Contents(), t, p);
      }
      ok := net.SetPostArc(t, p, 1);
    }

    // --------------------------------------------------------------- task chains

    ghost predicate Building(n: nat)
      reads this, net
    {
      Valid() && Unlinked() && n == |ends| && |chains| == n + 1
    }

    ghost predicate Growing(n: nat)
      reads this, net
    {
      var s := net.Contents();
      Building(n) && Tail(s, plan, n)
    }

    method StartChain(n: nat)
      requires Building(n) && chains[n] == []
      modifies this`chains, this`plan, net
      ensures Growing(n) && chains[..n] == old(chains)[..n]
      ensures Strand(Sketched(), chains[n]) == Started(old(Sketched()), tdg.capacity)
    {
      var place := Place(Fin(tdg.capacity), true);
      ChainStartWired(net.Contents(), plan, n, place);
      SketchPlace(net.Contents(), place, 0);
      ghost var before := net.Contents();
      var entry := net.AddPlace(place);
      assert net.Contents() == net.Contents().(initial := net.Contents().initial[|before.places| := 0]);
      ghost var more := ChainStarted(plan, n);
      NodesKept(tdg, plan, more, ends, monitored);
      chains, plan := chains[n := [entry]], more;
    }

    /** One more transition and place at the end of the chain. */
    method ExtendChain(n: nat, transition: Transition)
      requires Growing(n) && transition.interval.Valid()
      modifies this`chains, this`plan, net
      ensures Growing(n) && chains[..n] == old(chains)[..n]
      ensures Strand(Sketched(), chains[n]) == Longer(Strand(old(Sketched()), old(chains[n])), transition, tdg.capacity)
    {
      var place := Place(Fin(tdg.capacity), true);
      var last := chains[n][|chains[n]| - 1];
      ghost var s, more := net.Contents(), ChainExtended(plan, n);
      ChainExtendWired(s, plan, n, transition, place);
      SketchStep(s, last, transition, place);
      AppendStep(last, transition, place);
      NodesKept(tdg, plan, more, ends, monitored);
      chains, plan := chains[n := chains[n] + [|net.transitions| - 1, |net.places| - 1]], more;
    }

    lemma SketchStep(s: Incidence, last: nat, transition: Transition, place: Place)
      requires Shaped(s) && last < |s.places|
      ensures Shaped(Extended(s, last, transition, place))
      ensures SketchOf(Extended(s, last, transition, place)) ==
        WithPlace(WithTransition(SketchOf(s), transition, {last}, {|s.places|}), place, 0)
    {
      var s1 := TransitionAdded(s, transition);
      SketchTransition(s, transition);
      SketchPlace(s1, place, 0);
      var s2, t := PlaceAdded(s1, place), |s.transitions|;
      assert s2 == s2.(initial := s2.initial[|s1.places| := 0]);
      SketchIn(s2, last, t);
      SketchOut(PreArcSet(s2, last, t, 1), t, |s.places|);
      TransitionDrawn(WithPlace(SketchOf(s), place, 0), transition, {last}, {|s.places|});
    }

    method AppendStep(last: nat, transition: Transition, place: Place)
      requires net.Valid() && last < |net.places|
      modifies net
      ensures net.Valid() && net.Contents() == Extended(old(net.Contents()), last, transition, place)
    {
      ghost var s := net.Contents();
      TransitionShape(s, transition);
      PlaceShape(TransitionAdded(s, transition), place);
      var t := net.AddTransition(transition);
      var next := net.AddPlace(place);
      var took := net.SetPreArc(last, t, 1);
      var put := net.SetPostArc(t, next, 1);
    }

    /** Segment k, and the lock step after it if there is one. */
    method AddSegment(n: nat, task: Task, resume: bool, k: nat)
      requires Growing(n) && k < |task.times|
      requires 0 <= task.times[k].0 <= task.times[k].1
      modifies this`chains, this`plan, net
      ensures Growing(n) && chains[..n] == old(chains)[..n]
      ensures
        Strand(Sketched(), chains[n]) == Segment(Strand(old(Sketched()), old(chains[n])), task, resume, tdg.capacity, k)
    {
      ExtendChain(n, ExecTransition(task, k, resume));
      if k < |task.locks| {
        ExtendChain(n, StepTransition(task));
      }
    }

    /** Entry, processor step, ready, and then segment by segment; false stands
        for a task without segments or with an invalid one. */
    method AddExecutionChain(n: nat, task: Task, resume: bool) returns (ok: bool)
      requires Building(n) && chains[n] == []
      modifies this`chains, this`plan, net
      ensures ok <==> Executable(task)
      ensures ok ==> Building(n) && chains[..n] == old(chains)[..n]
      ensures ok ==> SegmentsAt(chains[n], net.transitions, task, resume, |task.times|)
      ensures ok ==> Strand(Sketched(), chains[n]) == TaskStrand(old(Sketched()), task, resume, tdg.capacity)
    {
      hide Wired, Early, NodesOk, Tail, Segment;
      if task.times == [] {
        return false;
      }
      StartChain(n);
      ExtendChain(n, StepTransition(task));
      ghost var first := Strand(Sketched(), chains[n]);
      for k := 0 to |task.times|
        invariant Growing(n) && chains[..n] == old(chains)[..n]
        invariant Strand(Sketched(), chains[n]) == Segments(first, task, resume, tdg.capacity, k)
        invariant forall j :: 0 <= j < k ==> 0 <= task.times[j].0 <= task.times[j].1
      {
        if task.times[k].0 < 0 || task.times[k].1 < task.times[k].0 {
          return false;
        }
        AddSegment(n, task, resume, k);
      }
      TaskLayout(old(Sketched()), task, resume, tdg.capacity);
      return true;
    }

    // -------------------------------------------------------------- nodes and edges

    /** Every node has its fragment, and nothing else is bound yet. */
    ghost predicate Laid()
      reads this, net
    {
      Valid() && Early(plan) && |ends| == |chains| == |tdg.nodes|
    }

    /** The fragment of the next node; false stands for an error. */
    method AddNode(n: nat) returns (ok: bool)
      requires Valid() && Unlinked() && n == |ends| == |chains| < |tdg.nodes|
      modifies this`chains, this`plan, this`ends, net
      ensures ok ==> Valid() && Unlinked() && |ends| == |chains| == n + 1 && chains[..n] == old(chains)
      ensures ok && tdg.nodes[n].TaskNode? ==>
        var task := tdg.nodes[n].task;
        SegmentsAt(chains[n], net.transitions, task, tdg.policy.Resume?, |task.times|)
      ensures var d := NodeDraft(tdg, old(Drafted()), tdg.nodes[n]); (ok <==> d.Some?) && (ok ==> Drafted() == d.value)
    {
      PlacesOwned();
      hide Wired, LoopsTaken, TaskStrand, Executable, SegmentsAt;
      ghost var more := plan.(chains := plan.chains + [[]]);
      NodeWired(net.Contents(), plan);
      NodesKept(tdg, plan, more, ends, monitored);
      chains, plan := chains + [[]], more;
      match tdg.nodes[n] {
        case TaskNode(task) =>
          ok := AddTaskNode(n, task);
          assert ok ==> chains == old(chains) + [chains[n]];
        case ControlNode(interval, priority, core) =>
          assert interval.Valid();
          var t := AddOuterTransition(Transition(interval, priority, core, false));
          SetEnds(n, (t, t));
          ok := true;
        case EmptyNode =>
          var p := AddFreePlace(Place(Fin(1), false));
          SetEnds(n, (p, p));
          ok := true;
      }
    }

    /** The chain of a task, which is where it starts and ends. */
    method AddTaskNode(n: nat, task: Task) returns (ok: bool)
      requires Building(n) && n < |tdg.nodes| && tdg.nodes[n] == TaskNode(task) && chains[n] == []
      modifies this`chains, this`plan, this`ends, net
      ensures ok <==> Executable(task)
      ensures ok ==> Valid() && Unlinked() && |ends| == |chains| == n + 1 && chains[..n] == old(chains)[..n]
      ensures ok ==> SegmentsAt(chains[n], net.transitions, task, tdg.policy.Resume?, |task.times|)
      ensures ok ==>
        var c := TaskStrand(old(Sketched()), task, tdg.policy.Resume?, tdg.capacity);
        && Sketched() == c.sketch && chains[n] == c.chain
        && ends == old(ends) + [(At(c.chain, 0), At(c.chain, |c.chain| - 1))]
    {
      hide Wired, LoopsTaken, TaskStrand, Executable;
      ok := AddExecutionChain(n, task, tdg.policy.Resume?);
      if ok {
        SetEnds(n, (chains[n][0], chains[n][|chains[n]| - 1]));
      }
    }

    method SetEnds(n: nat, pair: (nat, nat))
      requires Valid() && Unlinked() && n == |ends| < |chains| && NodeAt(tdg, plan, ends + [pair], n)
      modifies this`ends
      ensures Valid() && ends == old(ends) + [pair]
    {
      forall m: nat
        ensures NodeAt(tdg, plan, ends + [pair], m)
      {
        assert NodeAt(tdg, plan, ends, m);
      }
      ends := ends + [pair];
    }

    method TransformVertices() returns (ok: bool)
      requires Valid() && Unlinked() && ends == [] && chains == [] && net.Contents() == Incidence([], [], [], [], [])
      modifies this`chains, this`plan, this`ends, net
      ensures ok ==> Laid() && monitored == 0
      ensures var d := NodeDrafts(tdg, |tdg.nodes|); (ok <==> d.Some?) && (ok ==> Drafted() == d.value)
    {
      for n := 0 to |tdg.nodes|
        invariant Valid() && Unlinked() && n == |ends| == |chains|
        invariant NodeDrafts(tdg, n) == Some(Drafted())
      {
        ok := AddNode(n);
        NodesFail(tdg, n + 1);
        if !ok {
          return;
        }
      }
      return true;
    }

    /** A new control transition that moves a token from p to q. */
    method AddBridge(p: nat, interval: Interval, q: nat) returns (t: nat)
      requires Laid() && interval.Valid() && p < |plan.owners| && q < |plan.owners|
      requires !Guarded(plan, p) && !Guarded(plan, q)
      modifies this`plan, net
      ensures Laid() && t == |old(net.transitions)| && Sketched() == Bridged(old(Sketched()), p, interval, q)
    {
      ghost var v := Sketched();
      t := AddOuterTransition(ControlTransition(interval));
      var took := TakeFrom(p, t);
      var put := PutInto(t, q);
      TransitionDrawn(v, ControlTransition(interval), {p}, {q});
    }

    /** An edge between two nodes: an arc at the fork or join, or a bridge between
        two places.  False stands for an edge between two forks or joins. */
    method HandleNormalEdge(e: Link) returns (ok: bool)
      requires Laid() && ValidLink(tdg, e) && e.source != e.target
      modifies this`plan, net
      ensures ok <==> !(tdg.nodes[e.source].ControlNode? && tdg.nodes[e.target].ControlNode?)
      ensures ok ==> Laid()
      ensures
        var from, to := ends[e.source].1, ends[e.target].0;
        ok ==>
          Sketched() ==
            if tdg.nodes[e.source].ControlNode? then WithOut(old(Sketched()), from, to)
            else if tdg.nodes[e.target].ControlNode? then WithIn(old(Sketched()), from, to)
            else Bridged(old(Sketched()), from, e.interval, to)
    {
      var sourceControl, targetControl := tdg.nodes[e.source].ControlNode?, tdg.nodes[e.target].ControlNode?;
      var from, to := ends[e.source].1, ends[e.target].0;
      assert NodeAt(tdg, plan, ends, e.source) && NodeAt(tdg, plan, ends, e.target);
      if sourceControl && targetControl {
        return false;
      }
      if !sourceControl {
        StartIsLoose(net.Contents(), tdg, plan, ends, e.source);
      }
      if !targetControl {
        StartIsLoose(net.Contents(), tdg, plan, ends, e.target);
      }
      if sourceControl {
        ok := PutInto(from, to);
      } else if targetControl {
        ok := TakeFrom(from, to);
      } else {
        var t := AddBridge(from, e.interval, to);
        ok := true;
      }
    }

    /** The deadline monitor of a self-loop.  Its arc from the deadline place is
        given a place index where a transition index belongs; that arc is made all
        the same if such a transition exists, and is an error otherwise.  For a fork
        or join its transition's index is taken for a place. */
    method AddMonitor(n: nat, period: int) returns (ok: bool)
      requires Laid() && n < |ends| && exists k: nat :: LoopAt(tdg, ends, k, ends[n].0)
      requires exists k: nat :: LoopAt(tdg, ends, k, ends[n].1)
      modifies this`plan, net
      ensures ok ==> Laid() && old(plan.strays) <= plan.strays && TookEnds(n)
      ensures
        var v := Monitored(old(Sketched()), ends[n].1, ends[n].0, period);
        (ok <==> v.Some?) && (ok ==> Sketched() == v.value)
    {
      ghost var v := Sketched();
      var start, end := ends[n].0, ends[n].1;
      var deadline, timeout, done, endPlace := AddMonitorPlaces();
      if period < 0 {
        return false;
      }
      var timed, ending, complete, out := AddMonitorTransitions(period);
      ok := WireMonitor(start, end, deadline, timed);
      if ok {
        MonitorDrawn(v, end, start, period);
      }
    }

    ghost predicate TookEnds(n: nat)
      requires n < |ends|
      reads this
    {
      Taken(plan, ends[n].0) && Taken(plan, ends[n].1)
    }

    /** The last four transitions are outside the chains and take nothing yet. */
    ghost predicate FourNew(timed: nat)
      reads this
    {
      && timed + 4 == |plan.kinds| && (forall t: nat :: timed <= t < |plan.kinds| ==> plan.kinds[t].Outer?)
      && forall x :: x in plan.strays ==> x.transition < timed
    }

    /** The monitor's arcs; false stands for the range error. */
    method WireMonitor(start: nat, end: nat, deadline: nat, timed: nat) returns (ok: bool)
      requires Laid() && IsFree(deadline) && IsFree(deadline + 1) && IsFree(deadline + 2) && IsFree(deadline + 3)
      requires FourNew(timed) && exists k: nat :: LoopAt(tdg, ends, k, start)
      requires exists k: nat :: LoopAt(tdg, ends, k, end)
      modifies this`plan, net
      ensures Laid() && (ok <==> deadline + 2 < timed + 4) && old(plan.strays) <= plan.strays
      ensures ok ==> Taken(plan, start) && Taken(plan, end)
      ensures ok ==> Sketched() == MonitorWired(old(Sketched()), end, start, deadline, timed)
    {
      ok := WireEnding(deadline, timed);
      if ok {
        WireTimer(start, end, deadline, timed);
      }
    }

    method WireEnding(deadline: nat, timed: nat) returns (ok: bool)
      requires Laid() && IsFree(deadline) && IsFree(deadline + 2) && IsFree(deadline + 3) && timed + 4 == |plan.kinds|
      modifies net
      ensures Laid() && (ok <==> deadline + 2 < timed + 4)
      ensures ok ==> Sketched() == EndingWired(old(Sketched()), deadline, timed)
    {
      var set0 := PutInto(timed + 1, deadline + 3);
      var set1 := TakeFrom(deadline + 3, timed + 2);
      var set2 := PutInto(timed + 2, deadline + 2);
      ok := TakeFrom(deadline, deadline + 2);
    }

    method WireTimer(start: nat, end: nat, deadline: nat, timed: nat)
      requires Laid() && IsFree(deadline) && IsFree(deadline + 1) && FourNew(timed)
      requires exists k: nat :: LoopAt(tdg, ends, k, start)
      requires exists k: nat :: LoopAt(tdg, ends, k, end)
      modifies this`plan, net
      ensures Laid() && old(plan.strays) <= plan.strays && Taken(plan, start) && Taken(plan, end)
      ensures Sketched() == TimerWired(old(Sketched()), end, start, deadline, timed)
    {
      hide WithIn, WithOut, Wired, NodesOk, StraysOk, LoopsTaken;
      var set3 := TakeFrom(deadline, timed + 3);
      var set4 := PutInto(timed + 3, deadline + 1);
      TakeEnds(start, end, deadline, timed);
    }

    /** The arcs from the node's end and start. */
    method TakeEnds(start: nat, end: nat, deadline: nat, timed: nat)
      requires Laid() && IsFree(deadline) && FourNew(timed)
      requires exists k: nat :: LoopAt(tdg, ends, k, start)
      requires exists k: nat :: LoopAt(tdg, ends, k, end)
      modifies this`plan, net
      ensures Laid() && old(plan.strays) <= plan.strays && Taken(plan, start) && Taken(plan, end)
      ensures Sketched() == EndsWired(old(Sketched()), end, start, deadline, timed)
    {
      hide WithIn, WithOut, Wired, NodesOk, StraysOk, LoopsTaken;
      TakeIfPlace(end, timed + 1);
      PlacesOwned();
      TakeIfPlace(start, timed);
      if start < |net.places| {
        var set5 := PutInto(timed, deadline);
      }
    }

    method TakeIfPlace(p: nat, t: nat)
      requires Laid() && t < |plan.kinds| && plan.kinds[t].Outer?
      requires (forall x :: x in plan.strays ==> x.transition != t) && exists k: nat :: LoopAt(tdg, ends, k, p)
      modifies this`plan, net
      ensures Laid() && Taken(plan, p) && Sketched() == WithIn(old(Sketched()), p, t)
      ensures plan == old(plan).(strays := plan.strays) && old(plan.strays) <= plan.strays
      ensures forall x :: x in plan.strays ==> x in old(plan.strays) || x == Stray(t, p)
    {
      PlacesOwned();
      if p < |net.places| {
        TakeByMistake(p, t);
      }
    }

    /** An arc from a place that may be anywhere. */
    method TakeByMistake(p: nat, t: nat)
      requires Laid() && p < |plan.owners| && t < |plan.kinds| && plan.kinds[t].Outer?
      requires (forall x :: x in plan.strays ==> x.transition != t) && exists k: nat :: LoopAt(tdg, ends, k, p)
      modifies this`plan, net
      ensures Laid() && plan == old(plan).(strays := old(plan.strays) + {Stray(t, p)})
      ensures Sketched() == WithIn(old(Sketched()), p, t)
    {
      StrayWired(net.Contents(), plan, p, t);
      SketchIn(net.Contents(), p, t);
      var ok := net.SetPreArc(p, t, 1);
      ghost var more := plan.(strays := plan.strays + {Stray(t, p)});
      NodesKept(tdg, plan, more, ends, monitored);
      plan := more;
    }

    method AddMonitorPlaces() returns (deadline: nat, timeout: nat, done: nat, endPlace: nat)
      requires Laid()
      modifies this`plan, net
      ensures Laid() && plan == old(plan).(owners := plan.owners) && IsFree(deadline) && IsFree(timeout) && IsFree(done)
        && IsFree(endPlace)
      ensures deadline == |old(plan.owners)| && timeout == deadline + 1 && done == deadline + 2
        && endPlace == deadline + 3
      ensures Sketched() == FourPlaces(old(Sketched()))
    {
      deadline := AddFreePlace(Place(Fin(1), false));
      timeout := AddFreePlace(Place(Fin(1), false));
      done := AddFreePlace(Place(Fin(1), false));
      endPlace := AddFreePlace(Place(Fin(1), false));
    }

    ghost predicate IsFree(p: nat)
      reads this
    {
      p < |plan.owners| && plan.owners[p] == Free
    }

    method AddMonitorTransitions(period: int) returns (timed: nat, ending: nat, complete: nat, out: nat)
      requires Laid() && period >= 0
      modifies this`plan, net
      ensures Laid() && plan == old(plan).(kinds := plan.kinds) && FourNew(timed)
      ensures timed == |old(plan.kinds)| && ending == timed + 1 && complete == timed + 2 && out == timed + 3
      ensures Sketched() == FourTransitions(old(Sketched()), period)
    {
      forall x | x in plan.strays
        ensures x.transition < |plan.kinds|
      {
        assert StrayAt(plan, x);
      }
      timed := AddOuterTransition(ControlTransition(Interval(period, Fin(period), false, false)));
      ending := AddOuterTransition(ControlTransition(Immediate()));
      complete := AddOuterTransition(ControlTransition(Immediate()));
      out := AddOuterTransition(ControlTransition(Immediate()));
    }

    method TransformEdges() returns (ok: bool)
      requires Laid() && monitored == 0
      modifies this`plan, this`monitored, net
      ensures ok ==> Laid() && monitored == |tdg.edges|
      ensures
        var v := EdgesDrawn(tdg, old(Sketched()), ends, |tdg.edges|);
        (ok <==> v.Some?) && (ok ==> Sketched() == v.value)
    {
      hide Wired, NodesOk, EdgeDrawn;
      for k := 0 to |tdg.edges|
        invariant Laid() && monitored == k && EdgesDrawn(tdg, old(Sketched()), ends, k) == Some(Sketched())
      {
        ok := TransformEdge(k);
        EdgesFail(tdg, old(Sketched()), ends, k + 1);
        if !ok {
          return;
        }
        monitored := k + 1;
      }
      return true;
    }

    /** A self-loop is a deadline monitor, a dashed edge nothing. */
    method TransformEdge(k: nat) returns (ok: bool)
      requires Laid() && k < |tdg.edges| && monitored == k
      modifies this`plan, net
      ensures ok ==> Laid() && LoopsTaken(tdg, plan, ends, k + 1)
      ensures
        var v := EdgeDrawn(tdg, old(Sketched()), ends, tdg.edges[k]);
        (ok <==> v.Some?) && (ok ==> Sketched() == v.value)
    {
      hide Wired, NodesOk, Monitored, Bridged;
      var e := tdg.edges[k];
      assert ValidLink(tdg, e);
      if e.source == e.target {
        assert LoopAt(tdg, ends, k, ends[e.source].0) && LoopAt(tdg, ends, k, ends[e.source].1);
        ok := AddMonitor(e.source, e.period);
      } else if e.dashed {
        ok := true;
      } else {
        ok := HandleNormalEdge(e);
      }
    }

    // -------------------------------------------------------------------- bindings

    /** Tokens on an unguarded place. */
    method PutTokens(p: nat, tokens: int)
      requires Laid() && p < |plan.owners| && !Guarded(plan, p) && tokens >= 0
      modifies net
      ensures Laid() && Sketched() == WithTokens(old(Sketched()), p, tokens)
    {
      ghost var before := net.Contents();
      LooseTokensWired(net.Contents(), plan, p, tokens);
      var ok := net.SetInitialMarking(p, tokens);
      SketchSameArcs(before, net.Contents());
    }

    method AddStartBindings()
      requires Laid()
      modifies net
      ensures Laid() && Sketched() == StartsFilled(tdg, old(Sketched()), ends, |tdg.starts|)
    {
      for k := 0 to |tdg.starts|
        invariant Laid() && Sketched() == StartsFilled(tdg, old(Sketched()), ends, k)
      {
        var n, tokens := tdg.starts[k].0, tdg.starts[k].1;
        assert IsTask(tdg, n);
        if tokens > 0 {
          StartIsLoose(net.Contents(), tdg, plan, ends, n);
          PutTokens(ends[n].0, tokens);
        }
      }
    }

    /** A marked period place whose transition puts one token into the entry and
        gives its own back, once a period. */
    method AddRelease(entry: nat, period: int)
      requires Laid() && entry < |plan.owners| && !Guarded(plan, entry) && period >= 0
      modifies this`plan, net
      ensures Laid() && Sketched() == Released(old(Sketched()), entry, period)
    {
      ghost var v := Sketched();
      var place := AddFreePlace(Place(Fin(1), true));
      var fire := AddOuterTransition(ControlTransition(Interval(period, Fin(period), false, false)));
      PutTokens(place, 1);
      var set0 := TakeFrom(place, fire);
      var set1 := PutInto(fire, place);
      var set2 := PutInto(fire, entry);
      ReleaseDrawn(v, entry, period, Sketched());
    }

    method AddPeriodicReleaseBindings()
      requires Laid()
      modifies this`plan, net
      ensures Laid() && Sketched() == AllReleased(tdg, old(Sketched()), ends, |tdg.periodic|)
    {
      hide Wired, StraysOk, LoopsTaken, Released;
      for k := 0 to |tdg.periodic|
        invariant Laid() && Sketched() == AllReleased(tdg, old(Sketched()), ends, k)
      {
        var n := tdg.periodic[k].0;
        assert IsTask(tdg, n);
        if !ReleasesItself(tdg, n) {
          StartIsLoose(net.Contents(), tdg, plan, ends, n);
          AddRelease(ends[n].0, tdg.periodic[k].1);
        }
      }
    }

    /** A transition that only takes from the exit of a task. */
    method AddConsumeTransition(exit: nat)
      requires Laid() && exit < |plan.owners| && !Guarded(plan, exit)
      modifies this`plan, net
      ensures Laid()
      ensures Sketched() == WithTransition(old(Sketched()), ControlTransition(Immediate()), {exit}, {})
    {
      ghost var v := Sketched();
      var t := AddOuterTransition(ControlTransition(Immediate()));
      var took := TakeFrom(exit, t);
      TransitionDrawn(v, ControlTransition(Immediate()), {exit}, {});
    }

    method AddEndConsumers()
      requires Laid()
      modifies this`plan, net
      ensures Laid() && Sketched() == AllConsumed(tdg, old(Sketched()), ends, |tdg.nodes|)
    {
      for n := 0 to |tdg.nodes|
        invariant Laid() && Sketched() == AllConsumed(tdg, old(Sketched()), ends, n)
      {
        if Consumed(tdg, n) {
          StartIsLoose(net.Contents(), tdg, plan, ends, n);
          AddConsumeTransition(ends[n].1);
        }
      }
    }

    // ------------------------------------------------------------------ preemption

    /** Preemption is by a task of higher priority on the same core, from ready or
        from a position that holds a lock before the first that spins. */
    ghost predicate PreemptOk(plan: Plan, t: nat) {
      t < |plan.kinds| && plan.kinds[t].Preempting? ==>
        Outranks(tdg, plan.kinds[t].high, plan.kinds[t].low) && SentFrom(plan.kinds[t].low, plan.kinds[t].pos)
    }

    ghost predicate SentFrom(low: nat, pos: nat) {
      pos == 2 || exists k: nat :: AtLock(low, k, pos)
    }

    /** Lock k of the task is before the first that spins; its holding position is
        the one before its release. */
    ghost predicate AtLock(low: nat, k: nat, pos: int) {
      && IsTask(tdg, low) && k < SpinFree(tdg.nodes[low].task.locks)
      && pos == ReleasePos(6 * |tdg.nodes[low].task.locks| + 5, k) - 1
    }

    /** The net has all its fragments and connections; resources may be missing. */
    ghost predicate Connected()
      reads this, net
    {
      var valid := Valid();
      valid && |ends| == |chains| == |tdg.nodes| && forall t: nat :: PreemptOk(plan, t)
    }

    /** All preemptions of low by high are there. */
    ghost predicate AllMade(kinds: seq<Kind>, high: nat, low: nat) {
      Preempting(high, low, 2) in kinds && IsTask(tdg, low) && LocksMade(kinds, high, low, |tdg.nodes[low].task.locks|)
    }

    /** Those from the first n locks are there. */
    ghost predicate LocksMade(kinds: seq<Kind>, high: nat, low: nat, n: nat) {
      forall k: nat, pos: nat :: k < n && AtLock(low, k, pos) ==> Preempting(high, low, pos) in kinds
    }

    lemma LocksMadeNext(before: seq<Kind>, after: seq<Kind>, high: nat, low: nat, k: nat, pos: nat)
      requires before <= after && LocksMade(before, high, low, k) && Preempting(high, low, pos) in after
      requires IsTask(tdg, low) && pos == ReleasePos(6 * |tdg.nodes[low].task.locks| + 5, k) - 1
      ensures LocksMade(after, high, low, k + 1)
    {
    }

    lemma LocksMadeAll(kinds: seq<Kind>, high: nat, low: nat)
      requires IsTask(tdg, low) && LocksMade(kinds, high, low, SpinFree(tdg.nodes[low].task.locks))
      ensures LocksMade(kinds, high, low, |tdg.nodes[low].task.locks|)
    {
    }

    ghost predicate PairMade(kinds: seq<Kind>, high: nat, low: nat) {
      Outranks(tdg, high, low) ==> AllMade(kinds, high, low)
    }

    ghost predicate RowMade(kinds: seq<Kind>, tasks: seq<nat>, i: nat, j: nat) {
      i < |tasks| && forall k: nat :: k < j <= |tasks| ==> PairMade(kinds, tasks[i], tasks[k])
    }

    lemma MadeKept(before: seq<Kind>, after: seq<Kind>)
      requires before <= after
      ensures forall tasks: seq<nat>, i: nat, j: nat :: RowMade(before, tasks, i, j) ==> RowMade(after, tasks, i, j)
      ensures forall cores: int :: CoresMade(before, cores) ==> CoresMade(after, cores)
    {
      forall high: nat, low: nat | PairMade(before, high, low)
        ensures PairMade(after, high, low)
      {
      }
    }

    ghost predicate RowsMade(kinds: seq<Kind>, tasks: seq<nat>, i: nat) {
      forall h: nat :: h < i ==> RowMade(kinds, tasks, h, |tasks|)
    }

    /** All preemptions on one core are there. */
    ghost predicate CoreMade(kinds: seq<Kind>, core: int) {
      forall high: nat, low: nat {:trigger Outranks(tdg, high, low)} ::
        Outranks(tdg, high, low) && tdg.nodes[high].task.core == core ==> AllMade(kinds, high, low)
    }

    lemma NoRowsMade(kinds: seq<Kind>, tasks: seq<nat>)
      ensures RowsMade(kinds, tasks, 0)
    {
    }

    lemma RowsMadeNext(before: seq<Kind>, after: seq<Kind>, tasks: seq<nat>, i: nat)
      requires before <= after && RowsMade(before, tasks, i) && RowMade(after, tasks, i, |tasks|)
      ensures RowsMade(after, tasks, i + 1)
    {
      MadeKept(before, after);
    }

    /** The tasks of a core include every pair of which one outranks the other. */
    lemma RowsMadeAll(kinds: seq<Kind>, core: int, tasks: seq<nat>)
      requires forall n: nat {:trigger n in tasks} :: n in tasks <==> IsTask(tdg, n) && tdg.nodes[n].task.core == core
      requires RowsMade(kinds, tasks, |tasks|)
      ensures CoreMade(kinds, core)
    {
      hide AllMade;
      forall high: nat, low: nat | Outranks(tdg, high, low) && tdg.nodes[high].task.core == core
        ensures AllMade(kinds, high, low)
      {
        assert high in tasks && low in tasks;
        var i: nat, j: nat :| i < |tasks| && tasks[i] == high && j < |tasks| && tasks[j] == low;
        assert RowMade(kinds, tasks, i, |tasks|) && PairMade(kinds, tasks[i], tasks[j]);
      }
    }

    /** What preemptions add to the plan. */
    ghost predicate OnlyPreempts(before: Plan, after: Plan) {
      before.kinds <= after.kinds && after.chains == before.chains && after.bonds == before.bonds
    }

    /** The tasks of a core, those of higher priority first. */
    method TasksOnCore(core: int) returns (tasks: seq<nat>)
      ensures tasks == Ranking(tdg, core, |tdg.nodes|) && Falling(tdg, tasks)
      ensures forall m: nat {:trigger m in tasks} :: m in tasks <==> IsTask(tdg, m) && tdg.nodes[m].task.core == core
    {
      tasks := [];
      for n := 0 to |tdg.nodes|
        invariant tasks == Ranking(tdg, core, n)
      {
        if IsTask(tdg, n) && tdg.nodes[n].task.core == core {
          tasks := InsertTask(tasks, n);
        }
      }
      RankingTasks(tdg, core, |tdg.nodes|);
    }

    /** n goes behind the last task of at least its priority. */
    method InsertTask(tasks: seq<nat>, n: nat) returns (more: seq<nat>)
      ensures more == Insert(tdg, tasks, n)
    {
      hide Insert;
      var k := |tasks|;
      assert tasks[..k] == tasks && tasks[k..] == [];
      while k > 0 && PriorityOf(tdg, tasks[k - 1]) < PriorityOf(tdg, n)
        invariant 0 <= k <= |tasks|
        invariant Insert(tdg, tasks, n) == Insert(tdg, tasks[..k], n) + tasks[k..]
      {
        InsertBefore(tdg, tasks, n, k);
        k := k - 1;
      }
      InsertHere(tdg, tasks, n, k);
      more := tasks[..k] + [n] + tasks[k..];
    }

    /** A transition that lets high enter and sends low back to its entry. */
    method AddPreemption(high: nat, low: nat, pos: nat)
      requires Connected() && Outranks(tdg, high, low) && SentFrom(low, pos) && CanPreempt(plan, high, low, pos)
      modifies this`plan, net
      ensures Connected() && plan.chains == old(plan.chains) && plan.bonds == old(plan.bonds)
      ensures plan.kinds == old(plan.kinds) + [Preempting(high, low, pos)]
      ensures Sketched() == SentBack(old(Sketched()), tdg, chains, high, low, pos)
    {
      ghost var s := net.Contents();
      var task := tdg.nodes[high].task;
      var transition := Transition(Immediate(), task.priority, task.core, false);
      var h, l := chains[high], chains[low];
      PreemptWired(s, plan, high, low, pos, transition);
      assert ChainAt(plan, high, 0) && ChainAt(plan, high, 2) && ChainAt(plan, low, 0) && ChainAt(plan, low, pos);
      SketchCrossing(s, transition, h[0], l[pos], h[2], l[0]);
      AppendCrossing(transition, h[0], l[pos], h[2], l[0]);
      ghost var more := plan.(kinds := plan.kinds + [Preempting(high, low, pos)]);
      NodesKept(tdg, plan, more, ends, monitored);
      forall u: nat
        ensures PreemptOk(more, u)
      {
        assert PreemptOk(plan, u);
      }
      plan := more;
    }

    lemma SketchCrossing(s: Incidence, transition: Transition, a: nat, b: nat, c: nat, d: nat)
      requires Shaped(s) && a < |s.places| && b < |s.places| && c < |s.places| && d < |s.places|
      ensures Shaped(Crossing(s, transition, a, b, c, d))
      ensures SketchOf(Crossing(s, transition, a, b, c, d)) == WithTransition(SketchOf(s), transition, {a, b}, {c, d})
    {
      var t, r := |s.transitions|, TransitionAdded(s, transition);
      SketchTransition(s, transition);
      SketchIn(r, a, t);
      SketchIn(PreArcSet(r, a, t, 1), b, t);
      var taken := PreArcSet(PreArcSet(r, a, t, 1), b, t, 1);
      SketchOut(taken, t, c);
      SketchOut(PostArcSet(taken, t, c, 1), t, d);
      CrossingDrawn(SketchOf(s), transition, a, b, c, d);
    }

    method AppendCrossing(transition: Transition, a: nat, b: nat, c: nat, d: nat)
      requires net.Valid() && a < |net.places| && b < |net.places| && c < |net.places| && d < |net.places|
      modifies net
      ensures net.Valid() && net.Contents() == Crossing(old(net.Contents()), transition, a, b, c, d)
    {
      TransitionShape(net.Contents(), transition);
      var t := net.AddTransition(transition);
      var set0 := net.SetPreArc(a, t, 1);
      var set1 := net.SetPreArc(b, t, 1);
      var set2 := net.SetPostArc(t, c, 1);
      var set3 := net.SetPostArc(t, d, 1);
    }

    method MarkSuspendable(t: nat)
      requires Connected()
      modifies net
      ensures Connected() && Sketched() == WithSuspendable(old(Sketched()), t)
    {
      if t < |net.transitions| {
        ghost var before := net.Contents();
        SuspendableWired(before, plan, t);
        net.MarkSuspendable(t);
        SketchSameArcs(before, net.Contents());
      }
    }

    lemma TaskChains(n: nat)
      requires Connected() && IsTask(tdg, n)
      ensures |chains[n]| == 6 * |tdg.nodes[n].task.locks| + 5
    {
      assert NodeAt(tdg, plan, ends, n) && ValidTask(tdg, tdg.nodes[n].task);
    }

    /** The preemptions of low by high: from ready, and from holding a lock, up to
        the first lock that spins.  Each sends low back to its entry. */
    method PreemptTask(high: nat, low: nat)
      requires Connected() && Outranks(tdg, high, low)
      modifies this`plan, net
      ensures Connected() && OnlyPreempts(old(plan), plan) && PairMade(plan.kinds, high, low)
      ensures Sketched() == TaskPreempted(old(Sketched()), tdg, chains, high, low)
    {
      TaskChains(high);
      TaskChains(low);
      MarkSuspendable(chains[low][3]);
      AddPreemption(high, low, 2);
      ghost var kinds := plan.kinds;
      PreemptHolding(high, low);
      assert plan.kinds[|kinds| - 1] == Preempting(high, low, 2);
    }

    method PreemptHolding(high: nat, low: nat)
      requires Connected() && Outranks(tdg, high, low)
      modifies this`plan, net
      ensures Connected() && OnlyPreempts(old(plan), plan)
      ensures LocksMade(plan.kinds, high, low, |tdg.nodes[low].task.locks|)
      ensures
        var locks := tdg.nodes[low].task.locks;
        Sketched() == HoldingPreempted(old(Sketched()), tdg, chains, high, low, SpinFree(locks))
    {
      hide Wired, NodesOk, LocksMade;
      var locks := tdg.nodes[low].task.locks;
      TaskChains(low);
      NoLocksMade(plan.kinds, high, low);
      for i := 0 to |locks|
        invariant Connected() && OnlyPreempts(old(plan), plan) && i <= SpinFree(locks)
        invariant LocksMade(plan.kinds, high, low, i)
        invariant Sketched() == HoldingPreempted(old(Sketched()), tdg, chains, high, low, i)
      {
        SpinFreeStep(locks, i);
        if locks[i].spin {
          break;
        }
        ghost var kinds := plan.kinds;
        PreemptAtLock(high, low, i);
        LocksMadeNext(kinds, plan.kinds, high, low, i, ReleasePos(|chains[low]|, i) - 1);
      }
      LocksMadeAll(plan.kinds, high, low);
    }

    lemma NoLocksMade(kinds: seq<Kind>, high: nat, low: nat)
      ensures LocksMade(kinds, high, low, 0)
    {
    }

    method PreemptAtLock(high: nat, low: nat, i: nat)
      requires Connected() && Outranks(tdg, high, low) && i < SpinFree(tdg.nodes[low].task.locks)
      modifies this`plan, net
      ensures Connected() && OnlyPreempts(old(plan), plan)
      ensures
        var pos := ReleasePos(|chains[low]|, i);
        && pos > 0 && plan.kinds == old(plan.kinds) + [Preempting(high, low, pos - 1)]
        && Sketched() == SentBack(WithSuspendable(old(Sketched()), pos), tdg, chains, high, low, pos - 1)
    {
      TaskChains(high);
      TaskChains(low);
      var idx := |chains[low]| - 2 - 2 * (i + 1);
      assert AtLock(low, i, idx - 1);
      hide Wired, NodesOk, StraysOk, LoopsTaken, PreemptOk, SentBack;
      MarkSuspendable(idx);
      AddPreemption(high, low, idx - 1);
    }

    /** The preemptions by tasks[i] of the tasks behind it. */
    method PreemptRow(tasks: seq<nat>, i: nat, ghost core: int)
      requires Connected() && i < |tasks| && Falling(tdg, tasks)
      requires forall n: nat :: n in tasks ==> IsTask(tdg, n) && tdg.nodes[n].task.core == core
      modifies this`plan, net
      ensures Connected() && OnlyPreempts(old(plan), plan)
      ensures RowMade(plan.kinds, tasks, i, |tasks|)
      ensures Sketched() == RowPreempted(old(Sketched()), tdg, chains, tasks, i, |tasks|)
    {
      hide Wired, NodesOk;
      for j := i + 1 to |tasks|
        invariant Connected() && OnlyPreempts(old(plan), plan)
        invariant RowMade(plan.kinds, tasks, i, j)
        invariant Sketched() == RowPreempted(old(Sketched()), tdg, chains, tasks, i, j)
      {
        assert tasks[i] in tasks && tasks[j] in tasks;
        ghost var kinds := plan.kinds;
        if PriorityOf(tdg, tasks[j]) < PriorityOf(tdg, tasks[i]) {
          PreemptTask(tasks[i], tasks[j]);
        }
        MadeKept(kinds, plan.kinds);
      }
    }

    /** All preemptions on one core. */
    method PreemptCore(core: int)
      requires Connected()
      modifies this`plan, net
      ensures Connected() && OnlyPreempts(old(plan), plan)
      ensures CoreMade(plan.kinds, core)
      ensures
        var tasks := Ranking(tdg, core, |tdg.nodes|);
        && (forall n: nat :: n in tasks ==> IsTask(tdg, n))
        && Sketched() == CorePreempted(old(Sketched()), tdg, chains, tasks, |tasks|)
    {
      hide Wired, NodesOk, RowMade, RowsMade, CoreMade;
      var tasks := TasksOnCore(core);
      NoRowsMade(plan.kinds, tasks);
      for i := 0 to |tasks|
        invariant Connected() && OnlyPreempts(old(plan), plan)
        invariant RowsMade(plan.kinds, tasks, i)
        invariant Sketched() == CorePreempted(old(Sketched()), tdg, chains, tasks, i)
      {
        ghost var kinds := plan.kinds;
        PreemptRow(tasks, i, core);
        RowsMadeNext(kinds, plan.kinds, tasks, i);
      }
      RowsMadeAll(plan.kinds, core, tasks);
    }

    ghost predicate CoresMade(kinds: seq<Kind>, cores: int) {
      forall high: nat, low: nat {:trigger Outranks(tdg, high, low)} ::
        Outranks(tdg, high, low) && tdg.nodes[high].task.core < cores ==> AllMade(kinds, high, low)
    }

    method FixedPriorWithRestart()
      requires Connected() && tdg.policy.Restart?
      modifies this`plan, net
      ensures Connected() && OnlyPreempts(old(plan), plan) && CoresMade(plan.kinds, tdg.numCpus)
      ensures Sketched() == AllPreempted(old(Sketched()), tdg, chains, tdg.numCpus)
    {
      hide Wired, NodesOk;
      for core := 0 to tdg.numCpus
        invariant Connected() && OnlyPreempts(old(plan), plan) && CoresMade(plan.kinds, core)
        invariant Sketched() == AllPreempted(old(Sketched()), tdg, chains, core)
      {
        ghost var kinds := plan.kinds;
        PreemptCore(core);
        MadeKept(kinds, plan.kinds);
      }
    }

    // ------------------------------------------------------------------- resources

    /** A new resource place, full from the start. */
    method AddResource(tokens: int) returns (p: nat)
      requires Connected() && tokens >= 0
      modifies this`plan, net
      ensures Connected() && plan.chains == old(plan.chains) && plan.bonds == old(plan.bonds)
        && plan.kinds == old(plan.kinds)
      ensures p == |old(plan.owners)| && plan.owners == old(plan.owners) + [Resource(tokens)]
      ensures Sketched() == WithPlace(old(Sketched()), Place(Fin(tokens), false), tokens)
    {
      ghost var s, more := net.Contents(), plan.(owners := plan.owners + [Resource(tokens)]);
      var place := Place(Fin(tokens), false);
      PlaceWired(s, plan, place, Resource(tokens));
      SketchPlace(s, place, tokens);
      p := net.AddPlace(place);
      var ok := net.SetInitialMarking(p, tokens);
      NodesKept(tdg, plan, more, ends, monitored);
      PreemptsKept(plan, more);
      plan := more;
    }

    lemma PreemptsKept(before: Plan, after: Plan)
      requires before.kinds == after.kinds && forall t: nat :: PreemptOk(before, t)
      ensures forall t: nat :: PreemptOk(after, t)
    {
      forall t: nat
        ensures PreemptOk(after, t)
      {
        assert PreemptOk(before, t);
      }
    }

    method AddResources(count: nat, tokens: int) returns (places: seq<nat>)
      requires Connected() && tokens >= 0
      modifies this`plan, net
      ensures Connected() && plan.chains == old(plan.chains) && plan.bonds == old(plan.bonds)
        && plan.kinds == old(plan.kinds)
      ensures |places| == count && AreResources(plan.owners, places, tokens) && CountFrom(places, |old(plan.owners)|)
      ensures old(plan.owners) <= plan.owners && |plan.owners| == |old(plan.owners)| + count
      ensures Sketched() == Resources(old(Sketched()), count, tokens)
    {
      hide Wired, NodesOk;
      places := [];
      for i := 0 to count
        invariant Connected() && plan.chains == old(plan.chains) && plan.bonds == old(plan.bonds)
          && plan.kinds == old(plan.kinds)
        invariant |places| == i && AreResources(plan.owners, places, tokens) && CountFrom(places, |old(plan.owners)|)
        invariant old(plan.owners) <= plan.owners && |plan.owners| == |old(plan.owners)| + i
        invariant Sketched() == Resources(old(Sketched()), i, tokens)
      {
        var p := AddResource(tokens);
        places := places + [p];
      }
    }

    /** Binds a resource to two transitions of a chain. */
    method AddBond(b: Bond)
      requires Connected() && CanBind(plan, b)
      modifies this`plan, net
      ensures Connected() && plan == old(plan).(bonds := old(plan.bonds) + {b})
      ensures Sketched() == BoundTo(old(Sketched()), b.resource, chains[b.node], b.acquire, b.release)
    {
      ghost var more := plan.(bonds := plan.bonds + {b});
      BondWired(net.Contents(), plan, b);
      assert ChainAt(plan, b.node, b.acquire) && ChainAt(plan, b.node, b.release);
      SetBond(b.resource, chains[b.node][b.acquire], chains[b.node][b.release]);
      NodesKept(tdg, plan, more, ends, monitored);
      PreemptsKept(plan, more);
      plan := more;
    }

    method SetBond(resource: nat, take: nat, give: nat)
      requires net.Valid() && resource < |net.places| && take < |net.transitions| && give < |net.transitions|
      modifies net
      ensures net.Valid()
      ensures
        && Shaped(PreArcSet(old(net.Contents()), resource, take, 1))
        && net.Contents() == PostArcSet(PreArcSet(old(net.Contents()), resource, take, 1), give, resource, 1)
        && Sketched() == WithOut(WithIn(old(Sketched()), resource, take), give, resource)
    {
      PreShape(net.Contents(), resource, take, 1);
      SketchIn(net.Contents(), resource, take);
      var set0 := net.SetPreArc(resource, take, 1);
      SketchOut(net.Contents(), give, resource);
      var set1 := net.SetPostArc(give, resource, 1);
    }

    /** The processor of a task is taken at its second chain position and given
        back by its last segment. */
    ghost predicate IsCpuBond(b: Bond)
      reads this`chains, this`cpusPlace
    {
      && IsTask(tdg, b.node) && b.node < |chains| && 0 <= tdg.nodes[b.node].task.core < |cpusPlace|
      && b.resource == cpusPlace[tdg.nodes[b.node].task.core]
      && b.acquire == 1 && b.release == |chains[b.node]| - 2
    }

    ghost predicate IsLockBond(b: Bond, i: nat)
      reads this`chains, this`locksPlace
    {
      && IsTask(tdg, b.node) && b.node < |chains| && i < |tdg.nodes[b.node].task.locks|
      && tdg.nodes[b.node].task.locks[i].id < |locksPlace|
      && b.resource == locksPlace[tdg.nodes[b.node].task.locks[i].id]
      && b.acquire == AcquirePos(i) && b.release == ReleasePos(|chains[b.node]|, i)
    }

    /** The bonds made so far: processors of the first cpus nodes, all locks of the
        first n nodes, and the first k locks of node n. */
    ghost predicate BondsMade(bonds: set<Bond>, cpus: nat, n: nat, k: nat)
      reads this`chains, this`cpusPlace, this`locksPlace
    {
      forall b: Bond :: b in bonds <==> MadeBond(b, cpus, n, k)
    }

    ghost predicate MadeBond(b: Bond, cpus: nat, n: nat, k: nat)
      reads this`chains, this`cpusPlace, this`locksPlace
    {
      || (IsCpuBond(b) && b.node < cpus)
      || exists i: nat :: IsLockBond(b, i) && (b.node < n || (b.node == n && i < k))
    }

    ghost predicate Resourced()
      reads this, net
    {
      var connected := Connected();
      && connected
      && AreResources(plan.owners, cpusPlace, tdg.coresPerCpu) && AreResources(plan.owners, locksPlace, 1)
      && |locksPlace| == tdg.lockCount && (|cpusPlace| == tdg.numCpus || cpusPlace == [])
      && forall i, j :: 0 <= i < |cpusPlace| && 0 <= j < |locksPlace| ==> cpusPlace[i] < locksPlace[j]
    }

    method TaskBindCpuResource(ghost first: nat)
      requires Resourced() && |cpusPlace| == tdg.numCpus && plan.bonds == {} && CountFrom(cpusPlace, first)
      requires !tdg.policy.Resume?
      modifies this`plan, net
      ensures Resourced() && plan == old(plan).(bonds := plan.bonds)
      ensures BondsMade(plan.bonds, |tdg.nodes|, 0, 0)
      ensures Sketched() == CpusBound(old(Sketched()), tdg, chains, first, |tdg.nodes|)
    {
      hide Wired, NodesOk, BondsMade, IsCpuBond, BoundTo, MadeBond;
      NoBondsMade();
      for n := 0 to |tdg.nodes|
        invariant Resourced() && plan == old(plan).(bonds := plan.bonds)
        invariant BondsMade(plan.bonds, n, 0, 0)
        invariant Sketched() == CpusBound(old(Sketched()), tdg, chains, first, n)
      {
        if IsTask(tdg, n) {
          BindCpu(n);
        } else {
          NoCpuBondNext(plan.bonds, n);
        }
      }
    }

    method BindCpu(n: nat)
      requires Resourced() && |cpusPlace| == tdg.numCpus && IsTask(tdg, n) && BondsMade(plan.bonds, n, 0, 0)
      requires !tdg.policy.Resume?
      modifies this`plan, net
      ensures Resourced() && plan == old(plan).(bonds := plan.bonds) && BondsMade(plan.bonds, n + 1, 0, 0)
      ensures 0 <= tdg.nodes[n].task.core < tdg.numCpus
      ensures Sketched() == BoundTo(old(Sketched()), cpusPlace[tdg.nodes[n].task.core], chains[n], 1, |chains[n]| - 2)
    {
      TaskChains(n);
      assert ValidTask(tdg, tdg.nodes[n].task);
      ghost var bonds := plan.bonds;
      AddBond(Bond(cpusPlace[tdg.nodes[n].task.core], n, 1, |chains[n]| - 2));
      CpuBondNext(bonds, n, Bond(cpusPlace[tdg.nodes[n].task.core], n, 1, |chains[n]| - 2));
    }

    lemma NoBondsMade()
      ensures BondsMade({}, 0, 0, 0)
    {
    }

    lemma CpuBondNext(bonds: set<Bond>, n: nat, b: Bond)
      requires BondsMade(bonds, n, 0, 0) && IsCpuBond(b) && b.node == n
      ensures BondsMade(bonds + {b}, n + 1, 0, 0)
    {
      forall c: Bond
        ensures c in bonds + {b} <==> MadeBond(c, n + 1, 0, 0)
      {
        assert c in bonds <==> MadeBond(c, n, 0, 0);
      }
    }

    lemma NoCpuBondNext(bonds: set<Bond>, n: nat)
      requires BondsMade(bonds, n, 0, 0) && !IsTask(tdg, n)
      ensures BondsMade(bonds, n + 1, 0, 0)
    {
      forall c: Bond
        ensures c in bonds <==> MadeBond(c, n + 1, 0, 0)
      {
        assert c in bonds <==> MadeBond(c, n, 0, 0);
      }
    }

    /** The locks of one task; false stands for a chain too short for them. */
    method BindTaskLocks(n: nat, ghost cpus: nat, ghost first: nat) returns (ok: bool)
      requires Resourced() && IsTask(tdg, n) && BondsMade(plan.bonds, cpus, n, 0) && CountFrom(locksPlace, first)
      modifies this`plan, net
      ensures ok && Resourced() && plan == old(plan).(bonds := plan.bonds)
      ensures BondsMade(plan.bonds, cpus, n + 1, 0)
      ensures
        var locks := tdg.nodes[n].task.locks;
        Sketched() == TaskLocksBound(old(Sketched()), locks, chains[n], first, |locks|)
    {
      hide Wired, NodesOk, BondsMade, BoundTo;
      var locks := tdg.nodes[n].task.locks;
      for i := 0 to |locks|
        invariant Resourced() && plan == old(plan).(bonds := plan.bonds)
        invariant BondsMade(plan.bonds, cpus, n, i)
        invariant Sketched() == TaskLocksBound(old(Sketched()), locks, chains[n], first, i)
      {
        ok := BindLock(n, i, cpus);
        if !ok {
          return;
        }
      }
      LocksDone(plan.bonds, cpus, n);
      return true;
    }

    method BindLock(n: nat, i: nat, ghost cpus: nat) returns (ok: bool)
      requires Resourced() && IsTask(tdg, n) && i < |tdg.nodes[n].task.locks| && BondsMade(plan.bonds, cpus, n, i)
      modifies this`plan, net
      ensures ok && Resourced() && plan == old(plan).(bonds := plan.bonds) && BondsMade(plan.bonds, cpus, n, i + 1)
      ensures tdg.nodes[n].task.locks[i].id < |locksPlace|
      ensures
        var resource := locksPlace[tdg.nodes[n].task.locks[i].id];
        Sketched() == BoundTo(old(Sketched()), resource, chains[n], AcquirePos(i), ReleasePos(|chains[n]|, i))
    {
      TaskChains(n);
      assert ValidTask(tdg, tdg.nodes[n].task);
      var resource, acquire, release :=
        locksPlace[tdg.nodes[n].task.locks[i].id], AcquirePos(i), ReleasePos(|chains[n]|, i);
      if acquire >= |chains[n]| || release >= |chains[n]| {
        return false;
      }
      ghost var bonds := plan.bonds;
      AddBond(Bond(resource, n, acquire, release));
      LockBondNext(bonds, cpus, n, i, Bond(resource, n, acquire, release));
      return true;
    }

    lemma LockBondNext(bonds: set<Bond>, cpus: nat, n: nat, i: nat, b: Bond)
      requires BondsMade(bonds, cpus, n, i) && IsLockBond(b, i) && b.node == n
      ensures BondsMade(bonds + {b}, cpus, n, i + 1)
    {
      forall c: Bond
        ensures c in bonds + {b} <==> MadeBond(c, cpus, n, i + 1)
      {
        assert c in bonds <==> MadeBond(c, cpus, n, i);
      }
    }

    lemma LocksDone(bonds: set<Bond>, cpus: nat, n: nat)
      requires IsTask(tdg, n) && BondsMade(bonds, cpus, n, |tdg.nodes[n].task.locks|)
      ensures BondsMade(bonds, cpus, n + 1, 0)
    {
      forall c: Bond
        ensures c in bonds <==> MadeBond(c, cpus, n + 1, 0)
      {
        assert c in bonds <==> MadeBond(c, cpus, n, |tdg.nodes[n].task.locks|);
      }
    }

    method TaskBindLockResource(ghost cpus: nat, ghost first: nat) returns (ok: bool)
      requires Resourced() && BondsMade(plan.bonds, cpus, 0, 0) && CountFrom(locksPlace, first)
      modifies this`plan, net
      ensures ok && Resourced() && plan == old(plan).(bonds := plan.bonds)
      ensures BondsMade(plan.bonds, cpus, |tdg.nodes|, 0)
      ensures Sketched() == LocksBound(old(Sketched()), tdg, chains, first, |tdg.nodes|)
    {
      hide Wired, NodesOk, BondsMade, MadeBond, TaskLocksBound;
      for n := 0 to |tdg.nodes|
        invariant Resourced() && plan == old(plan).(bonds := plan.bonds)
        invariant BondsMade(plan.bonds, cpus, n, 0)
        invariant Sketched() == LocksBound(old(Sketched()), tdg, chains, first, n)
      {
        if IsTask(tdg, n) {
          ok := BindTaskLocks(n, cpus, first);
        } else {
          NoLocksNext(plan.bonds, cpus, n);
        }
      }
      return true;
    }

    lemma NoLocksNext(bonds: set<Bond>, cpus: nat, n: nat)
      requires BondsMade(bonds, cpus, n, 0) && !IsTask(tdg, n)
      ensures BondsMade(bonds, cpus, n + 1, 0)
    {
      forall c: Bond
        ensures c in bonds <==> MadeBond(c, cpus, n + 1, 0)
      {
        assert c in bonds <==> MadeBond(c, cpus, n, 0);
      }
    }

    /** The nodes whose tasks are bound to resource places for processors. */
    ghost function CpuNodes(): nat {
      if tdg.policy.Resume? then 0 else |tdg.nodes|
    }

    ghost predicate OneTaskPerCore()
      reads this`parallelism
    {
      forall c: int :: 0 <= c < tdg.numCpus ==> c in parallelism && parallelism[c] == 1
    }

    /** Under the resume policy cores are bounded to one task each, otherwise they
        are resource places. */
    method AddCpuPlaces()
      requires Connected() && plan.bonds == {}
      modifies this`plan, this`cpusPlace, this`parallelism, net
      ensures Connected() && plan.kinds == old(plan.kinds) && plan.bonds == {} && plan.chains == old(plan.chains)
      ensures |cpusPlace| == if tdg.policy.Resume? then 0 else tdg.numCpus
      ensures AreResources(plan.owners, cpusPlace, tdg.coresPerCpu) && CountFrom(cpusPlace, |old(plan.owners)|)
      ensures old(plan.owners) <= plan.owners && |plan.owners| == |old(plan.owners)| + |cpusPlace|
      ensures if tdg.policy.Resume? then OneTaskPerCore() else parallelism == old(parallelism)
      ensures Sketched() == Resources(old(Sketched()), |cpusPlace|, tdg.coresPerCpu)
    {
      hide Wired, NodesOk;
      if tdg.policy.Resume? {
        cpusPlace := [];
        for cpu := 0 to tdg.numCpus
          invariant Connected() && plan == old(plan) && cpusPlace == [] && Sketched() == old(Sketched())
          invariant forall c: int :: 0 <= c < cpu ==> c in parallelism && parallelism[c] == 1
        {
          parallelism := parallelism[cpu := 1];
        }
      } else {
        cpusPlace := AddResources(tdg.numCpus, tdg.coresPerCpu);
      }
    }

    method AddResourcePlaces()
      requires Connected() && plan.bonds == {}
      modifies this`plan, this`cpusPlace, this`locksPlace, this`parallelism, net
      ensures Resourced() && plan.kinds == old(plan.kinds) && plan.bonds == {}
      ensures |cpusPlace| == if tdg.policy.Resume? then 0 else tdg.numCpus
      ensures CountFrom(cpusPlace, |old(plan.owners)|) && CountFrom(locksPlace, |old(plan.owners)| + |cpusPlace|)
      ensures |plan.owners| == |old(plan.owners)| + |cpusPlace| + |locksPlace|
      ensures if tdg.policy.Resume? then OneTaskPerCore() else parallelism == old(parallelism)
      ensures Sketched() == Resources(Resources(old(Sketched()), |cpusPlace|, tdg.coresPerCpu), tdg.lockCount, 1)
    {
      hide Wired, NodesOk, Resources, OneTaskPerCore;
      AddCpuPlaces();
      locksPlace := AddResources(tdg.lockCount, 1);
    }

    method AddResourcesAndBindings() returns (ok: bool)
      requires Connected() && plan.bonds == {}
      modifies this`plan, this`cpusPlace, this`locksPlace, this`parallelism, net
      ensures ok && Resourced() && plan.kinds == old(plan.kinds)
      ensures |cpusPlace| == if tdg.policy.Resume? then 0 else tdg.numCpus
      ensures if tdg.policy.Resume? then OneTaskPerCore() else parallelism == old(parallelism)
      ensures BondsMade(plan.bonds, CpuNodes(), |tdg.nodes|, 0)
      ensures Sketched() == WithResources(old(Sketched()), tdg, chains) && ResourcesLast()
    {
      hide Wired, NodesOk, BondsMade, CpusBound, LocksBound;
      ghost var first := |plan.owners|;
      PlacesOwned();
      AddResourcePlaces();
      NoBondsMade();
      if !tdg.policy.Resume? {
        TaskBindCpuResource(first);
      }
      ok := TaskBindLockResource(CpuNodes(), first + |cpusPlace|);
    }

    lemma PlacesOwned()
      requires Valid()
      ensures |plan.owners| == |Sketched().places| == |net.places|
      ensures |plan.kinds| == |Sketched().transitions| == |net.transitions|
    {
    }

    /** The places of processors and then of locks are the last of the net. */
    ghost predicate ResourcesLast()
      reads this
    {
      var locks := |plan.owners| - |locksPlace|;
      && locks >= |cpusPlace| && CountFrom(locksPlace, locks) && CountFrom(cpusPlace, locks - |cpusPlace|)
    }

    /** The finished net. */
    ghost predicate Lowered()
      reads this, net
    {
      var resourced, made := Resourced(), BondsMade(plan.bonds, CpuNodes(), |tdg.nodes|, 0);
      && resourced && made && monitored == |tdg.edges| && |cpusPlace| == (if tdg.policy.Resume? then 0 else tdg.numCpus)
      && (if tdg.policy.Restart? then CoresMade(plan.kinds, tdg.numCpus) else NothingPreempts(plan))
      && if tdg.policy.Resume? then OneTaskPerCore() else parallelism == map[]
    }

    /** The net is the one the task graph determines. */
    ghost predicate AsDrawn()
      requires Lowered()
      reads this, net
    {
      && Drawn(tdg) == Some(Sketched()) && ResourcesLast()
      && var d := NodeDrafts(tdg, |tdg.nodes|); d.Some? && d.value.chains == chains && d.value.ends == ends
    }

    /** The whole lowering; false stands for one of its errors. */
    method Transform() returns (ok: bool)
      requires Valid() && Unlinked() && ends == [] && chains == [] && net.Contents() == Incidence([], [], [], [], [])
      requires parallelism == map[]
      modifies this, net
      ensures ok <==> Drawn(tdg).Some?
      ensures ok ==> Lowered() && AsDrawn()
    {
      hide Wired, NodesOk, StartsFilled, AllReleased, AllConsumed, AllPreempted, WithResources, NodeDrafts, EdgesDrawn;
      ok := TransformVertices();
      if !ok {
        return;
      }
      ok := TransformEdges();
      if !ok {
        return;
      }
      AddStartBindings();
      AddPeriodicReleaseBindings();
      AddEndConsumers();
      if tdg.policy.Restart? {
        FixedPriorWithRestart();
      }
      ok := AddResourcesAndBindings();
    }
  }

  ghost predicate CountFrom(places: seq<nat>, first: nat) {
    forall i: nat :: i < |places| ==> places[i] == first + i
  }

  ghost predicate NothingPreempts(plan: Plan) {
    forall t: nat :: t < |plan.kinds| ==> !plan.kinds[t].Preempting?
  }

  /** places are different resources of so many tokens. */
  ghost predicate AreResources(owners: seq<Owner>, places: seq<nat>, tokens: int) {
    && (forall i :: 0 <= i < |places| ==> places[i] < |owners| && owners[places[i]] == Resource(tokens))
    && (forall i, j :: 0 <= i < j < |places| ==> places[i] < places[j])
  }

  lemma SpinFreeStep(locks: seq<Lock>, i: nat)
    requires i <= SpinFree(locks) && i < |locks|
    ensures locks[i].spin ==> i == SpinFree(locks)
    ensures !locks[i].spin ==> i < SpinFree(locks)
  {
  }
}
