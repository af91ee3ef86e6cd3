/** The metrics analyser: what its verdicts say about all concrete runs. */
module Metrics {
  import opened Adjacency
  import opened Bounds
  import opened PetriNet
  import opened Scheduling
  import opened StateClasses
  import opened Semantics
  import opened Graph
  import opened Coverage
  import opened PathDp
  import opened ResponseTime
  import opened Shortest
  import SteadyRegion
  import Tarjan
  import Walks
  import Witness

  // ----------------------------------------------------------------- good markings

  predicate TimedOut(task: TaskTopology, m: Marking) {
    task.hasTimeout && HasTokens(m, task.timeoutPlace)
  }

  predicate Missed(tasks: seq<TaskTopology>, m: Marking) {
    exists i :: 0 <= i < |tasks| && TimedOut(tasks[i], m)
  }

  predicate WorkRemains(tasks: seq<TaskTopology>, m: Marking) {
    exists i :: 0 <= i < |tasks| && (InFlight(tasks[i], m) || TimedOut(tasks[i], m))
  }

  ghost predicate Dead(net: Net, m: Marking) {
    forall t: nat :: !Enabled(net, m, t)
  }

  /** No deadline has been missed, and the net is not stuck with work to do. */
  ghost predicate GoodMarking(net: Net, tasks: seq<TaskTopology>, m: Marking) {
    !Missed(tasks, m) && !(Dead(net, m) && WorkRemains(tasks, m))
  }

  // ---------------------------------------------------------------- task quantities

  /** An activation of the task in some run, and what it adds up to. */
  ghost predicate TakesIn(net: Net, isExec: seq<bool>, task: TaskTopology, measure: Measure, total: int,
                          configs: seq<Config>, steps: seq<Step>, a: nat, b: nat)
    requires ValidNet(net)
  {
    && IsInitialRun(net, configs, steps) && ReleasedAt(task, configs, a) && IsActivation(task, configs, a, b)
    && total == TotalCost(net, isExec, task, measure, configs, steps, a, b)
  }

  /** What the activations of all runs add up to. */
  ghost function Totals(net: Net, isExec: seq<bool>, task: TaskTopology, measure: Measure): iset<int>
    requires ValidNet(net)
  {
    iset total: int | Takes(net, isExec, task, measure, total)
  }

  ghost predicate Takes(net: Net, isExec: seq<bool>, task: TaskTopology, measure: Measure, total: int)
    requires ValidNet(net)
  {
    exists configs, steps, a, b :: TakesIn(net, isExec, task, measure, total, configs, steps, a, b)
  }

  ghost predicate NeverAbove(totals: iset<int>, bound: Bound) {
    forall x: int :: x in totals ==> Within(x, bound)
  }

  ghost predicate NeverBelow(totals: iset<int>, bound: Bound) {
    forall x: int :: x in totals ==> Le(bound, Fin(x))
  }

  /** No two of them differ by more than d. */
  ghost predicate NeverApart(totals: iset<int>, d: int) {
    forall x: int, y: int :: x in totals && y in totals ==> x - y <= d
  }

  /** What the timing metrics of a task say about the totals of all activations.
      bcet is taken as given, so the lifted best case is as good as it is; shortest
      says that the search for it returns the minimum. */
  ghost predicate TimingSound(response: iset<int>, interference: iset<int>, blocking: iset<int>,
                              preemptions: iset<int>, tm: TaskMetrics, deadline: int, bcet: int, shortest: bool) {
    && NeverAbove(response, tm.wcrt)
    && NeverAbove(interference, tm.worstInterference)
    && NeverAbove(blocking, tm.worstBlocking)
    && (tm.maxPreemptions >= 0 ==> NeverAbove(preemptions, Fin(tm.maxPreemptions)))
    && ((tm.wcrt.Fin? || shortest) && NeverBelow(response, Fin(bcet)) ==> NeverBelow(response, tm.bcrt))
    && (deadline > 0 && tm.slack.Fin? && tm.slack.v >= 0 ==> NeverAbove(response, Fin(deadline)))
    && (tm.jitter.Fin? && NeverBelow(response, Fin(bcet)) ==> NeverApart(response, tm.jitter.v))
  }

  /** path leads from release v to a completion of the task. */
  ghost predicate FromRelease(p: Problem, releases: iset<nat>, v: nat, path: Path) {
    v in releases && IsCompleting(p, v, path)
  }

  /** b is the worst case on the graph: infinite if a release is unbounded, and else
      the length of a longest path from a release to a completion, 0 without one. */
  ghost predicate IsWorst(p: Problem, releases: iset<nat>, b: Bound) {
    && (b.Inf? <==> exists v: nat :: v in releases && Unbounded(p, v))
    && (b.Fin? ==>
          && (forall v: nat, path :: FromRelease(p, releases, v, path) ==> Le(Length(p, v, path), b))
          && if exists v: nat, path :: FromRelease(p, releases, v, path)
             then exists v: nat, path :: FromRelease(p, releases, v, path) && Length(p, v, path) == b
             else b == Fin(0))
  }

  /** b is what the shortest search finds from the releases: the length of a path
      from a release to a completion or 0, and of a shortest one if it skips no edge
      of a direct path. */
  ghost predicate IsFound(p: Problem, releases: iset<nat>, b: Bound) {
    && (b == Fin(0) || exists v: nat, path :: FromRelease(p, releases, v, path) && Length(p, v, path) == b)
    && exists starts :: Lists(releases, starts) && FoundFrom(p, releases, starts, b)
  }

  ghost predicate FoundFrom(p: Problem, releases: iset<nat>, starts: seq<nat>, b: Bound) {
    && ValidStarts(p, starts) && b == ToLength(SearchAll(p, false, starts).0)
    && (Avoids(p, starts) ==> forall v: nat, path :: FromRelease(p, releases, v, path) ==> Le(b, Length(p, v, path)))
  }

  /** starts lists the releases in order. */
  ghost predicate Lists(releases: iset<nat>, starts: seq<nat>) {
    Increasing(starts) && forall v: nat :: v in starts <==> v in releases
  }

  lemma WorstOver(p: Problem, releases: iset<nat>, starts: seq<nat>, r: DPResult)
    requires Lists(releases, starts) && IsLongestOver(p, starts, r) && Plain(r)
    ensures IsWorst(p, releases, ToLength(r))
  {
    forall v: nat | v in releases
      ensures exists i: nat :: i < |starts| && starts[i] == v
    {
      assert v in starts;
    }
    forall i: nat | i < |starts|
      ensures starts[i] in releases
    {
      assert starts[i] in starts;
    }
    if !r.infinite {
      forall v: nat, path | FromRelease(p, releases, v, path)
        ensures r.reachable && Le(Length(p, v, path), Fin(r.value))
      {
        var i: nat :| i < |starts| && starts[i] == v;
        assert BoundedFrom(p, starts[i], r);
      }
      if r.reachable {
        var i: nat :| i < |starts| && HasPath(p, starts[i], Fin(r.value));
        var path :| IsCompleting(p, starts[i], path) && Length(p, starts[i], path) == Fin(r.value);
        assert FromRelease(p, releases, starts[i], path);
      }
    }
  }

  lemma FoundOver(p: Problem, releases: iset<nat>, starts: seq<nat>, r: DPResult)
    requires Lists(releases, starts) && ValidStarts(p, starts) && r == SearchAll(p, false, starts).0
    requires IsShortestOver(p, starts, r) && Plain(r) && NonNegative(p)
    ensures IsFound(p, releases, ToLength(r))
  {
    hide SearchAll, Avoids, IsCompleting;
    if r.reachable {
      var i: nat :| i < |starts| && HasPath(p, starts[i], ToLength(r));
      assert starts[i] in starts;
      var path :| IsCompleting(p, starts[i], path) && Length(p, starts[i], path) == ToLength(r);
      assert FromRelease(p, releases, starts[i], path);
    }
    if Avoids(p, starts) {
      AvoidsMinimum(p, starts);
      forall v: nat, path | FromRelease(p, releases, v, path)
        ensures Le(ToLength(r), Length(p, v, path))
      {
        assert v in starts;
        BelowStart(p, starts, v, r);
      }
    }
    assert FoundFrom(p, releases, starts, ToLength(r));
  }

  /** What the graph says about a task, metric by metric.  The best case is what the
      shortest search finds, lifted to bcet. */
  ghost predicate TimingExact(about: Measure -> Problem, releases: iset<nat>, tm: TaskMetrics, deadline: int,
                              bcet: int) {
    && IsWorst(about(Response), releases, tm.wcrt)
    && IsWorst(about(Interference), releases, tm.worstInterference)
    && IsWorst(about(Blocking), releases, tm.worstBlocking)
    && tm.maxPreemptions >= -1
    && IsWorst(about(Preemptions), releases, if tm.maxPreemptions < 0 then Inf else Fin(tm.maxPreemptions))
    && (tm.observed <==> exists v: nat :: v in releases)
    && (if tm.observed then exists b: Bound :: IsFound(about(BestResponse), releases, b) && tm.bcrt == Larger(b, bcet)
        else tm.bcrt == Fin(0))
    && (tm.wcrt.Inf? ==> tm.jitter.Inf?)
    && (tm.wcrt.Fin? && tm.bcrt.Fin? ==> tm.jitter == Fin(Max(0, tm.wcrt.v - tm.bcrt.v)))
    && (tm.wcrt.Fin? && tm.bcrt.Inf? ==> tm.jitter == Fin(0))
    && (tm.observed && deadline > 0 && tm.wcrt.Inf? ==> tm.slack.Inf?)
    && (tm.observed && deadline > 0 && tm.wcrt.Fin? ==> tm.slack == Fin(deadline - tm.wcrt.v))
    && (!tm.observed || deadline <= 0 ==> tm.slack == Fin(0))
  }

  /** The larger of a length and a number. */
  function Larger(a: Bound, x: int): Bound {
    if a.Inf? then Inf else Fin(Max(a.v, x))
  }

  /** A path is preempted a number of times. */
  lemma {:induction false} PreemptionsCount(p: Problem, v: nat, path: Path)
    requires forall u: nat, e: Edge :: p.weight(u, e) == Fin(0) || p.weight(u, e) == Fin(1)
    ensures Length(p, v, path).Fin? && Length(p, v, path).v >= 0
    decreases path
  {
    if path.Then? {
      PreemptionsCount(p, path.edge.target, path.rest);
    }
  }

  /** The metrics derived from the results of the five searches. */
  function TimingOf(worst: DPResult, best: DPResult, interference: DPResult, blocking: DPResult,
                    preemptions: DPResult, deadline: int, bcet: int): TaskMetrics {
    var wcrt, bcrt := ToLength(worst), Raise(ToLength(best), bcet);
    var jitter := if wcrt.Inf? then Inf else if bcrt.Fin? then Fin(Max(0, wcrt.v - bcrt.v)) else Fin(0);
    var slack := if deadline <= 0 then Fin(0) else if wcrt.Inf? then Inf else Fin(deadline - wcrt.v);
    TaskMetrics(true, wcrt, bcrt, jitter, ToLength(interference), ToLength(blocking),
                if preemptions.infinite then -1 else preemptions.value, slack)
  }

  lemma TimingOfSound(response: iset<int>, other: iset<int>, interference: iset<int>, blocking: iset<int>,
                      preemptions: iset<int>, rw: DPResult, rb: DPResult, ri: DPResult, rk: DPResult, rp: DPResult,
                      deadline: int, bcet: int, shortest: bool)
    requires NeverAbove(response, ToLength(rw)) && response == other
    requires !rw.infinite || shortest ==> NeverBelow(other, ToLength(rb))
    requires NeverAbove(interference, ToLength(ri)) && NeverAbove(blocking, ToLength(rk))
    requires NeverAbove(preemptions, ToLength(rp))
    ensures TimingSound(response, interference, blocking, preemptions,
                        TimingOf(rw, rb, ri, rk, rp, deadline, bcet), deadline, bcet, shortest)
  {
    var low := Raise(ToLength(rb), bcet);
    if (!rw.infinite || shortest) && NeverBelow(response, Fin(bcet)) {
      assert NeverBelow(response, low);
      if !rw.infinite {
        BoundsApart(response, low, rw.value);
      }
    }
  }

  lemma TimingOfExact(about: Measure -> Problem, releases: iset<nat>, rw: DPResult, rb: DPResult, ri: DPResult,
                      rk: DPResult, rp: DPResult, deadline: int, bcet: int)
    requires IsWorst(about(Response), releases, ToLength(rw)) && IsFound(about(BestResponse), releases, ToLength(rb))
    requires IsWorst(about(Interference), releases, ToLength(ri)) && IsWorst(about(Blocking), releases, ToLength(rk))
    requires IsWorst(about(Preemptions), releases, ToLength(rp)) && (!rp.infinite ==> rp.value >= 0)
    requires exists v: nat :: v in releases
    ensures TimingExact(about, releases, TimingOf(rw, rb, ri, rk, rp, deadline, bcet), deadline, bcet)
  {
    hide IsWorst, IsFound;
  }

  /** Without a release all is zero. */
  lemma NothingExact(about: Measure -> Problem, releases: iset<nat>, deadline: int, bcet: int)
    requires forall v: nat :: v !in releases
    ensures TimingExact(about, releases, Unobserved(), deadline, bcet)
  {
  }

  function Unobserved(): TaskMetrics {
    TaskMetrics(false, Fin(0), Fin(0), Fin(0), Fin(0), Fin(0), 0, Fin(0))
  }

  lemma BoundsApart(totals: iset<int>, low: Bound, high: int)
    requires NeverBelow(totals, low) && NeverAbove(totals, Fin(high))
    ensures NeverApart(totals, if low.Fin? then Max(0, high - low.v) else 0)
  {
    assert forall x: int :: x in totals ==> Le(low, Fin(x)) && x <= high;
  }

  /** Activations cost the same under the two response measures. */
  lemma ResponseIsResponse(net: Net, isExec: seq<bool>, task: TaskTopology)
    requires ValidNet(net)
    ensures Totals(net, isExec, task, Response) == Totals(net, isExec, task, BestResponse)
  {
    var one, other := Totals(net, isExec, task, Response), Totals(net, isExec, task, BestResponse);
    forall total: int, configs: seq<Config>, steps: seq<Step>, a: nat, b: nat
      ensures TakesIn(net, isExec, task, Response, total, configs, steps, a, b)
         <==> TakesIn(net, isExec, task, BestResponse, total, configs, steps, a, b)
    {
      if a <= b <= |steps| && |configs| == |steps| + 1 {
        SameTotal(net, isExec, task, configs, steps, a, b);
      }
    }
  }

  lemma {:induction false} SameTotal(net: Net, isExec: seq<bool>, task: TaskTopology, configs: seq<Config>,
                                     steps: seq<Step>, a: nat, b: nat)
    requires a <= b <= |steps| && |configs| == |steps| + 1
    ensures TotalCost(net, isExec, task, Response, configs, steps, a, b)
         == TotalCost(net, isExec, task, BestResponse, configs, steps, a, b)
    decreases b - a
  {
    if a < b {
      SameTotal(net, isExec, task, configs, steps, a + 1, b);
    }
  }

  datatype TaskMetrics = TaskMetrics(
    observed: bool,
    wcrt: Bound,
    bcrt: Bound,
    jitter: Bound,
    worstInterference: Bound,
    worstBlocking: Bound,
    maxPreemptions: int,
    slack: Bound)

  /** Lifts a finite bound to a floor. */
  function Raise(a: Bound, floor: int): Bound {
    if a.Fin? && a.v < floor then Fin(floor) else a
  }

  /** Cycles depend on the edges and the in-flight states, not on the weights. */
  lemma {:induction false} SameWalk(p: Problem, q: Problem, v: nat, walk: seq<Edge>, u: nat)
    requires SameShape(p, q) && IsWalk(p, v, walk, u)
    ensures IsWalk(q, v, walk, u)
    decreases |walk|
  {
    if walk != [] {
      SameWalk(p, q, walk[0].target, walk[1..], u);
    }
  }

  ghost predicate SameShape(p: Problem, q: Problem) {
    && p.out == q.out
    && (forall v: nat, e: Edge :: p.completes(v, e) == q.completes(v, e))
    && (forall v: nat :: p.inFlight(v) == q.inFlight(v))
  }

  lemma SameCycles(p: Problem, q: Problem, v: nat)
    requires SameShape(p, q) && CycleAhead(p, v)
    ensures CycleAhead(q, v)
  {
    var u: nat :| Leads(p, v, u) && OnCycle(p, u);
    var walk :| IsWalk(p, v, walk, u);
    SameWalk(p, q, v, walk, u);
    var e :| Continuing(p, u, e) && Leads(p, e.target, u);
    var back :| IsWalk(p, e.target, back, u);
    SameWalk(p, q, e.target, back, u);
    assert Continuing(q, u, e) && Leads(q, e.target, u) && Leads(q, v, u);
    assert OnCycle(q, u);
  }

  // ------------------------------------------------------------------- the analyser

  class MetricsAnalyzer {
    ghost const g: Setting
    ghost const edges: seq<GraphEdge>
    ghost const birth: seq<nat>
    const net: Net
    const vertices: seq<StateClass>
    const tasks: seq<TaskTopology>
    const out: seq<seq<Edge>>
    const isExec: seq<bool>

    /** The graph is a finished exploration of the net. */
    ghost predicate Valid() {
      && Complete(g, vertices, edges, birth) && net == g.net
      && IsFlat(|vertices|, edges, out) && ValidOut(out)
      && (forall i :: 0 <= i < |tasks| ==> ValidTask(net, tasks[i]))
    }

    constructor (net: Net, vertices: seq<StateClass>, graphEdges: seq<GraphEdge>, tasks: seq<TaskTopology>,
                 ghost g: Setting, ghost birth: seq<nat>)
      requires Complete(g, vertices, graphEdges, birth) && net == g.net
      requires forall i :: 0 <= i < |tasks| ==> ValidTask(net, tasks[i])
      ensures Valid() && this.g == g && this.edges == graphEdges && this.birth == birth
      ensures this.vertices == vertices && this.tasks == tasks
    {
      forall k | 0 <= k < |graphEdges|
        ensures graphEdges[k].source < |vertices|
      {
        assert EdgeAt(g, vertices, graphEdges, k);
      }
      var flat := FlattenGraph(|vertices|, graphEdges);
      FlatValid(g, vertices, graphEdges, birth, flat);
      this.g, this.edges, this.birth := g, graphEdges, birth;
      this.net, this.vertices, this.tasks, this.out := net, vertices, tasks, flat;
      isExec := seq(|net.transitions|, t => exists i :: 0 <= i < |tasks| && t in tasks[i].execTransitions);
    }

    // ----------------------------------------------------------- structure, verdict

    /** Vertex v is a sink with work to do. */
    ghost predicate IsStuck(v: nat) {
      v < |vertices| && v < |out| && out[v] == [] && WorkRemains(tasks, vertices[v].marking)
    }

    method ComputeStructural() returns (deadlocks: seq<nat>)
      requires Valid()
      ensures forall v: nat :: v in deadlocks <==> IsStuck(v)
    {
      deadlocks := [];
      for v := 0 to |vertices|
        invariant forall u: nat :: u in deadlocks <==> u < v && IsStuck(u)
      {
        if out[v] == [] && WorkRemains(tasks, vertices[v].marking) {
          deadlocks := deadlocks + [v];
        }
      }
    }

    /** A vertex has no edges exactly when its marking enables nothing. */
    lemma SinkIff(v: nat)
      requires Valid() && v < |vertices|
      ensures out[v] == [] <==> Dead(net, vertices[v].marking)
    {
      SinksAreDead(g, vertices, edges, birth, v);
      assert FlatAt(edges, out, v);
      if out[v] != [] {
        OutOfMember(edges, v, out[v][0]);
      }
      if k :| 0 <= k < |edges| && edges[k].source == v {
        OutOfMember(edges, v, Flat(edges[k]));
      }
    }

    lemma {:induction false} PathIsRoute(path: seq<GraphEdge>, v: nat)
      requires Valid() && IsPath(edges, 0, path, v) && v < |vertices|
      ensures Reaches(out, 0, v)
      decreases |path|
    {
      assert VertexAt(g, vertices, v);
      if path == [] {
        ReachesSelf(out, 0);
      } else {
        var e := path[|path| - 1];
        var k: nat :| k < |edges| && edges[k] == e;
        assert EdgeAt(g, vertices, edges, k) && FlatAt(edges, out, e.source);
        PathIsRoute(path[..|path| - 1], e.source);
        OutOfMember(edges, e.source, Flat(e));
        ReachesNext(out, e.source, v);
        ReachesOn(out, 0, e.source, v);
      }
    }

    /** Every vertex is reached from the initial one. */
    lemma VertexRoute(v: nat) returns (route: seq<nat>)
      requires Valid() && v < |vertices|
      ensures IsRoute(out, route, 0, v)
    {
      var path := VertexReachable(g, vertices, edges, birth, v);
      PathIsRoute(path, v);
      route :| IsRoute(out, route, 0, v);
    }

    ghost predicate AllGood() {
      forall v: nat :: v < |vertices| ==> GoodMarking(net, tasks, vertices[v].marking)
    }

    /** Every reachable marking is good. */
    ghost predicate Schedulable()
      requires Valid()
    {
      forall m: Marking :: Reachable(net, m) ==> GoodMarking(net, tasks, m)
    }

    lemma GoodVerticesGoodRuns()
      requires Valid()
      ensures AllGood() ==> Schedulable()
      ensures NeverFrozen(g, vertices) ==> (AllGood() <==> Schedulable())
    {
      forall m: Marking
        ensures AllGood() && Reachable(net, m) ==> GoodMarking(net, tasks, m)
      {
        MarkingsOfGraph(g, vertices, edges, birth, m);
      }
      if NeverFrozen(g, vertices) {
        forall v: nat | v < |vertices|
          ensures Schedulable() ==> GoodMarking(net, tasks, vertices[v].marking)
        {
          MarkingsOfGraph(g, vertices, edges, birth, vertices[v].marking);
        }
      }
    }

    /** The verdict is right about all runs when positive, and exact for an exact
        graph; the witness is a shortest path to a deadline miss. */
    method ComputeSchedulability(deadlocks: seq<nat>) returns (schedulable: bool, missPath: seq<nat>)
      requires Valid() && forall v: nat :: v in deadlocks <==> IsStuck(v)
      ensures schedulable <==> AllGood()
      ensures schedulable ==> Schedulable()
      ensures NeverFrozen(g, vertices) ==> (schedulable <==> Schedulable())
      ensures missPath == [] <==> forall v: nat :: v < |vertices| ==> !Missed(tasks, vertices[v].marking)
      ensures missPath != [] ==> IsMissPath(missPath)
      ensures forall route :: missPath != [] && IsMissPath(route) ==> |missPath| <= |route|
    {
      var miss := seq(|vertices|, v requires 0 <= v < |vertices| => Missed(tasks, vertices[v].marking));
      var found, path := Witness.FindWitness(out, miss, 0);
      schedulable, missPath := !found && deadlocks == [], path;
      forall route
        ensures Witness.IsMissRoute(out, miss, 0, route) <==> IsMissPath(route)
      {
      }
      forall v: nat | v < |vertices|
        ensures Missed(tasks, vertices[v].marking) ==> found
        ensures IsStuck(v) <==> Dead(net, vertices[v].marking) && WorkRemains(tasks, vertices[v].marking)
      {
        var route := VertexRoute(v);
        assert Missed(tasks, vertices[v].marking) ==> Witness.IsMissRoute(out, miss, 0, route);
        SinkIff(v);
      }
      if deadlocks != [] {
        assert deadlocks[0] in deadlocks;
      }
      GoodVerticesGoodRuns();
    }

    ghost predicate IsMissPath(route: seq<nat>) {
      && |route| > 0 && IsRoute(out, route, 0, route[|route| - 1])
      && route[|route| - 1] < |vertices| && Missed(tasks, vertices[route[|route| - 1]].marking)
    }

    // ------------------------------------------------------------------ task timing

    /** The result of one run of the path search over the release states. */
    method RunMeasure(task: TaskTopology, measure: Measure, starts: seq<nat>) returns (r: DPResult)
      requires Valid() && ValidTask(net, task) && AreReleases(vertices, edges, task, starts)
      ensures
        var p := ProblemOf(net, isExec, vertices, out, task, measure);
        ValidStarts(p, starts) && r == SearchAll(p, !measure.BestResponse?, starts).0
      ensures !measure.BestResponse? ==> IsWorst(About(task)(measure), ReleaseSet(task), ToLength(r))
      ensures measure.BestResponse? ==> IsFound(About(task)(measure), ReleaseSet(task), ToLength(r))
      ensures measure.Preemptions? && !r.infinite ==> r.value >= 0
      ensures !measure.BestResponse? ==> NeverAbove(Totals(net, isExec, task, measure), ToLength(r))
      ensures measure.BestResponse? && FindsShortest(task, starts) ==>
        NeverBelow(Totals(net, isExec, task, BestResponse), ToLength(r))
      ensures measure.Response? && !r.infinite ==> IsAcyclic(task, starts) && FindsShortest(task, starts)
    {
      var p := ProblemOf(net, isExec, vertices, out, task, measure);
      ReleasesInRange(task, starts);
      r := RunDp(p, !measure.BestResponse?, starts);
      if measure.BestResponse? && FindsShortest(task, starts) {
        DwellsNonNegative(g, vertices, edges, birth, out, isExec, task);
        AvoidsMinimum(p, starts);
      }
      RunMeansBound(task, measure, starts, p, r);
      RunMeansExact(task, measure, starts, p, r);
    }

    lemma RunMeansExact(task: TaskTopology, measure: Measure, starts: seq<nat>, p: Problem, r: DPResult)
      requires Valid() && AreReleases(vertices, edges, task, starts) && ValidStarts(p, starts)
      requires p == ProblemOf(net, isExec, vertices, out, task, measure) && Plain(r)
      requires r == SearchAll(p, !measure.BestResponse?, starts).0
      requires if measure.BestResponse? then IsShortestOver(p, starts, r) else IsLongestOver(p, starts, r)
      ensures !measure.BestResponse? ==> IsWorst(p, ReleaseSet(task), ToLength(r))
      ensures measure.BestResponse? ==> IsFound(p, ReleaseSet(task), ToLength(r))
      ensures measure.Preemptions? && !r.infinite ==> r.value >= 0
    {
      hide SearchAll;
      assert Lists(ReleaseSet(task), starts);
      if measure.BestResponse? {
        DwellsNonNegative(g, vertices, edges, birth, out, isExec, task);
        FoundOver(p, ReleaseSet(task), starts, r);
      } else {
        WorstOver(p, ReleaseSet(task), starts, r);
        if measure.Preemptions? && r.reachable && !r.infinite {
          var i: nat :| i < |starts| && HasPath(p, starts[i], Fin(r.value));
          var path :| IsCompleting(p, starts[i], path) && Length(p, starts[i], path) == Fin(r.value);
          PreemptionsCount(p, starts[i], path);
        }
      }
    }

    lemma SomeRelease(task: TaskTopology, starts: seq<nat>)
      requires AreReleases(vertices, edges, task, starts) && starts != []
      ensures exists v: nat :: v in ReleaseSet(task)
    {
      var v := starts[0];
      assert v in starts && v in ReleaseSet(task);
    }

    /** No cycle of in-flight states lies ahead of a release. */
    ghost predicate IsAcyclic(task: TaskTopology, starts: seq<nat>) {
      forall v: nat :: v in starts ==> NoCycle(task, v)
    }

    /** The search for the shortest response skips no edge of a direct path. */
    ghost predicate FindsShortest(task: TaskTopology, starts: seq<nat>) {
      var p := ProblemOf(net, isExec, vertices, out, task, BestResponse);
      ValidStarts(p, starts) && Avoids(p, starts)
    }

    /** That holds from the release states of the task. */
    ghost predicate ShortestFound(task: TaskTopology) {
      forall starts :: AreReleases(vertices, edges, task, starts) ==> FindsShortest(task, starts)
    }

    /** It does if every cycle of in-flight states can be entered at one state only. */
    lemma SingleEntryFinds(task: TaskTopology)
      requires Valid()
      requires forall starts :: AreReleases(vertices, edges, task, starts) ==>
        SingleEntry(ProblemOf(net, isExec, vertices, out, task, BestResponse), starts)
      ensures ShortestFound(task)
    {
      forall starts | AreReleases(vertices, edges, task, starts)
        ensures FindsShortest(task, starts)
      {
        ReleasesInRange(task, starts);
        SingleEntryAvoids(ProblemOf(net, isExec, vertices, out, task, BestResponse), starts);
      }
    }

    ghost predicate NoCycle(task: TaskTopology, v: nat) {
      !CycleAhead(ProblemOf(net, isExec, vertices, out, task, BestResponse), v)
    }

    lemma ReleasesInRange(task: TaskTopology, starts: seq<nat>)
      requires Valid() && AreReleases(vertices, edges, task, starts)
      ensures forall i :: 0 <= i < |starts| ==> starts[i] < |vertices|
    {
      forall i | 0 <= i < |starts|
        ensures starts[i] < |vertices|
      {
        assert starts[i] in starts;
        if !(starts[i] == 0) {
          var k: nat :| k < |edges| && edges[k].target == starts[i] && Releases(vertices, edges[k], task);
        }
      }
    }

    lemma RunMeansBound(task: TaskTopology, measure: Measure, starts: seq<nat>, p: Problem, r: DPResult)
      requires Valid() && ValidTask(net, task) && AreReleases(vertices, edges, task, starts)
      requires p == ProblemOf(net, isExec, vertices, out, task, measure)
      requires measure.BestResponse? && FindsShortest(task, starts) ==> IsMinimum(p, starts, r)
      requires !measure.BestResponse? ==> IsLongestOver(p, starts, r)
      ensures !measure.BestResponse? ==> NeverAbove(Totals(net, isExec, task, measure), ToLength(r))
      ensures measure.BestResponse? && FindsShortest(task, starts) ==>
        NeverBelow(Totals(net, isExec, task, BestResponse), ToLength(r))
      ensures measure.Response? && !r.infinite ==> IsAcyclic(task, starts) && FindsShortest(task, starts)
    {
      var q := ProblemOf(net, isExec, vertices, out, task, BestResponse);
      forall v: nat | v in starts && measure.Response? && !r.infinite
        ensures NoCycle(task, v)
      {
        var i: nat :| i < |starts| && starts[i] == v;
        assert !Unbounded(p, starts[i]);
        if CycleAhead(q, v) {
          SameCycles(q, p, v);
        }
      }
      if measure.Response? && !r.infinite {
        ReleasesInRange(task, starts);
        assert forall v: nat :: v in starts ==> NoCycle(task, v);
        AcyclicAvoids(q, starts);
      }
      forall total: int | total in Totals(net, isExec, task, measure)
        ensures !measure.BestResponse? ==> Within(total, ToLength(r))
        ensures measure.BestResponse? && FindsShortest(task, starts) ==> Le(ToLength(r), Fin(total))
      {
        var configs, steps, a, b :| TakesIn(net, isExec, task, measure, total, configs, steps, a, b);
        if !measure.BestResponse? || FindsShortest(task, starts) {
          MeasureSound(g, vertices, edges, birth, p, isExec, task, measure, starts, r, configs, steps, a, b);
        }
      }
    }

    /** Without a release there is no activation. */
    lemma NoActivations(task: TaskTopology, measure: Measure)
      requires Valid() && forall v: nat :: !IsRelease(vertices, edges, task, v)
      ensures Totals(net, isExec, task, measure) == iset{}
    {
      forall total: int
        ensures !Takes(net, isExec, task, measure, total)
      {
        if Takes(net, isExec, task, measure, total) {
          var configs, steps, a, b :| TakesIn(net, isExec, task, measure, total, configs, steps, a, b);
          var cover, last := RunCovered(g, vertices, edges, birth, configs, steps);
          ReleaseCovered(g, vertices, edges, task, configs, steps, cover, a);
        }
      }
    }

    ghost predicate TaskSound(task: TaskTopology, tm: TaskMetrics, deadline: int, bcet: int)
      requires Valid()
    {
      TimingSound(Totals(net, isExec, task, Response), Totals(net, isExec, task, Interference),
                  Totals(net, isExec, task, Blocking), Totals(net, isExec, task, Preemptions), tm, deadline, bcet,
                  ShortestFound(task))
    }

    /** The path problems of the task, and where its paths start. */
    ghost function About(task: TaskTopology): Measure -> Problem {
      (measure: Measure) => ProblemOf(net, isExec, vertices, out, task, measure)
    }

    ghost function ReleaseSet(task: TaskTopology): iset<nat> {
      iset v: nat | IsRelease(vertices, edges, task, v)
    }

    /** The timing metrics of a task are those of the graph, metric by metric, and
        bound every activation in every run. */
    method ComputeTaskTiming(task: TaskTopology, deadline: int, bcet: int) returns (tm: TaskMetrics)
      requires Valid() && ValidTask(net, task)
      ensures TaskSound(task, tm, deadline, bcet)
      ensures TimingExact(About(task), ReleaseSet(task), tm, deadline, bcet)
      ensures tm.observed <==> exists v: nat :: IsRelease(vertices, edges, task, v)
    {
      forall k | 0 <= k < |edges|
        ensures edges[k].target < |vertices|
      {
        assert EdgeAt(g, vertices, edges, k);
      }
      assert VertexAt(g, vertices, 0);
      var starts := ReleaseStates(vertices, edges, out, task);
      if starts == [] {
        tm := Unobserved();
        forall v: nat
          ensures !IsRelease(vertices, edges, task, v)
        {
          assert v !in starts;
        }
        NoActivations(task, Response);
        NoActivations(task, Interference);
        NoActivations(task, Blocking);
        NoActivations(task, Preemptions);
        NothingExact(About(task), ReleaseSet(task), deadline, bcet);
      } else {
        assert starts[0] in starts;
        tm := TimingFrom(task, starts, deadline, bcet);
      }
    }

    method TimingFrom(task: TaskTopology, starts: seq<nat>, deadline: int, bcet: int) returns (tm: TaskMetrics)
      requires Valid() && ValidTask(net, task) && AreReleases(vertices, edges, task, starts)
      requires starts != []
      ensures TaskSound(task, tm, deadline, bcet) && tm.observed
      ensures TimingExact(About(task), ReleaseSet(task), tm, deadline, bcet)
    {
      hide IsWorst, IsFound, TimingExact, AreReleases, SearchAll, FindsShortest, IsAcyclic, NeverAbove, NeverBelow;
      SomeRelease(task, starts);
      var worst := RunMeasure(task, Response, starts);
      var best := RunMeasure(task, BestResponse, starts);
      var interference := RunMeasure(task, Interference, starts);
      var blocking := RunMeasure(task, Blocking, starts);
      var preemptions := RunMeasure(task, Preemptions, starts);
      ResponseIsResponse(net, isExec, task);
      TimingOfSound(Totals(net, isExec, task, Response), Totals(net, isExec, task, BestResponse),
                    Totals(net, isExec, task, Interference), Totals(net, isExec, task, Blocking),
                    Totals(net, isExec, task, Preemptions), worst, best, interference, blocking, preemptions,
                    deadline, bcet, ShortestFound(task));
      TimingOfExact(About(task), ReleaseSet(task), worst, best, interference, blocking, preemptions, deadline, bcet);
      tm := TimingOf(worst, best, interference, blocking, preemptions, deadline, bcet);
    }

    // ------------------------------------------------------------------- steady region

    /** The size of the largest recurrent component.  Without one, every run of the
        net ends after fewer steps than there are states. */
    method ComputeUtilisation() returns (hasCycle: bool, size: nat)
      requires Valid()
      ensures hasCycle <==> exists v: nat :: SteadyRegion.OnCycle(out, v)
      ensures hasCycle ==> exists v: nat :: SteadyRegion.OnCycle(out, v) && |SteadyRegion.Component(out, v)| == size
      ensures forall v: nat :: SteadyRegion.OnCycle(out, v) ==> |SteadyRegion.Component(out, v)| <= size
      ensures !hasCycle ==> size == 0
      ensures !hasCycle ==> forall configs, steps :: IsInitialRun(net, configs, steps) ==> |steps| < |vertices|
    {
      var scc, count := Tarjan.Recursive(out);
      hasCycle, size := SteadyRegion.LargestRecurrent(out, scc, count);
      if !hasCycle {
        forall configs, steps | IsInitialRun(net, configs, steps)
          ensures |steps| < |vertices|
        {
          LongRunsRepeat(configs, steps);
        }
      }
    }

    /** The vertices that the edges of a cover visit. */
    ghost function Visits(cover: seq<nat>): (r: seq<nat>)
      ensures |r| == |cover| + 1
      ensures forall i :: 0 <= i <= |cover| ==> r[i] == VertexBefore(edges, 0, cover, i)
    {
      seq(|cover| + 1, i requires 0 <= i <= |cover| => VertexBefore(edges, 0, cover, i))
    }

    lemma CoverStepAdjacent(configs: seq<Config>, steps: seq<Step>, cover: seq<nat>, i: nat)
      requires Valid() && Covers(g, vertices, edges, 0, configs, steps, cover) && i < |cover|
      ensures Adjacent(out, VertexBefore(edges, 0, cover, i), VertexBefore(edges, 0, cover, i + 1))
    {
      assert CoversAt(g, vertices, edges, 0, configs, steps, cover, i);
      var e := edges[cover[i]];
      assert FlatAt(edges, out, e.source);
      OutOfMember(edges, e.source, Flat(e));
    }

    lemma {:induction false} CoverReaches(configs: seq<Config>, steps: seq<Step>, cover: seq<nat>, i: nat, j: nat)
      requires Valid() && Covers(g, vertices, edges, 0, configs, steps, cover) && i < j <= |cover|
      ensures Reaches(out, VertexBefore(edges, 0, cover, i), VertexBefore(edges, 0, cover, j))
      decreases j - i
    {
      var u, w := VertexBefore(edges, 0, cover, i), VertexBefore(edges, 0, cover, i + 1);
      CoverStepAdjacent(configs, steps, cover, i);
      ReachesNext(out, u, w);
      if i + 1 < j {
        CoverReaches(configs, steps, cover, i + 1, j);
        ReachesOn(out, u, w, VertexBefore(edges, 0, cover, j));
      }
    }

    lemma CoverVertex(configs: seq<Config>, steps: seq<Step>, cover: seq<nat>, i: nat)
      requires Valid() && Covers(g, vertices, edges, 0, configs, steps, cover) && i <= |cover|
      ensures VertexBefore(edges, 0, cover, i) < |vertices|
    {
      if i > 0 {
        assert CoversAt(g, vertices, edges, 0, configs, steps, cover, i - 1);
      } else {
        assert VertexAt(g, vertices, 0);
      }
    }

    lemma LongRunsRepeat(configs: seq<Config>, steps: seq<Step>)
      requires Valid() && IsInitialRun(net, configs, steps)
      ensures |steps| < |vertices| || exists v: nat :: SteadyRegion.OnCycle(out, v)
    {
      hide EdgeCovers;
      var cover, last := RunCovered(g, vertices, edges, birth, configs, steps);
      var visits := Visits(cover);
      if i: nat, j: nat :| i < j < |visits| && visits[i] == visits[j] {
        var w := visits[i + 1];
        CoverStepAdjacent(configs, steps, cover, i);
        if i + 1 < j {
          CoverReaches(configs, steps, cover, i + 1, j);
        } else {
          ReachesSelf(out, w);
        }
        assert SteadyRegion.OnCycle(out, visits[i]);
      } else {
        forall i | 0 <= i < |visits|
          ensures visits[i] < |vertices|
        {
          CoverVertex(configs, steps, cover, i);
        }
        Walks.DistinctShort(visits, |vertices|);
      }
    }
  }
}
