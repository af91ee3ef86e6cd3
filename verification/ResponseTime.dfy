/** The timing metrics of one task, and what they say about concrete runs. */
module ResponseTime {
  import opened Adjacency
  import opened Bounds
  import opened PetriNet
  import opened Scheduling
  import opened StateClasses
  import opened Semantics
  import opened Graph
  import opened Coverage
  import opened PathDp
  import opened Shortest

  /** Where a task lives in the net. */
  datatype TaskTopology = TaskTopology(
    core: int,
    priority: int,
    chainPlaces: seq<nat>,
    chainTransitions: seq<nat>,
    execTransitions: seq<nat>,
    entryPlace: nat,
    endPlace: nat,
    hasTimeout: bool,
    timeoutPlace: nat)

  ghost predicate ValidTask(net: Net, task: TaskTopology) {
    && task.entryPlace < |net.places| && task.endPlace < |net.places|
    && (task.hasTimeout ==> task.timeoutPlace < |net.places|)
  }

  // ------------------------------------------------------- states seen by a task

  predicate HasTokens(m: Marking, p: nat) {
    p < |m| && m[p] > 0
  }

  predicate Increases(before: Marking, after: Marking, p: nat) {
    p < |before| && p < |after| && after[p] > before[p]
  }

  predicate InFlight(task: TaskTopology, m: Marking) {
    exists p :: p in task.chainPlaces && HasTokens(m, p)
  }

  predicate Meets(some: seq<nat>, others: seq<nat>) {
    exists t :: t in some && t in others
  }

  /** A strictly lower-priority task executes on the task's core while the task
      is in flight and not active. */
  predicate Blocked(net: Net, isExec: seq<bool>, task: TaskTopology, m: Marking, active: seq<nat>) {
    && task.core >= 0 && InFlight(task, m) && !Meets(task.chainTransitions, active)
    && exists t :: t in active && RunsBelow(net, isExec, task, t)
  }

  predicate RunsBelow(net: Net, isExec: seq<bool>, task: TaskTopology, t: nat) {
    && t < |isExec| && isExec[t] && t < |net.transitions|
    && net.transitions[t].core == task.core && net.transitions[t].priority < task.priority
  }

  // -------------------------------------------------------------------- measures

  /** What is accumulated along the in-flight states of one activation. */
  datatype Measure = Response | BestResponse | Interference | Blocking | Preemptions

  /** The markings and transition sets on both sides of a step. */
  datatype View = View(m: Marking, active: seq<nat>, suspended: seq<nat>, suspendedNext: seq<nat>)

  predicate Counts(net: Net, isExec: seq<bool>, task: TaskTopology, measure: Measure, x: View) {
    match measure
    case Response => true
    case BestResponse => true
    case Interference => Meets(task.execTransitions, x.suspended)
    case Blocking => Blocked(net, isExec, task, x.m, x.active)
    case Preemptions => Meets(task.chainTransitions, x.active) && Meets(task.execTransitions, x.suspendedNext)
  }

  function WeightOf(counts: bool, measure: Measure, dwellMin: int, dwellMax: Bound): Bound {
    if !counts then Fin(0)
    else match measure
      case Preemptions => Fin(1)
      case BestResponse => Fin(dwellMin)
      case _ => dwellMax
  }

  function ViewOf(s: StateClass, next: StateClass): View {
    View(s.marking, s.priorityEnabled, s.suspended, next.suspended)
  }

  /** The path problem of a task: weights, completion and in-flight states are
      read off the vertices. */
  function ProblemOf(net: Net, isExec: seq<bool>, vertices: seq<StateClass>, out: seq<seq<Edge>>,
                     task: TaskTopology, measure: Measure): (p: Problem)
    ensures p.out == out
  {
    Problem(out,
            (v: nat, e: Edge) => EdgeWeight(net, isExec, vertices, task, measure, v, e),
            (v: nat, e: Edge) => EdgeCompletes(vertices, task, v, e),
            (v: nat) => v < |vertices| && InFlight(task, vertices[v].marking))
  }

  function EdgeWeight(net: Net, isExec: seq<bool>, vertices: seq<StateClass>, task: TaskTopology, measure: Measure,
                      v: nat, e: Edge): Bound {
    if v < |vertices| && e.target < |vertices| then
      var counts := Counts(net, isExec, task, measure, ViewOf(vertices[v], vertices[e.target]));
      WeightOf(counts, measure, e.dwellMin, e.dwellMax)
    else Fin(0)
  }

  predicate EdgeCompletes(vertices: seq<StateClass>, task: TaskTopology, v: nat, e: Edge) {
    && v < |vertices| && e.target < |vertices|
    && Increases(vertices[v].marking, vertices[e.target].marking, task.endPlace)
  }

  /** Some transition of the list is enabled, filtered out and suspendable. */
  ghost predicate SomeSuspended(net: Net, ts: seq<nat>, m: Marking) {
    exists t :: t in ts && Enabled(net, m, t) && !Active(net, m, t) && net.transitions[t].suspendable
  }

  ghost predicate SomeActive(net: Net, ts: seq<nat>, m: Marking) {
    exists t :: t in ts && Active(net, m, t)
  }

  /** A lower task executes on the task's core. */
  ghost predicate LowerRuns(net: Net, isExec: seq<bool>, task: TaskTopology, m: Marking) {
    exists t: nat :: Active(net, m, t) && RunsBelow(net, isExec, task, t)
  }

  /** What an edge adds to each measure, by the transitions of its two markings. */
  lemma WeightMeans(net: Net, isExec: seq<bool>, vertices: seq<StateClass>, out: seq<seq<Edge>>, task: TaskTopology,
                    measure: Measure, v: nat, e: Edge)
    requires v < |vertices| && e.target < |vertices| && IsClass(net, vertices[v]) && IsClass(net, vertices[e.target])
    ensures
      var m, next := vertices[v].marking, vertices[e.target].marking;
      ProblemOf(net, isExec, vertices, out, task, measure).weight(v, e) ==
        match measure
        case Response => e.dwellMax
        case BestResponse => Fin(e.dwellMin)
        case Interference => if SomeSuspended(net, task.execTransitions, m) then e.dwellMax else Fin(0)
        case Blocking =>
          if && task.core >= 0 && InFlight(task, m) && !SomeActive(net, task.chainTransitions, m)
             && LowerRuns(net, isExec, task, m)
          then e.dwellMax else Fin(0)
        case Preemptions =>
          if SomeActive(net, task.chainTransitions, m) && SomeSuspended(net, task.execTransitions, next) then Fin(1)
          else Fin(0)
  {
    var s, r := vertices[v], vertices[e.target];
    MeetsSets(net, task, s);
    MeetsSets(net, task, r);
    assert (exists t: nat :: t in s.priorityEnabled && RunsBelow(net, isExec, task, t))
      <==> LowerRuns(net, isExec, task, s.marking) by {
      assert forall t: nat :: t in s.priorityEnabled <==> Active(net, s.marking, t);
    }
  }

  lemma MeetsSets(net: Net, task: TaskTopology, s: StateClass)
    requires IsClass(net, s)
    ensures Meets(task.execTransitions, s.suspended) <==> SomeSuspended(net, task.execTransitions, s.marking)
    ensures Meets(task.chainTransitions, s.priorityEnabled) <==> SomeActive(net, task.chainTransitions, s.marking)
  {
    assert forall t: nat :: t in s.suspended <==> IsSuspended(net, s.marking, t);
    assert forall t: nat :: t in s.priorityEnabled <==> Active(net, s.marking, t);
  }

  // -------------------------------------------------------------- flat adjacency

  function Flat(e: GraphEdge): Edge {
    Edge(e.target, e.firing.transition, e.firing.dwellMin, e.firing.dwellMax)
  }

  ghost function OutOf(edges: seq<GraphEdge>, v: nat): seq<Edge> {
    if edges == [] then []
    else
      var init, last := OutOf(edges[..|edges| - 1], v), edges[|edges| - 1];
      if last.source == v then init + [Flat(last)] else init
  }

  lemma {:induction false} OutOfMember(edges: seq<GraphEdge>, v: nat, e: Edge)
    ensures e in OutOf(edges, v) <==> exists k :: 0 <= k < |edges| && edges[k].source == v && Flat(edges[k]) == e
  {
    if edges != [] {
      var init := edges[..|edges| - 1];
      OutOfMember(init, v, e);
      if k: nat :| k < |edges| && edges[k].source == v && Flat(edges[k]) == e {
        assert k < |init| ==> init[k] == edges[k];
      }
      if k: nat :| k < |init| && init[k].source == v && Flat(init[k]) == e {
        assert edges[k] == init[k];
      }
    }
  }

  /** Edges of a vertex keep their order. */
  lemma {:induction false} OutOfOrdered(edges: seq<GraphEdge>, v: nat, i: nat, j: nat) returns (a: nat, b: nat)
    requires i < j < |OutOf(edges, v)|
    ensures a < b < |edges| && edges[a].source == edges[b].source == v
    ensures OutOf(edges, v)[i] == Flat(edges[a]) && OutOf(edges, v)[j] == Flat(edges[b])
  {
    var init := edges[..|edges| - 1];
    if j < |OutOf(init, v)| {
      a, b := OutOfOrdered(init, v, i, j);
    } else {
      b := |edges| - 1;
      OutOfMember(init, v, OutOf(edges, v)[i]);
      a :| a < |init| && init[a].source == v && Flat(init[a]) == OutOf(edges, v)[i];
    }
  }

  /** out is the adjacency of the edge list. */
  ghost predicate IsFlat(n: nat, edges: seq<GraphEdge>, out: seq<seq<Edge>>) {
    |out| == n && forall v: nat :: v < n ==> FlatAt(edges, out, v)
  }

  ghost predicate FlatAt(edges: seq<GraphEdge>, out: seq<seq<Edge>>, v: nat) {
    v < |out| ==> out[v] == OutOf(edges, v)
  }

  method FlattenGraph(n: nat, edges: seq<GraphEdge>) returns (out: seq<seq<Edge>>)
    requires forall k :: 0 <= k < |edges| ==> edges[k].source < n
    ensures IsFlat(n, edges, out)
  {
    out := seq(n, _ => []);
    for k := 0 to |edges|
      invariant IsFlat(n, edges[..k], out)
    {
      ghost var before := out;
      var u := edges[k].source;
      out := out[u := out[u] + [Flat(edges[k])]];
      ghost var after := edges[..k + 1];
      assert after[..k] == edges[..k];
      forall v: nat | v < n
        ensures FlatAt(after, out, v)
      {
        assert FlatAt(edges[..k], before, v);
      }
    }
    assert edges[..|edges|] == edges;
  }

  /** Flattened edges stay within the vertices. */
  lemma FlatValid(g: Setting, vertices: seq<StateClass>, edges: seq<GraphEdge>, birth: seq<nat>, out: seq<seq<Edge>>)
    requires GraphInv(g, vertices, edges, birth) && IsFlat(|vertices|, edges, out)
    ensures ValidOut(out)
  {
    forall v: nat, k: nat | v < |out| && k < |out[v]|
      ensures TargetAt(out, v, k)
    {
      assert FlatAt(edges, out, v) && out[v][k] in OutOf(edges, v);
      OutOfMember(edges, v, out[v][k]);
      var j: nat :| j < |edges| && edges[j].source == v && Flat(edges[j]) == out[v][k];
      assert EdgeAt(g, vertices, edges, j);
    }
  }

  // -------------------------------------------------------------------- releases

  /** Vertex v is a state in which the task has just been released. */
  ghost predicate IsRelease(vertices: seq<StateClass>, edges: seq<GraphEdge>, task: TaskTopology, v: nat) {
    || (v == 0 && |vertices| > 0 && HasTokens(vertices[0].marking, task.entryPlace))
    || exists k :: 0 <= k < |edges| && edges[k].target == v && Releases(vertices, edges[k], task)
  }

  ghost predicate Releases(vertices: seq<StateClass>, e: GraphEdge, task: TaskTopology) {
    && e.source < |vertices| && e.target < |vertices|
    && Increases(vertices[e.source].marking, vertices[e.target].marking, task.entryPlace)
  }

  ghost predicate AreReleases(vertices: seq<StateClass>, edges: seq<GraphEdge>, task: TaskTopology, starts: seq<nat>) {
    Increasing(starts) && forall v: nat {:trigger v in starts} :: v in starts <==> IsRelease(vertices, edges, task, v)
  }

  /** The release edges out of the first u vertices, and the first k of u. */
  ghost predicate ReleasedBy(vertices: seq<StateClass>, edges: seq<GraphEdge>, out: seq<seq<Edge>>, task: TaskTopology,
                             found: set<nat>, u: nat, k: nat) {
    && (forall v: nat {:trigger v in found} :: v in found ==> v < |vertices| && IsRelease(vertices, edges, task, v))
    && (|vertices| > 0 && HasTokens(vertices[0].marking, task.entryPlace) ==> 0 in found)
    && (forall w: nat, j: nat :: w < |out| && j < |out[w]| && (w < u || (w == u && j < k)) ==>
          LeadsIn(vertices, out, task, found, w, j))
  }

  ghost predicate LeadsIn(vertices: seq<StateClass>, out: seq<seq<Edge>>, task: TaskTopology, found: set<nat>,
                          w: nat, j: nat) {
    (&& w < |out| && j < |out[w]| && w < |vertices| && out[w][j].target < |vertices|
     && Increases(vertices[w].marking, vertices[out[w][j].target].marking, task.entryPlace)) ==>
      out[w][j].target in found
  }

  lemma ReleasedStep(vertices: seq<StateClass>, edges: seq<GraphEdge>, out: seq<seq<Edge>>, task: TaskTopology,
                     found: set<nat>, more: set<nat>, u: nat, k: nat)
    requires ReleasedBy(vertices, edges, out, task, found, u, k) && found <= more
    requires LeadsIn(vertices, out, task, more, u, k)
    requires forall v: nat :: v in more && v !in found ==> v < |vertices| && IsRelease(vertices, edges, task, v)
    ensures ReleasedBy(vertices, edges, out, task, more, u, k + 1)
  {
    forall w: nat, j: nat | w < |out| && j < |out[w]| && (w < u || (w == u && j < k + 1))
      ensures LeadsIn(vertices, out, task, more, w, j)
    {
      if w < u || j < k {
        assert LeadsIn(vertices, out, task, found, w, j);
      }
    }
  }

  lemma ReleaseFound(vertices: seq<StateClass>, edges: seq<GraphEdge>, out: seq<seq<Edge>>, task: TaskTopology,
                     found: set<nat>, v: nat)
    requires IsFlat(|vertices|, edges, out) && ReleasedBy(vertices, edges, out, task, found, |out|, 0)
    requires v < |vertices|
    ensures v in found <==> IsRelease(vertices, edges, task, v)
  {
    if k: nat :| k < |edges| && edges[k].target == v && Releases(vertices, edges[k], task) {
      var u := edges[k].source;
      assert FlatAt(edges, out, u);
      OutOfMember(edges, u, Flat(edges[k]));
      var j: nat :| j < |out[u]| && out[u][j] == Flat(edges[k]);
      assert LeadsIn(vertices, out, task, found, u, j);
    }
  }

  method ReleaseStates(vertices: seq<StateClass>, ghost edges: seq<GraphEdge>, out: seq<seq<Edge>>, task: TaskTopology)
    returns (starts: seq<nat>)
    requires |vertices| > 0 && IsFlat(|vertices|, edges, out)
    requires forall k :: 0 <= k < |edges| ==> edges[k].target < |vertices|
    ensures AreReleases(vertices, edges, task, starts)
  {
    var found: set<nat> := if HasTokens(vertices[0].marking, task.entryPlace) then {0} else {};
    for u := 0 to |out|
      invariant ReleasedBy(vertices, edges, out, task, found, u, 0)
    {
      for k := 0 to |out[u]|
        invariant ReleasedBy(vertices, edges, out, task, found, u, k)
      {
        var v := out[u][k].target;
        assert FlatAt(edges, out, u) && out[u][k] in OutOf(edges, u);
        OutOfMember(edges, u, out[u][k]);
        ghost var before := found;
        if Increases(vertices[u].marking, vertices[v].marking, task.entryPlace) {
          assert IsRelease(vertices, edges, task, v);
          found := found + {v};
        }
        ReleasedStep(vertices, edges, out, task, before, found, u, k);
      }
    }
    starts := [];
    for v := 0 to |vertices|
      invariant Increasing(starts) && forall w: nat {:trigger w in starts} :: w in starts <==> w < v && w in found
    {
      if v in found {
        AppendIncreasing(starts, v);
        starts := starts + [v];
      }
    }
    forall v: nat
      ensures v in starts <==> IsRelease(vertices, edges, task, v)
    {
      if v < |vertices| {
        ReleaseFound(vertices, edges, out, task, found, v);
      }
    }
  }

  // --------------------------------------------------------------- concrete runs

  ghost function RunView(net: Net, c: Config, next: Config): View {
    View(c.marking, PriorityEnabled(net, c.marking), Suspended(net, c.marking), Suspended(net, next.marking))
  }

  /** What one concrete step adds to a measure. */
  ghost function CostOf(net: Net, isExec: seq<bool>, task: TaskTopology, measure: Measure,
                        c: Config, step: Step, next: Config): int {
    if !Counts(net, isExec, task, measure, RunView(net, c, next)) then 0
    else if measure.Preemptions? then 1
    else step.delay
  }

  /** What steps a, ..., b - 1 of a run add up to. */
  ghost function TotalCost(net: Net, isExec: seq<bool>, task: TaskTopology, measure: Measure,
                           configs: seq<Config>, steps: seq<Step>, a: nat, b: nat): int
    requires a <= b <= |steps| && |configs| == |steps| + 1
    decreases b - a
  {
    if a == b then 0
    else
      var first := CostOf(net, isExec, task, measure, configs[a], steps[a], configs[a + 1]);
      first + TotalCost(net, isExec, task, measure, configs, steps, a + 1, b)
  }

  /** The task is released at configuration a of the run. */
  ghost predicate ReleasedAt(task: TaskTopology, configs: seq<Config>, a: nat) {
    && a < |configs|
    && if a == 0 then HasTokens(configs[0].marking, task.entryPlace)
       else Increases(configs[a - 1].marking, configs[a].marking, task.entryPlace)
  }

  /** Step i completes the task. */
  ghost predicate CompletesAt(task: TaskTopology, configs: seq<Config>, i: nat) {
    i + 1 < |configs| && Increases(configs[i].marking, configs[i + 1].marking, task.endPlace)
  }

  ghost predicate StaysAt(task: TaskTopology, configs: seq<Config>, i: nat) {
    i + 1 < |configs| && !CompletesAt(task, configs, i) && InFlight(task, configs[i + 1].marking)
  }

  /** From configuration a, through in-flight configurations, step b - 1 is the
      first to complete the task. */
  ghost predicate IsActivation(task: TaskTopology, configs: seq<Config>, a: nat, b: nat) {
    && a < b < |configs| && CompletesAt(task, configs, b - 1)
    && forall i: nat :: a <= i < b - 1 ==> StaysAt(task, configs, i)
  }

  // ----------------------------------------------------------- runs against paths

  /** How a length in the graph relates to a cost of a run. */
  ghost predicate Fits(measure: Measure, length: Bound, cost: int) {
    if measure.BestResponse? then Le(length, Fin(cost)) else Within(cost, length)
  }

  lemma EdgeFits(g: Setting, vertices: seq<StateClass>, e: GraphEdge, isExec: seq<bool>, task: TaskTopology,
                 measure: Measure, c: Config, step: Step, next: Config)
    requires EdgeCovers(g, vertices, e, c, step, next)
    ensures Fits(measure, EdgeWeight(g.net, isExec, vertices, task, measure, e.source, Flat(e)),
                 CostOf(g.net, isExec, task, measure, c, step, next))
    ensures EdgeCompletes(vertices, task, e.source, Flat(e)) <==> Increases(c.marking, next.marking, task.endPlace)
    ensures e.source < |vertices| && e.target < |vertices| && vertices[e.target].marking == next.marking
  {
    assert ViewOf(vertices[e.source], vertices[e.target]) == RunView(g.net, c, next);
  }

  /** The segment of a run that is matched by a path of the graph is a completing
      path of the problem. */
  lemma {:induction false} SegmentPath(g: Setting, vertices: seq<StateClass>, edges: seq<GraphEdge>, p: Problem,
                                       isExec: seq<bool>, task: TaskTopology, measure: Measure,
                                       configs: seq<Config>, steps: seq<Step>, cover: seq<nat>, a: nat, b: nat)
    returns (path: Path)
    requires ValidSetting(g) && IsFlat(|vertices|, edges, p.out)
    requires p == ProblemOf(g.net, isExec, vertices, p.out, task, measure)
    requires Covers(g, vertices, edges, 0, configs, steps, cover) && IsActivation(task, configs, a, b)
    ensures IsCompleting(p, VertexBefore(edges, 0, cover, a), path)
    ensures Fits(measure, Length(p, VertexBefore(edges, 0, cover, a), path),
                 TotalCost(g.net, isExec, task, measure, configs, steps, a, b))
    decreases b - a
  {
    hide EdgeCovers;
    assert CoversAt(g, vertices, edges, 0, configs, steps, cover, a);
    var ge := edges[cover[a]];
    var v, e := ge.source, Flat(ge);
    EdgeFits(g, vertices, ge, isExec, task, measure, configs[a], steps[a], configs[a + 1]);
    assert FlatAt(edges, p.out, v);
    OutOfMember(edges, v, e);
    if a + 1 == b {
      assert TotalCost(g.net, isExec, task, measure, configs, steps, b, b) == 0;
      path := Last(e);
    } else {
      assert StaysAt(task, configs, a);
      var rest := SegmentPath(g, vertices, edges, p, isExec, task, measure, configs, steps, cover, a + 1, b);
      assert VertexBefore(edges, 0, cover, a + 1) == e.target;
      assert p.inFlight(e.target);
      path := Then(e, rest);
    }
  }

  lemma ReleaseCovered(g: Setting, vertices: seq<StateClass>, edges: seq<GraphEdge>, task: TaskTopology,
                       configs: seq<Config>, steps: seq<Step>, cover: seq<nat>, a: nat)
    requires ReleasedAt(task, configs, a) && a < |steps| && |vertices| > 0
    requires Covers(g, vertices, edges, 0, configs, steps, cover)
    ensures IsRelease(vertices, edges, task, VertexBefore(edges, 0, cover, a))
  {
    assert CoversAt(g, vertices, edges, 0, configs, steps, cover, a);
    if a > 0 {
      assert CoversAt(g, vertices, edges, 0, configs, steps, cover, a - 1);
      assert Releases(vertices, edges[cover[a - 1]], task);
    }
  }

  /** The weights of the shortest search are not negative. */
  lemma DwellsNonNegative(g: Setting, vertices: seq<StateClass>, edges: seq<GraphEdge>, birth: seq<nat>,
                          out: seq<seq<Edge>>, isExec: seq<bool>, task: TaskTopology)
    requires GraphInv(g, vertices, edges, birth) && IsFlat(|vertices|, edges, out)
    ensures NonNegative(ProblemOf(g.net, isExec, vertices, out, task, BestResponse))
  {
    forall v: nat, e | v < |out| && e in out[v]
      ensures e.dwellMin >= 0
    {
      assert FlatAt(edges, out, v);
      OutOfMember(edges, v, e);
      var k :| 0 <= k < |edges| && edges[k].source == v && Flat(edges[k]) == e;
      assert EdgeAt(g, vertices, edges, k);
    }
  }

  /** A result of the longest or shortest run stands for every activation of every
      run: a finite worst case is never exceeded, and a best case that is the minimum
      is never undercut. */
  lemma MeasureSound(g: Setting, vertices: seq<StateClass>, edges: seq<GraphEdge>, birth: seq<nat>, p: Problem,
                     isExec: seq<bool>, task: TaskTopology, measure: Measure, starts: seq<nat>, r: DPResult,
                     configs: seq<Config>, steps: seq<Step>, a: nat, b: nat)
    requires Complete(g, vertices, edges, birth) && IsFlat(|vertices|, edges, p.out)
    requires p == ProblemOf(g.net, isExec, vertices, p.out, task, measure)
    requires AreReleases(vertices, edges, task, starts)
    requires if measure.BestResponse? then IsMinimum(p, starts, r) else IsLongestOver(p, starts, r)
    requires IsInitialRun(g.net, configs, steps) && ReleasedAt(task, configs, a) && IsActivation(task, configs, a, b)
    ensures !r.infinite || measure.BestResponse? ==>
      r.reachable && Fits(measure, ToLength(r), TotalCost(g.net, isExec, task, measure, configs, steps, a, b))
  {
    hide EdgeCovers, Covers, AllExpanded, IsCompleting, AreReleases, IsMinimum, IsLongestOver;
    var cover, last := RunCovered(g, vertices, edges, birth, configs, steps);
    var path := SegmentPath(g, vertices, edges, p, isExec, task, measure, configs, steps, cover, a, b);
    ReleaseCovered(g, vertices, edges, task, configs, steps, cover, a);
    var v := VertexBefore(edges, 0, cover, a);
    BoundFrom(vertices, edges, p, task, measure, starts, r, v);
  }

  /** The result is a bound from every release state. */
  lemma BoundFrom(vertices: seq<StateClass>, edges: seq<GraphEdge>, p: Problem, task: TaskTopology, measure: Measure,
                  starts: seq<nat>, r: DPResult, v: nat)
    requires AreReleases(vertices, edges, task, starts) && IsRelease(vertices, edges, task, v)
    requires if measure.BestResponse? then IsMinimum(p, starts, r) else IsLongestOver(p, starts, r)
    ensures measure.BestResponse? ==> BelowFrom(p, v, r)
    ensures !measure.BestResponse? && !r.infinite ==> BoundedFrom(p, v, r)
  {
    assert v in starts;
    var i: nat :| i < |starts| && starts[i] == v;
  }
}
