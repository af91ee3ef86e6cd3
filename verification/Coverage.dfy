/** What a finished exploration says about all concrete runs of the net. */
module Coverage {
  import opened Bounds
  import opened Zones
  import opened PetriNet
  import opened Scheduling
  import opened StateClasses
  import opened Semantics
  import opened Symbolic
  import opened Graph
  import opened Regions

  // ------------------------------------------------------------------ soundness

  /** Edge e of the graph matches one concrete step: source and target contain
      the configurations, and the windows contain the delay and the clock. */
  ghost predicate EdgeCovers(g: Setting, vertices: seq<StateClass>, e: GraphEdge, c: Config, step: Step, next: Config) {
    && e.source < |vertices| && e.target < |vertices|
    && InZone(g.net, vertices[e.source], c) && InZone(g.net, vertices[e.target], next)
    && e.firing.transition == step.transition
    && e.firing.dwellMin <= step.delay && Within(step.delay, e.firing.dwellMax)
    && Execution(step.transition) in c.clocks
    && var fired := c.clocks[Execution(step.transition)] + step.delay;
       e.firing.firingMin <= fired && Within(fired, e.firing.firingMax)
  }

  /** path lists the edges that match the run, end to end. */
  ghost predicate Covers(g: Setting, vertices: seq<StateClass>, edges: seq<GraphEdge>, start: nat,
                         configs: seq<Config>, steps: seq<Step>, path: seq<nat>) {
    && |path| == |steps| && |configs| == |steps| + 1
    && forall i: nat :: i < |path| ==> CoversAt(g, vertices, edges, start, configs, steps, path, i)
  }

  ghost predicate CoversAt(g: Setting, vertices: seq<StateClass>, edges: seq<GraphEdge>, start: nat,
                           configs: seq<Config>, steps: seq<Step>, path: seq<nat>, i: nat)
    requires i < |path| == |steps| && |configs| == |steps| + 1
  {
    && path[i] < |edges|
    && edges[path[i]].source == VertexBefore(edges, start, path, i)
    && var covers := EdgeCovers(g, vertices, edges[path[i]], configs[i], steps[i], configs[i + 1]);
       covers
  }

  /** The vertex at which step i of a path leaves. */
  ghost function VertexBefore(edges: seq<GraphEdge>, start: nat, path: seq<nat>, i: nat): nat {
    if 0 < i <= |path| && path[i - 1] < |edges| then edges[path[i - 1]].target else start
  }

  /** Everything that fires along an edge ends in the edge's target. */
  lemma EdgeKeeps(g: Setting, vertices: seq<StateClass>, edges: seq<GraphEdge>, birth: seq<nat>, k: nat, late: Config)
    requires Complete(g, vertices, edges, birth) && k < |edges| && edges[k].source < |vertices|
    requires GoodClass(g.net, vertices[edges[k].source])
    requires InZone(g.net, Elapse(g.net, vertices[edges[k].source]), late)
    requires CanFire(g.net, late, edges[k].firing.transition)
    ensures edges[k].target < |vertices| && GoodClass(g.net, vertices[edges[k].target])
    ensures InZone(g.net, vertices[edges[k].target], FireConfig(g.net, late, edges[k].firing.transition))
  {
    var e := edges[k];
    assert EdgeAt(g, vertices, edges, k) && VertexAt(g, vertices, e.target);
    var s, target, t := vertices[e.source], vertices[e.target], e.firing.transition;
    FireInPost(g.net, g.extrapolation, s, late, t);
    PostGood(g.net, g.extrapolation, s, t);
    MergeKeeps(g.net, Post(g.net, g.extrapolation, s, t), target, g.mode, FireConfig(g.net, late, t));
  }

  /** A configuration of the elapsed class of a vertex makes its firing an edge. */
  lemma EdgeThere(g: Setting, vertices: seq<StateClass>, edges: seq<GraphEdge>, birth: seq<nat>, u: nat,
                  late: Config, t: nat) returns (k: nat)
    requires Complete(g, vertices, edges, birth) && u < |vertices| && GoodClass(g.net, vertices[u])
    requires InZone(g.net, Elapse(g.net, vertices[u]), late) && CanFire(g.net, late, t)
    ensures k < |edges| && edges[k].source == u && edges[k].firing.transition == t
  {
    FireInPost(g.net, g.extrapolation, vertices[u], late, t);
    assert Branched(g, vertices, edges, u, t);
    k :| 0 <= k < |edges| && edges[k].source == u && edges[k].firing.transition == t;
  }

  /** One concrete step is matched by some edge of an expanded vertex. */
  lemma CoverStep(g: Setting, vertices: seq<StateClass>, edges: seq<GraphEdge>, birth: seq<nat>,
                  u: nat, c: Config, step: Step, next: Config) returns (k: nat)
    requires Complete(g, vertices, edges, birth) && u < |vertices| && InZone(g.net, vertices[u], c)
    requires Steps(g.net, c, step, next)
    ensures k < |edges| && edges[k].source == u && EdgeCovers(g, vertices, edges[k], c, step, next)
  {
    assert VertexAt(g, vertices, u);
    var late := Delay(g.net, c, step.delay);
    DelayInElapse(g.net, vertices[u], c, step.delay);
    k := EdgeThere(g, vertices, edges, birth, u, late, step.transition);
    EdgeKeeps(g, vertices, edges, birth, k, late);
    EdgeSound(g.net, vertices[u], c, step);
    assert EdgeAt(g, vertices, edges, k);
    assert Active(g.net, c.marking, step.transition) && Execution(step.transition) in Clocks(g.net, c.marking);
  }

  lemma CoversExtend(g: Setting, vertices: seq<StateClass>, edges: seq<GraphEdge>, start: nat,
                     configs: seq<Config>, steps: seq<Step>, init: seq<nat>, k: nat)
    requires |steps| > 0 && |configs| == |steps| + 1
    requires Covers(g, vertices, edges, start, configs[..|steps|], steps[..|steps| - 1], init)
    requires k < |edges| && edges[k].source == VertexBefore(edges, start, init, |init|)
    requires EdgeCovers(g, vertices, edges[k], configs[|steps| - 1], steps[|steps| - 1], configs[|steps|])
    ensures Covers(g, vertices, edges, start, configs, steps, init + [k])
    ensures VertexBefore(edges, start, init + [k], |steps|) == edges[k].target
  {
    hide EdgeCovers;
    var n, path := |steps| - 1, init + [k];
    var shorter, fewer := configs[..|steps|], steps[..n];
    forall i: nat | i < |path|
      ensures CoversAt(g, vertices, edges, start, configs, steps, path, i)
    {
      assert VertexBefore(edges, start, path, i) == VertexBefore(edges, start, init, i);
      if i < n {
        assert CoversAt(g, vertices, edges, start, shorter, fewer, init, i);
        var covers := EdgeCovers(g, vertices, edges[init[i]], shorter[i], fewer[i], shorter[i + 1]);
        assert shorter[i] == configs[i] && shorter[i + 1] == configs[i + 1] && fewer[i] == steps[i]
          && path[i] == init[i];
        assert covers == EdgeCovers(g, vertices, edges[path[i]], configs[i], steps[i], configs[i + 1]);
      } else {
        var covers := EdgeCovers(g, vertices, edges[k], configs[n], steps[n], configs[n + 1]);
        assert covers == EdgeCovers(g, vertices, edges[path[i]], configs[i], steps[i], configs[i + 1]);
      }
    }
  }

  lemma CompleteIsValid(g: Setting, vertices: seq<StateClass>, edges: seq<GraphEdge>, birth: seq<nat>)
    requires Complete(g, vertices, edges, birth)
    ensures ValidNet(g.net)
  {
  }

  lemma CoversNothing(g: Setting, vertices: seq<StateClass>, edges: seq<GraphEdge>, start: nat, configs: seq<Config>)
    requires |configs| == 1
    ensures Covers(g, vertices, edges, start, configs, [], [])
  {
  }

  /** Coverage from any vertex that contains the first configuration. */
  lemma {:induction false} CoverFrom(g: Setting, vertices: seq<StateClass>, edges: seq<GraphEdge>, birth: seq<nat>,
                                     start: nat, configs: seq<Config>, steps: seq<Step>)
    returns (path: seq<nat>, last: nat)
    requires Complete(g, vertices, edges, birth) && start < |vertices|
    requires IsRun(g.net, configs, steps) && InZone(g.net, vertices[start], configs[0])
    ensures Covers(g, vertices, edges, start, configs, steps, path)
    ensures last == VertexBefore(edges, start, path, |path|)
    ensures last < |vertices| && InZone(g.net, vertices[last], configs[|steps|])
    decreases |steps|
  {
    hide Covers, EdgeCovers, Complete, InZone, Steps;
    CompleteIsValid(g, vertices, edges, birth);
    path, last := [], start;
    if steps == [] {
      CoversNothing(g, vertices, edges, start, configs);
    } else {
      var n := |steps| - 1;
      RunPrefix(g.net, configs, steps);
      path, last := CoverFrom(g, vertices, edges, birth, start, configs[..|steps|], steps[..n]);
      var k := CoverStep(g, vertices, edges, birth, last, configs[n], steps[n], configs[n + 1]);
      CoversExtend(g, vertices, edges, start, configs, steps, path, k);
      path, last := path + [k], edges[k].target;
    }
  }

  lemma RunPrefix(net: Net, configs: seq<Config>, steps: seq<Step>)
    requires ValidNet(net) && IsRun(net, configs, steps) && steps != []
    ensures IsRun(net, configs[..|steps|], steps[..|steps| - 1])
    ensures Steps(net, configs[|steps| - 1], steps[|steps| - 1], configs[|steps|])
  {
    forall i | 0 <= i < |steps| - 1
      ensures Steps(net, configs[..|steps|][i], steps[..|steps| - 1][i], configs[..|steps|][i + 1])
    {
      assert Steps(net, configs[i], steps[i], configs[i + 1]);
    }
    var n := |steps| - 1;
    assert Steps(net, configs[n], steps[n], configs[n + 1]);
  }

  /** Whole-run coverage: every concrete run of the net is matched edge by edge
      from vertex 0, in every mode, with or without extrapolation. */
  lemma RunCovered(g: Setting, vertices: seq<StateClass>, edges: seq<GraphEdge>, birth: seq<nat>,
                   configs: seq<Config>, steps: seq<Step>)
    returns (path: seq<nat>, last: nat)
    requires Complete(g, vertices, edges, birth) && IsInitialRun(g.net, configs, steps)
    ensures InZone(g.net, vertices[0], configs[0])
    ensures Covers(g, vertices, edges, 0, configs, steps, path)
    ensures last == VertexBefore(edges, 0, path, |path|)
    ensures last < |vertices| && InZone(g.net, vertices[last], configs[|steps|])
  {
    StartCovered(g, vertices, edges, birth);
    path, last := CoverFrom(g, vertices, edges, birth, 0, configs, steps);
  }

  lemma StartCovered(g: Setting, vertices: seq<StateClass>, edges: seq<GraphEdge>, birth: seq<nat>)
    requires GraphInv(g, vertices, edges, birth)
    ensures InZone(g.net, vertices[0], InitialConfig(g.net))
  {
    assert StartAt(g, vertices, 0);
    InitialClassGood(g.net);
    InitialClassExact(g.net, InitialConfig(g.net));
    ExtrapolatedGood(g.net, g.extrapolation, InitialClass(g.net));
  }

  // ------------------------------------------------------------------ exactness

  /** Without frozen clocks and extrapolation every configuration of every stored
      class is reached by a run. */
  lemma {:induction false} Exactness(g: Setting, vertices: seq<StateClass>, edges: seq<GraphEdge>, birth: seq<nat>,
                                     v: nat, c: Config) returns (configs: seq<Config>, steps: seq<Step>)
    requires GraphInv(g, vertices, edges, birth) && g.extrapolation == Off
    requires NeverFrozen(g, vertices)
    requires v < |vertices| && InZone(g.net, vertices[v], c)
    ensures IsInitialRun(g.net, configs, steps) && configs[|steps|] == c
  {
    if v == 0 {
      assert StartAt(g, vertices, 0);
      InitialClassExact(g.net, c);
      configs, steps := [c], [];
    } else {
      assert BirthAt(g, vertices, edges, birth, v);
      var e := edges[birth[v - 1]];
      assert VertexAt(g, vertices, e.source);
      var before, step := PostExact(g.net, vertices[e.source], e.firing.transition, c);
      var configs', steps' := Exactness(g, vertices, edges, birth, e.source, before);
      configs, steps := configs' + [c], steps' + [step];
      RunExtends(g.net, configs', steps', step, c);
    }
  }

  lemma RunExtends(net: Net, configs: seq<Config>, steps: seq<Step>, step: Step, c: Config)
    requires ValidNet(net) && IsRun(net, configs, steps) && Steps(net, configs[|steps|], step, c)
    ensures IsRun(net, configs + [c], steps + [step])
  {
    var cs, ss := configs + [c], steps + [step];
    forall i | 0 <= i < |ss|
      ensures Steps(net, cs[i], ss[i], cs[i + 1])
    {
      if i < |steps| {
        assert Steps(net, configs[i], steps[i], configs[i + 1]);
      }
    }
  }

  ghost predicate Reachable(net: Net, m: Marking)
    requires ValidNet(net)
  {
    exists configs: seq<Config>, steps: seq<Step> :: IsInitialRun(net, configs, steps) && configs[|steps|].marking == m
  }

  /** No stored class freezes an execution clock. */
  ghost predicate NeverFrozen(g: Setting, vertices: seq<StateClass>) {
    forall u: nat :: u < |vertices| ==> NothingFrozen(g.net, vertices[u].marking)
  }

  /** One edge back under extrapolation: a step leads to a configuration alike to
      the given one. */
  lemma PostNear(g: Setting, s: StateClass, t: nat, c: Config, k: int)
    returns (before: Config, step: Step, near: Config)
    requires ValidNet(g.net) && GoodClass(g.net, s) && NothingFrozen(g.net, s.marking) && CoversNet(g.net, k)
    requires IsFirable(g.net, Elapse(g.net, s), t) && InZone(g.net, Post(g.net, UpTo(k), s, t), c)
    ensures InZone(g.net, s, before) && Steps(g.net, before, step, near) && Alike(k, near, c)
  {
    ElapseGood(g.net, s);
    SuccessorGood(g.net, Elapse(g.net, s), t);
    near := ExtrapolatedAlike(g.net, k, Successor(g.net, Elapse(g.net, s), t), c);
    before, step := PostExact(g.net, s, t, near);
  }

  /** Without frozen clocks every configuration of every stored class is alike to
      one that a run reaches. */
  lemma {:induction false} NearExactness(g: Setting, vertices: seq<StateClass>, edges: seq<GraphEdge>, birth: seq<nat>,
                                         v: nat, c: Config, k: int) returns (configs: seq<Config>, steps: seq<Step>)
    requires GraphInv(g, vertices, edges, birth) && g.extrapolation == UpTo(k) && NeverFrozen(g, vertices)
    requires v < |vertices| && InZone(g.net, vertices[v], c)
    ensures IsInitialRun(g.net, configs, steps) && Alike(k, configs[|steps|], c) && Timely(g.net, configs[|steps|])
  {
    if v == 0 {
      assert StartAt(g, vertices, 0);
      InitialClassGood(g.net);
      var near := ExtrapolatedAlike(g.net, k, InitialClass(g.net), c);
      InitialClassExact(g.net, near);
      ClassTimely(g.net, InitialClass(g.net), near);
      configs, steps := [near], [];
    } else {
      assert BirthAt(g, vertices, edges, birth, v);
      var e := edges[birth[v - 1]];
      assert VertexAt(g, vertices, e.source);
      var before, step, near := PostNear(g, vertices[e.source], e.firing.transition, c, k);
      ClassTimely(g.net, vertices[e.source], before);
      configs, steps := NearExactness(g, vertices, edges, birth, e.source, before, k);
      configs, steps := RunAlike(g.net, k, configs, steps, before, step, c);
    }
  }

  /** A run to something alike can take the same step. */
  lemma RunAlike(net: Net, k: int, configs: seq<Config>, steps: seq<Step>, before: Config, step: Step, c: Config)
    returns (more: seq<Config>, further: seq<Step>)
    requires ValidNet(net) && CoversNet(net, k) && IsInitialRun(net, configs, steps)
    requires Timely(net, configs[|steps|]) && Timely(net, before) && Alike(k, configs[|steps|], before)
    requires CanStep(net, before, step) && Alike(k, DoStep(net, before, step), c)
    ensures IsInitialRun(net, more, further) && Alike(k, more[|further|], c) && Timely(net, more[|further|])
  {
    var last := configs[|steps|];
    StepAlike(net, k, before, last, step);
    var next := DoStep(net, last, step);
    more, further := configs + [next], steps + [step];
    RunExtends(net, configs, steps, step, next);
    AlikeTwice(k, next, DoStep(net, before, step), c);
  }

  lemma AlikeTwice(k: int, a: Config, b: Config, c: Config)
    requires Alike(k, b, a) && Alike(k, b, c)
    ensures Alike(k, a, c)
  {
    forall x: ClockVar | x in a.clocks
      ensures Same(k, a.clocks[x], c.clocks[x])
    {
      assert Same(k, b.clocks[x], a.clocks[x]) && Same(k, b.clocks[x], c.clocks[x]);
    }
  }

  /** The markings of a finished graph are a superset of the reachable ones, and
      exactly those when nothing is frozen, with or without extrapolation. */
  lemma MarkingsOfGraph(g: Setting, vertices: seq<StateClass>, edges: seq<GraphEdge>, birth: seq<nat>, m: Marking)
    requires Complete(g, vertices, edges, birth)
    ensures Reachable(g.net, m) ==> exists v :: 0 <= v < |vertices| && vertices[v].marking == m
    ensures NeverFrozen(g, vertices) ==>
      (Reachable(g.net, m) <==> exists v :: 0 <= v < |vertices| && vertices[v].marking == m)
  {
    if Reachable(g.net, m) {
      var configs: seq<Config>, steps: seq<Step> :| IsInitialRun(g.net, configs, steps)
        && configs[|steps|].marking == m;
      var path, last := RunCovered(g, vertices, edges, birth, configs, steps);
      assert vertices[last].marking == m;
    }
    if v: nat :| NeverFrozen(g, vertices) && v < |vertices| && vertices[v].marking == m {
      StoredIsReachable(g, vertices, edges, birth, v);
    }
  }

  lemma StoredIsReachable(g: Setting, vertices: seq<StateClass>, edges: seq<GraphEdge>, birth: seq<nat>, v: nat)
    requires GraphInv(g, vertices, edges, birth) && NeverFrozen(g, vertices) && v < |vertices|
    ensures Reachable(g.net, vertices[v].marking)
  {
    assert VertexAt(g, vertices, v);
    var c := GoodClassInhabited(g.net, vertices[v]);
    match g.extrapolation {
      case Off =>
        var configs, steps := Exactness(g, vertices, edges, birth, v, c);
        assert configs[|steps|].marking == vertices[v].marking;
      case UpTo(k) =>
        var configs, steps := NearExactness(g, vertices, edges, birth, v, c, k);
        assert configs[|steps|].marking == vertices[v].marking;
    }
  }

  // --------------------------------------------------------- shape of the graph

  /** A vertex of a finished graph is a sink exactly when nothing is enabled. */
  lemma SinksAreDead(g: Setting, vertices: seq<StateClass>, edges: seq<GraphEdge>, birth: seq<nat>, u: nat)
    requires Complete(g, vertices, edges, birth) && u < |vertices|
    ensures (exists k :: 0 <= k < |edges| && edges[k].source == u)
      <==> exists t: nat :: Enabled(g.net, vertices[u].marking, t)
  {
    assert VertexAt(g, vertices, u);
    if k: nat :| k < |edges| && edges[k].source == u {
      assert EdgeAt(g, vertices, edges, k);
      assert Enabled(g.net, vertices[u].marking, edges[k].firing.transition);
    }
    if t: nat :| Enabled(g.net, vertices[u].marking, t) {
      var w := NoTimelock(g.net, vertices[u], t);
      assert Branched(g, vertices, edges, u, w);
      assert HasEdge(edges, u, w);
    }
  }

  /** path is a chain of edges of the graph from source to target. */
  ghost predicate IsPath(edges: seq<GraphEdge>, source: nat, path: seq<GraphEdge>, target: nat) {
    if path == [] then source == target
    else
      var e := path[|path| - 1];
      e in edges && e.target == target && IsPath(edges, source, path[..|path| - 1], e.source)
  }

  /** Every stored class is reachable from the initial one along edges. */
  lemma {:induction false} VertexReachable(g: Setting, vertices: seq<StateClass>, edges: seq<GraphEdge>,
                                           birth: seq<nat>, v: nat) returns (path: seq<GraphEdge>)
    requires GraphInv(g, vertices, edges, birth) && v < |vertices|
    ensures IsPath(edges, 0, path, v)
  {
    path := [];
    if v > 0 {
      assert BirthAt(g, vertices, edges, birth, v);
      var e := edges[birth[v - 1]];
      path := VertexReachable(g, vertices, edges, birth, e.source);
      assert (path + [e])[..|path|] == path;
      path := path + [e];
    }
  }

  /** No class is stored twice: under equality matching, different vertices stand
      for different sets of configurations; under inclusion matching, no vertex
      lies inside an earlier one. */
  lemma NoDuplicates(g: Setting, vertices: seq<StateClass>, edges: seq<GraphEdge>, birth: seq<nat>, u: nat, v: nat)
    requires GraphInv(g, vertices, edges, birth) && u < v < |vertices|
    ensures !forall c :: InZone(g.net, vertices[u], c) <==> InZone(g.net, vertices[v], c)
    ensures g.mode != Equality ==> exists c :: InZone(g.net, vertices[v], c) && !InZone(g.net, vertices[u], c)
  {
    assert DistinctAt(g, vertices, u, v) && VertexAt(g, vertices, u) && VertexAt(g, vertices, v);
    EqualityMeaning(g.net, vertices[v], vertices[u]);
    InclusionMeaning(g.net, vertices[v], vertices[u]);
  }

  // ------------------------------------------------------------- frozen clocks

  /** t is enabled at s but filtered out: its execution clock is frozen. */
  ghost predicate Frozen(net: Net, s: StateClass, t: nat) {
    IsClass(net, s) && Enabled(net, s.marking, t) && !Active(net, s.marking, t)
  }

  /** The clock range of t in b lies within that in a. */
  ghost predicate RangeShrinks(net: Net, a: StateClass, b: StateClass, t: nat) {
    && IsClass(net, a) && IsClass(net, b) && Enabled(net, a.marking, t) && Enabled(net, b.marking, t)
    && Le(b.zone[0][Row(net, b, t)], a.zone[0][Row(net, a, t)])
    && Le(b.zone[Row(net, b, t)][0], a.zone[Row(net, a, t)][0])
  }

  lemma FrozenElapse(net: Net, s: StateClass, t: nat)
    requires GoodClass(net, s) && Frozen(net, s, t)
    ensures RangeShrinks(net, s, Elapse(net, s), t)
  {
    var e, row, r := Elapse(net, s), Row(net, s, t), RelaxedZone(net, s);
    LayoutFacts(net, s.marking);
    RelaxedFacts(net, s);
    assert Row(net, e, t) == row;
    assert Tighter(e.zone, r);
    assert r[0][row] == s.zone[0][row] && r[row][0] == s.zone[row][0];
    assert Le(e.zone[0][row], r[0][row]) && Le(e.zone[row][0], r[row][0]);
  }

  lemma SuccessorKeepsRange(net: Net, e: StateClass, fired: nat, t: nat)
    requires ValidNet(net) && GoodClass(net, e) && IsFirable(net, e, fired) && fired != t
    requires Enabled(net, e.marking, t) && Enabled(net, FireMarking(net, e.marking, fired), t)
    ensures RangeShrinks(net, e, Successor(net, e, fired), t)
  {
    var s := Successor(net, e, fired);
    var i, row := Row(net, s, t), Row(net, e, t);
    LayoutFacts(net, e.marking);
    LayoutFacts(net, s.marking);
    var f, sigma := Fired(e.zone, Row(net, e, fired), Earliest(net, fired)), SourceMap(s.clockVars, e.clockVars, fired);
    FiredCanonical(e.zone, Row(net, e, fired), Earliest(net, fired));
    assert s.zone == Reindex(f, sigma);
    assert sigma[0] == 0 && sigma[i] == row;
    assert Le(f[0][row], e.zone[0][row]) && Le(f[row][0], e.zone[row][0]);
  }

  lemma FreezeEdge(g: Setting, vertices: seq<StateClass>, e: GraphEdge, t: nat)
    requires ValidSetting(g) && g.mode == Equality && g.extrapolation == Off && GoodEdge(g, vertices, e)
    requires GoodClass(g.net, vertices[e.source]) && Frozen(g.net, vertices[e.source], t)
    requires GoodClass(g.net, vertices[e.target]) && Enabled(g.net, vertices[e.target].marking, t)
    ensures RangeShrinks(g.net, vertices[e.source], vertices[e.target], t)
  {
    EdgeTargetExact(g, vertices, e);
    ElapseGood(g.net, vertices[e.source]);
    FrozenElapse(g.net, vertices[e.source], t);
    SuccessorKeepsRange(g.net, Elapse(g.net, vertices[e.source]), e.firing.transition, t);
  }

  /** While t stays enabled but filtered out, its clock range never widens, along
      any path of an exact graph. */
  lemma {:induction false} FreezeAlong(g: Setting, vertices: seq<StateClass>, edges: seq<GraphEdge>, birth: seq<nat>,
                                       start: nat, path: seq<GraphEdge>, target: nat, t: nat)
    requires GraphInv(g, vertices, edges, birth) && g.mode == Equality && g.extrapolation == Off
    requires start < |vertices| && target < |vertices| && IsPath(edges, start, path, target)
    requires forall e :: e in path ==> e.source < |vertices| && Frozen(g.net, vertices[e.source], t)
    requires Enabled(g.net, vertices[start].marking, t) && Enabled(g.net, vertices[target].marking, t)
    ensures RangeShrinks(g.net, vertices[start], vertices[target], t)
    decreases |path|
  {
    assert VertexAt(g, vertices, start) && VertexAt(g, vertices, target);
    if path != [] {
      var e := path[|path| - 1];
      FreezeAlong(g, vertices, edges, birth, start, path[..|path| - 1], e.source, t);
      var k :| 0 <= k < |edges| && edges[k] == e;
      assert EdgeAt(g, vertices, edges, k) && VertexAt(g, vertices, e.source);
      FreezeEdge(g, vertices, e, t);
      RangeShrinksTwice(g.net, vertices[start], vertices[e.source], vertices[target], t);
    }
  }

  lemma RangeShrinksTwice(net: Net, a: StateClass, b: StateClass, c: StateClass, t: nat)
    requires RangeShrinks(net, a, b, t) && RangeShrinks(net, b, c, t)
    ensures RangeShrinks(net, a, c, t)
  {
  }

  lemma EdgeTargetExact(g: Setting, vertices: seq<StateClass>, e: GraphEdge)
    requires ValidSetting(g) && g.mode == Equality && GoodEdge(g, vertices, e)
    requires GoodClass(g.net, vertices[e.source]) && GoodClass(g.net, vertices[e.target])
    ensures vertices[e.target] == Post(g.net, g.extrapolation, vertices[e.source], e.firing.transition)
  {
  }
}
