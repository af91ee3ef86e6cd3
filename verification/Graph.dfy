/** The state-class graph: matching of classes, and the invariant of the
    exploration that builds it. */
module Graph {
  import opened Bounds
  import opened Zones
  import opened PetriNet
  import opened Scheduling
  import opened StateClasses
  import opened Semantics
  import opened Symbolic

  // ------------------------------------------------------------------- matching

  datatype Mode = Equality | MaxLowerBound | Intersection

  predicate SameLayout(a: StateClass, b: StateClass) {
    a.marking == b.marking && a.clockVars == b.clockVars
  }

  predicate CheckEquality(a: StateClass, b: StateClass) {
    SameLayout(a, b) && a.zone == b.zone
  }

  predicate CheckInclusion(a: StateClass, b: StateClass) {
    SameLayout(a, b) && Tighter(a.zone, b.zone)
  }

  predicate CanMergeInto(candidate: StateClass, existing: StateClass, mode: Mode) {
    if mode == Equality then CheckEquality(candidate, existing) else CheckInclusion(candidate, existing)
  }

  /** Inclusion of classes is inclusion of what they stand for. */
  lemma InclusionMeaning(net: Net, a: StateClass, b: StateClass)
    requires GoodClass(net, a) && GoodClass(net, b)
    ensures CheckInclusion(a, b) <==> forall c :: InZone(net, a, c) ==> InZone(net, b, c)
  {
    if CheckInclusion(a, b) {
      forall c | InZone(net, a, c)
        ensures InZone(net, b, c)
      {
        TighterSat(a.zone, b.zone, Valuation(a.clockVars, c.clocks));
      }
    }
    if forall c :: InZone(net, a, c) ==> InZone(net, b, c) {
      var c := GoodClassInhabited(net, a);
      assert InZone(net, b, c);
      LayoutFacts(net, a.marking);
      forall v | Sat(a.zone, v)
        ensures Sat(b.zone, v)
      {
        InclusionOfValuation(net, a, b, v);
      }
      InclusionIsSemantic(a.zone, b.zone);
    }
  }

  lemma InclusionOfValuation(net: Net, a: StateClass, b: StateClass, v: seq<int>)
    requires GoodClass(net, a) && GoodClass(net, b) && a.marking == b.marking && Sat(a.zone, v)
    requires forall c :: InZone(net, a, c) ==> InZone(net, b, c)
    ensures Sat(b.zone, v)
  {
    LayoutFacts(net, a.marking);
    var w := Shift(v, -v[0]);
    ShiftSat(a.zone, v, -v[0]);
    ConfigOfValuation(net, a, w);
    assert InZone(net, a, ConfigOf(net, a, w));
    assert InZone(net, b, ConfigOf(net, a, w));
    ShiftSat(b.zone, w, v[0]);
    assert Shift(w, v[0]) == v;
  }

  lemma TighterBoth(a: Matrix, b: Matrix)
    requires Tighter(a, b) && Tighter(b, a)
    ensures a == b
  {
    forall i: nat | i < |a|
      ensures a[i] == b[i]
    {
      forall j: nat | j < |a|
        ensures a[i][j] == b[i][j]
      {
        assert Le(a[i][j], b[i][j]) && Le(b[i][j], a[i][j]);
      }
    }
  }

  /** Equality of classes is equality of what they stand for. */
  lemma EqualityMeaning(net: Net, a: StateClass, b: StateClass)
    requires GoodClass(net, a) && GoodClass(net, b)
    ensures CheckEquality(a, b) <==> forall c :: InZone(net, a, c) <==> InZone(net, b, c)
    ensures CheckEquality(a, b) ==> a == b
  {
    InclusionMeaning(net, a, b);
    InclusionMeaning(net, b, a);
    if CheckInclusion(a, b) && CheckInclusion(b, a) {
      TighterBoth(a.zone, b.zone);
    }
  }

  /** Merging loses no configuration. */
  lemma MergeKeeps(net: Net, candidate: StateClass, existing: StateClass, mode: Mode, c: Config)
    requires GoodClass(net, candidate) && GoodClass(net, existing) && CanMergeInto(candidate, existing, mode)
    requires InZone(net, candidate, c)
    ensures InZone(net, existing, c)
  {
    TighterSat(candidate.zone, existing.zone, Valuation(candidate.clockVars, c.clocks));
  }

  // ------------------------------------------------------------ what is explored

  datatype GraphEdge = GraphEdge(source: nat, target: nat, firing: FiringEdge)

  /** What an exploration works with. */
  datatype Setting = Setting(net: Net, mode: Mode, extrapolation: Extrapolation)

  ghost predicate ValidSetting(g: Setting) {
    ValidNet(g.net) && ValidExtrapolation(g.net, g.extrapolation)
  }

  ghost predicate FirableFrom(g: Setting, s: StateClass, t: nat) {
    IsClass(g.net, s) && IsFirable(g.net, Elapse(g.net, s), t)
  }

  ghost function StartClass(g: Setting): StateClass
    requires ValidNet(g.net)
  {
    Extrapolated(g.net, g.extrapolation, InitialClass(g.net))
  }

  /** The edge fires a firable transition of its source and leads to a class that
      the computed successor merges into. */
  ghost predicate GoodEdge(g: Setting, vertices: seq<StateClass>, e: GraphEdge)
    requires ValidNet(g.net)
  {
    && e.source < |vertices| && e.target < |vertices|
    && FirableFrom(g, vertices[e.source], e.firing.transition)
    && e.firing == EdgeOf(g.net, vertices[e.source], e.firing.transition)
    && CanMergeInto(Post(g.net, g.extrapolation, vertices[e.source], e.firing.transition), vertices[e.target], g.mode)
  }

  /** Edge e discovered vertex v. */
  ghost predicate Discovers(g: Setting, vertices: seq<StateClass>, e: GraphEdge, v: nat)
    requires ValidNet(g.net)
  {
    && GoodEdge(g, vertices, e) && e.target == v && e.source < v
    && vertices[v] == Post(g.net, g.extrapolation, vertices[e.source], e.firing.transition)
  }

  ghost predicate HasEdge(edges: seq<GraphEdge>, u: nat, t: nat) {
    exists k :: 0 <= k < |edges| && edges[k].source == u && edges[k].firing.transition == t
  }

  ghost predicate VertexAt(g: Setting, vertices: seq<StateClass>, v: nat) {
    v < |vertices| && GoodClass(g.net, vertices[v])
  }

  /** The exploration starts from the start class (said of every position, so
      that it is only looked at where it is needed). */
  ghost predicate StartAt(g: Setting, vertices: seq<StateClass>, v: nat)
    requires ValidNet(g.net)
  {
    v == 0 && |vertices| > 0 ==> vertices[0] == StartClass(g)
  }

  ghost predicate AllStarts(g: Setting, vertices: seq<StateClass>)
    requires ValidNet(g.net)
  {
    forall v: nat :: StartAt(g, vertices, v)
  }

  ghost predicate EdgeAt(g: Setting, vertices: seq<StateClass>, edges: seq<GraphEdge>, k: nat)
    requires ValidNet(g.net)
  {
    k < |edges| && GoodEdge(g, vertices, edges[k])
  }

  ghost predicate BirthAt(g: Setting, vertices: seq<StateClass>, edges: seq<GraphEdge>, birth: seq<nat>, v: nat)
    requires ValidNet(g.net)
  {
    0 < v <= |birth| && birth[v - 1] < |edges| && Discovers(g, vertices, edges[birth[v - 1]], v)
  }

  ghost predicate DistinctAt(g: Setting, vertices: seq<StateClass>, u: nat, v: nat) {
    u < v < |vertices| ==> !CanMergeInto(vertices[v], vertices[u], g.mode)
  }

  ghost predicate AllVertices(g: Setting, vertices: seq<StateClass>) {
    forall v: nat :: v < |vertices| ==> VertexAt(g, vertices, v)
  }

  ghost predicate AllEdges(g: Setting, vertices: seq<StateClass>, edges: seq<GraphEdge>)
    requires ValidNet(g.net)
  {
    forall k: nat :: k < |edges| ==> EdgeAt(g, vertices, edges, k)
  }

  ghost predicate AllBirths(g: Setting, vertices: seq<StateClass>, edges: seq<GraphEdge>, birth: seq<nat>)
    requires ValidNet(g.net)
  {
    |birth| == |vertices| - 1 && forall v: nat :: 0 < v < |vertices| ==> BirthAt(g, vertices, edges, birth, v)
  }

  ghost predicate AllDistinct(g: Setting, vertices: seq<StateClass>) {
    forall u: nat, v: nat :: DistinctAt(g, vertices, u, v)
  }

  /** The invariant of every exploration: birth[v - 1] is the index of the edge
      that discovered v. */
  ghost predicate GraphInv(g: Setting, vertices: seq<StateClass>, edges: seq<GraphEdge>, birth: seq<nat>) {
    && ValidSetting(g)
    && |vertices| > 0 && AllStarts(g, vertices)
    && AllVertices(g, vertices)
    && AllEdges(g, vertices, edges)
    && AllBirths(g, vertices, edges, birth)
    && AllDistinct(g, vertices)
  }

  lemma StartInv(g: Setting)
    requires ValidSetting(g)
    ensures GraphInv(g, [StartClass(g)], [], [])
  {
    InitialClassGood(g.net);
    ExtrapolatedGood(g.net, g.extrapolation, InitialClass(g.net));
    assert VertexAt(g, [StartClass(g)], 0);
  }

  lemma FirableFacts(g: Setting, s: StateClass, t: nat)
    requires ValidSetting(g) && GoodClass(g.net, s) && FirableFrom(g, s, t)
    ensures Active(g.net, s.marking, t)
    ensures GoodClass(g.net, Post(g.net, g.extrapolation, s, t))
  {
    PostGood(g.net, g.extrapolation, s, t);
  }

  lemma MoreEdges(g: Setting, vertices: seq<StateClass>, more: seq<StateClass>, edges: seq<GraphEdge>, e: GraphEdge)
    requires ValidNet(g.net) && AllEdges(g, vertices, edges) && vertices <= more && GoodEdge(g, more, e)
    ensures AllEdges(g, more, edges + [e])
  {
    forall k: nat | k < |edges + [e]|
      ensures EdgeAt(g, more, edges + [e], k)
    {
      if k < |edges| {
        assert EdgeAt(g, vertices, edges, k);
      }
    }
  }

  lemma SameBirth(g: Setting, vertices: seq<StateClass>, more: seq<StateClass>, edges: seq<GraphEdge>, e: GraphEdge,
                  birth: seq<nat>, next: seq<nat>, v: nat)
    requires ValidNet(g.net) && BirthAt(g, vertices, edges, birth, v) && v < |vertices|
    requires vertices <= more && birth <= next
    ensures BirthAt(g, more, edges + [e], next, v)
  {
  }

  lemma AddEdgeInv(g: Setting, vertices: seq<StateClass>, edges: seq<GraphEdge>, birth: seq<nat>, e: GraphEdge)
    requires GraphInv(g, vertices, edges, birth) && GoodEdge(g, vertices, e)
    ensures GraphInv(g, vertices, edges + [e], birth)
  {
    MoreEdges(g, vertices, vertices, edges, e);
    forall v: nat | 0 < v < |vertices|
      ensures BirthAt(g, vertices, edges + [e], birth, v)
    {
      SameBirth(g, vertices, vertices, edges, e, birth, birth, v);
    }
  }

  ghost predicate MatchAt(g: Setting, vertices: seq<StateClass>, s: StateClass, v: nat) {
    v < |vertices| && CanMergeInto(s, vertices[v], g.mode)
  }

  ghost predicate Unmatched(g: Setting, vertices: seq<StateClass>, s: StateClass) {
    forall v: nat :: !MatchAt(g, vertices, s, v)
  }

  lemma MoreDistinct(g: Setting, vertices: seq<StateClass>, s: StateClass)
    requires AllDistinct(g, vertices) && Unmatched(g, vertices, s)
    ensures AllDistinct(g, vertices + [s])
  {
    forall u: nat, v: nat
      ensures DistinctAt(g, vertices + [s], u, v)
    {
      assert DistinctAt(g, vertices, u, v);
      if u < v == |vertices| {
        assert !MatchAt(g, vertices, s, u);
      }
    }
  }

  lemma AddVertexInv(g: Setting, vertices: seq<StateClass>, edges: seq<GraphEdge>, birth: seq<nat>,
                     u: nat, t: nat, next: StateClass, e: GraphEdge)
    requires GraphInv(g, vertices, edges, birth)
    requires u < |vertices| && FirableFrom(g, vertices[u], t)
    requires next == Post(g.net, g.extrapolation, vertices[u], t) && Unmatched(g, vertices, next)
    requires e == GraphEdge(u, |vertices|, EdgeOf(g.net, vertices[u], t))
    ensures GraphInv(g, vertices + [next], edges + [e], birth + [|edges|])
  {
    var more := vertices + [next];
    assert VertexAt(g, vertices, u);
    FirableFacts(g, vertices[u], t);
    forall v: nat | v < |more|
      ensures VertexAt(g, more, v)
    {
      assert v < |vertices| ==> VertexAt(g, vertices, v);
    }
    assert CanMergeInto(next, next, g.mode);
    assert GoodEdge(g, more, e);
    MoreEdges(g, vertices, more, edges, e);
    forall v: nat | 0 < v < |more|
      ensures BirthAt(g, more, edges + [e], birth + [|edges|], v)
    {
      if v < |vertices| {
        assert BirthAt(g, vertices, edges, birth, v);
        SameBirth(g, vertices, more, edges, e, birth, birth + [|edges|], v);
      } else {
        assert Discovers(g, more, e, v);
      }
    }
    MoreDistinct(g, vertices, next);
    forall v: nat
      ensures StartAt(g, more, v)
    {
      assert StartAt(g, vertices, v);
    }
  }

  lemma HasEdgeGrows(edges: seq<GraphEdge>, more: seq<GraphEdge>, u: nat, t: nat)
    requires HasEdge(edges, u, t) && edges <= more
    ensures HasEdge(more, u, t)
  {
    var k :| 0 <= k < |edges| && edges[k].source == u && edges[k].firing.transition == t;
    assert more[k] == edges[k];
  }

  lemma HasLastEdge(edges: seq<GraphEdge>, e: GraphEdge)
    ensures HasEdge(edges + [e], e.source, e.firing.transition)
  {
    assert (edges + [e])[|edges|] == e;
  }

  /** t has its edge out of u if it needs one. */
  ghost predicate Branched(g: Setting, vertices: seq<StateClass>, edges: seq<GraphEdge>, u: nat, t: nat) {
    u < |vertices| && (FirableFrom(g, vertices[u], t) ==> HasEdge(edges, u, t))
  }

  lemma BranchedGrows(g: Setting, vertices: seq<StateClass>, more: seq<StateClass>,
                      edges: seq<GraphEdge>, moreEdges: seq<GraphEdge>, u: nat, t: nat)
    requires Branched(g, vertices, edges, u, t) && vertices <= more && edges <= moreEdges
    ensures Branched(g, more, moreEdges, u, t)
  {
    if FirableFrom(g, more[u], t) {
      HasEdgeGrows(edges, moreEdges, u, t);
    }
  }

  /** Every firable transition of u has its edge. */
  ghost predicate Expanded(g: Setting, vertices: seq<StateClass>, edges: seq<GraphEdge>, u: nat) {
    forall t: nat :: Branched(g, vertices, edges, u, t)
  }

  /** The listed transitions have their edges out of u. */
  ghost predicate BranchedOver(g: Setting, vertices: seq<StateClass>, edges: seq<GraphEdge>, u: nat, ts: seq<nat>) {
    forall t: nat :: t in ts ==> Branched(g, vertices, edges, u, t)
  }

  lemma BranchedOverStep(g: Setting, vertices: seq<StateClass>, more: seq<StateClass>,
                         edges: seq<GraphEdge>, moreEdges: seq<GraphEdge>, u: nat, ts: seq<nat>, k: nat)
    requires k < |ts| && BranchedOver(g, vertices, edges, u, ts[..k]) && Branched(g, more, moreEdges, u, ts[k])
    requires vertices <= more && edges <= moreEdges
    ensures BranchedOver(g, more, moreEdges, u, ts[..k + 1])
  {
    forall t: nat | t in ts[..k + 1]
      ensures Branched(g, more, moreEdges, u, t)
    {
      if t in ts[..k] {
        BranchedGrows(g, vertices, more, edges, moreEdges, u, t);
      }
    }
  }

  /** Only active transitions are firable. */
  lemma AllBranched(g: Setting, vertices: seq<StateClass>, edges: seq<GraphEdge>, u: nat)
    requires u < |vertices| && IsClass(g.net, vertices[u])
    requires BranchedOver(g, vertices, edges, u, vertices[u].priorityEnabled)
    ensures Expanded(g, vertices, edges, u)
  {
    forall t: nat
      ensures Branched(g, vertices, edges, u, t)
    {
      if FirableFrom(g, vertices[u], t) {
        assert t in vertices[u].priorityEnabled;
      }
    }
  }

  /** The first n vertices are expanded. */
  ghost predicate AllExpanded(g: Setting, vertices: seq<StateClass>, edges: seq<GraphEdge>, n: nat) {
    forall u: nat, t: nat :: u < n ==> Branched(g, vertices, edges, u, t)
  }

  lemma AllExpandedStep(g: Setting, vertices: seq<StateClass>, more: seq<StateClass>,
                        edges: seq<GraphEdge>, moreEdges: seq<GraphEdge>, n: nat)
    requires AllExpanded(g, vertices, edges, n) && vertices <= more && edges <= moreEdges
    requires Expanded(g, more, moreEdges, n)
    ensures AllExpanded(g, more, moreEdges, n + 1)
  {
    forall u: nat, t: nat | u < n + 1
      ensures Branched(g, more, moreEdges, u, t)
    {
      if u < n {
        BranchedGrows(g, vertices, more, edges, moreEdges, u, t);
      }
    }
  }

  /** An exploration that was not cut short. */
  ghost predicate Complete(g: Setting, vertices: seq<StateClass>, edges: seq<GraphEdge>, birth: seq<nat>) {
    var graph, expanded := GraphInv(g, vertices, edges, birth), AllExpanded(g, vertices, edges, |vertices|);
    graph && expanded
  }
}
