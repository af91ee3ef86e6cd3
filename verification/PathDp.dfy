/** The longest and shortest completing paths of one task: a memoised depth-first
    search with three colours. */
module PathDp {
  import opened Adjacency
  import opened Bounds

  datatype DPResult = DPResult(reachable: bool, infinite: bool, value: int)

  const NONE: DPResult := DPResult(false, false, 0)

  function CombineMax(a: DPResult, b: DPResult): DPResult {
    if !a.reachable then b
    else if !b.reachable then a
    else if a.infinite || b.infinite then DPResult(true, true, 0)
    else DPResult(true, false, Max(a.value, b.value))
  }

  function CombineMin(a: DPResult, b: DPResult): DPResult {
    if !a.reachable then b
    else if !b.reachable then a
    else if a.infinite && b.infinite then DPResult(true, true, 0)
    else if a.infinite then b
    else if b.infinite then a
    else DPResult(true, false, if a.value < b.value then a.value else b.value)
  }

  function ToResult(w: Bound): DPResult {
    if w.Inf? then DPResult(true, true, 0) else DPResult(true, false, w.v)
  }

  /** The length that a reachable result stands for. */
  function ToLength(r: DPResult): Bound {
    if r.infinite then Inf else Fin(r.value)
  }

  datatype Color = White | Gray | Black

  /** What the search is about: the graph, the weights, and the task. */
  datatype Problem = Problem(
    out: seq<seq<Edge>>,
    weight: (nat, Edge) -> Bound,
    completes: (nat, Edge) -> bool,
    inFlight: nat -> bool)

  ghost predicate ValidProblem(p: Problem) {
    ValidOut(p.out)
  }

  // ---------------------------------------------------------------------- paths

  ghost predicate Completing(p: Problem, v: nat, e: Edge) {
    v < |p.out| && e in p.out[v] && p.completes(v, e)
  }

  ghost predicate Continuing(p: Problem, v: nat, e: Edge) {
    v < |p.out| && e in p.out[v] && !p.completes(v, e) && p.inFlight(e.target)
  }

  /** A path through in-flight states whose last edge completes the task. */
  datatype Path = Last(edge: Edge) | Then(edge: Edge, rest: Path)

  ghost predicate IsCompleting(p: Problem, v: nat, path: Path)
    decreases path
  {
    match path
    case Last(e) => Completing(p, v, e)
    case Then(e, rest) => Continuing(p, v, e) && IsCompleting(p, e.target, rest)
  }

  ghost function Length(p: Problem, v: nat, path: Path): Bound
    decreases path
  {
    match path
    case Last(e) => p.weight(v, e)
    case Then(e, rest) => Add(p.weight(v, e), Length(p, e.target, rest))
  }

  /** walk leads from v to u along continuing edges. */
  ghost predicate IsWalk(p: Problem, v: nat, walk: seq<Edge>, u: nat)
    decreases |walk|
  {
    if walk == [] then v == u
    else Continuing(p, v, walk[0]) && IsWalk(p, walk[0].target, walk[1..], u)
  }

  lemma {:induction false} WalkAppend(p: Problem, v: nat, a: seq<Edge>, u: nat, b: seq<Edge>, w: nat)
    requires IsWalk(p, v, a, u) && IsWalk(p, u, b, w)
    ensures IsWalk(p, v, a + b, w)
    decreases |a|
  {
    if a == [] {
      assert a + b == b;
    } else {
      WalkAppend(p, a[0].target, a[1..], u, b, w);
      assert (a + b)[1..] == a[1..] + b;
    }
  }

  ghost predicate Leads(p: Problem, v: nat, u: nat) {
    exists walk :: IsWalk(p, v, walk, u)
  }

  lemma LeadsSelf(p: Problem, v: nat)
    ensures Leads(p, v, v)
  {
    assert IsWalk(p, v, [], v);
  }

  lemma LeadsOn(p: Problem, v: nat, u: nat, e: Edge)
    requires Leads(p, v, u) && Continuing(p, u, e)
    ensures Leads(p, v, e.target)
  {
    var walk :| IsWalk(p, v, walk, u);
    assert [e][1..] == [];
    assert IsWalk(p, u, [e], e.target);
    WalkAppend(p, v, walk, u, [e], e.target);
  }

  /** A cycle of in-flight states passes through u. */
  ghost predicate OnCycle(p: Problem, u: nat) {
    exists e :: Continuing(p, u, e) && Leads(p, e.target, u)
  }

  ghost predicate CycleAhead(p: Problem, v: nat) {
    exists u :: Leads(p, v, u) && OnCycle(p, u)
  }

  ghost predicate EndlessPath(p: Problem, v: nat) {
    exists path :: IsCompleting(p, v, path) && Length(p, v, path).Inf?
  }

  /** The task can be delayed without bound from v. */
  ghost predicate Unbounded(p: Problem, v: nat) {
    CycleAhead(p, v) || EndlessPath(p, v)
  }

  lemma UnboundedBefore(p: Problem, v: nat, e: Edge)
    requires Continuing(p, v, e) && Unbounded(p, e.target)
    ensures Unbounded(p, v)
  {
    if CycleAhead(p, e.target) {
      var u :| Leads(p, e.target, u) && OnCycle(p, u);
      var walk :| IsWalk(p, e.target, walk, u);
      assert ([e] + walk)[1..] == walk;
      assert IsWalk(p, v, [e] + walk, u);
    } else {
      var path :| IsCompleting(p, e.target, path) && Length(p, e.target, path).Inf?;
      assert IsCompleting(p, v, Then(e, path)) && Length(p, v, Then(e, path)).Inf?;
    }
  }

  lemma CycleBefore(p: Problem, v: nat, e: Edge)
    requires Continuing(p, v, e) && Leads(p, e.target, v)
    ensures CycleAhead(p, v)
  {
    LeadsSelf(p, v);
    assert OnCycle(p, v);
  }

  // ------------------------------------------------------------------ invariants

  /** What the search knows: colours, memo table, and the order of finishing. */
  datatype Known = Known(color: seq<Color>, memo: seq<DPResult>, finish: seq<nat>)

  ghost predicate Sized(p: Problem, s: Known) {
    |s.color| == |s.memo| == |s.finish| == |p.out|
  }

  /** r accounts for edge e out of v, in the maximising search: unless r is
      infinite, targets are finished earlier, finite, and r is long enough. */
  ghost predicate MaxAccounts(p: Problem, s: Known, v: nat, r: DPResult, e: Edge, rank: nat)
    requires Sized(p, s)
  {
    r.infinite ||
    (&& (Completing(p, v, e) ==> r.reachable && Le(p.weight(v, e), Fin(r.value)))
     && (Continuing(p, v, e) && e.target < |p.out| ==>
           && s.color[e.target] == Black && s.finish[e.target] < rank && !s.memo[e.target].infinite
           && (s.memo[e.target].reachable ==>
                 r.reachable && Le(Add(p.weight(v, e), Fin(s.memo[e.target].value)), Fin(r.value)))))
  }

  /** Finite results are lengths of real paths; infinite ones are justified. */
  ghost predicate MaxJustified(p: Problem, v: nat, r: DPResult) {
    && (r.reachable && !r.infinite ==> HasPath(p, v, Fin(r.value)))
    && (r.infinite ==> r.reachable && Unbounded(p, v))
  }

  ghost predicate HasPath(p: Problem, v: nat, length: Bound) {
    exists path :: IsCompleting(p, v, path) && Length(p, v, path) == length
  }

  /** The same for the minimising search, where no cycle lies ahead. */
  ghost predicate MinAccounts(p: Problem, s: Known, v: nat, r: DPResult, e: Edge)
    requires Sized(p, s)
  {
    !CycleAhead(p, v) ==>
    && (Completing(p, v, e) ==> r.reachable && Le(ToLength(r), p.weight(v, e)))
    && (Continuing(p, v, e) && e.target < |p.out| ==>
          && s.color[e.target] == Black
          && (s.memo[e.target].reachable ==>
                r.reachable && Le(ToLength(r), Add(p.weight(v, e), ToLength(s.memo[e.target])))))
  }

  ghost predicate MinJustified(p: Problem, v: nat, r: DPResult) {
    r.reachable ==> HasPath(p, v, ToLength(r))
  }

  ghost predicate Accounts(p: Problem, s: Known, maximize: bool, v: nat, r: DPResult, e: Edge, rank: nat)
    requires Sized(p, s)
  {
    if maximize then MaxAccounts(p, s, v, r, e, rank) else MinAccounts(p, s, v, r, e)
  }

  ghost predicate Justified(p: Problem, maximize: bool, v: nat, r: DPResult) {
    if maximize then MaxJustified(p, v, r) else MinJustified(p, v, r)
  }

  ghost predicate Settled(p: Problem, s: Known, maximize: bool, v: nat)
    requires Sized(p, s) && v < |p.out|
  {
    s.color[v] == Black ==>
      && Justified(p, maximize, v, s.memo[v])
      && forall k: nat :: k < |p.out[v]| ==> AccountsAt(p, s, maximize, v, s.memo[v], k, s.finish[v])
  }

  ghost predicate AccountsAt(p: Problem, s: Known, maximize: bool, v: nat, r: DPResult, k: nat, rank: nat)
    requires Sized(p, s) && v < |p.out|
  {
    k < |p.out[v]| ==> Accounts(p, s, maximize, v, r, p.out[v][k], rank)
  }

  ghost predicate AllSettled(p: Problem, s: Known, maximize: bool) {
    Sized(p, s) && forall v: nat :: v < |p.out| ==> Settled(p, s, maximize, v)
  }

  /** Later knowledge: finished vertices stay as they are, and the vertices under
      construction are the same. */
  ghost predicate Extends(p: Problem, before: Known, after: Known) {
    && Sized(p, before) && Sized(p, after)
    && forall v: nat :: v < |p.out| ==> SameAt(before, after, v)
  }

  ghost predicate SameAt(before: Known, after: Known, v: nat) {
    v < |before.color| && v < |before.memo| && v < |before.finish| &&
    v < |after.color| && v < |after.memo| && v < |after.finish| ==>
      && (before.color[v] == Black ==>
            after.color[v] == Black && after.memo[v] == before.memo[v] && after.finish[v] == before.finish[v])
      && (before.color[v] == Gray <==> after.color[v] == Gray)
  }

  /** Every vertex under construction leads to v. */
  ghost predicate GraysLeadTo(p: Problem, s: Known, v: nat) {
    forall g: nat :: g < |s.color| && s.color[g] == Gray ==> Leads(p, g, v)
  }

  ghost function Whites(color: seq<Color>): (r: set<nat>)
    ensures forall v: nat {:trigger v in r} :: v in r <==> v < |color| && color[v] == White
  {
    WhitesBelow(color, |color|)
  }

  ghost function WhitesBelow(color: seq<Color>, n: nat): (r: set<nat>)
    requires n <= |color|
    ensures forall v: nat {:trigger v in r} :: v in r <==> v < n && color[v] == White
  {
    if n == 0 then {} else WhitesBelow(color, n - 1) + if color[n - 1] == White then {n - 1} else {}
  }

  // ------------------------------------------------------------- what follows

  /** A finite result of the maximising search bounds every completing path. */
  lemma {:induction false} MaxBounds(p: Problem, s: Known, v: nat, path: Path)
    requires ValidProblem(p) && AllSettled(p, s, true) && v < |p.out| && s.color[v] == Black && !s.memo[v].infinite
    requires IsCompleting(p, v, path)
    ensures s.memo[v].reachable && Le(Length(p, v, path), Fin(s.memo[v].value))
    decreases path
  {
    var e := path.edge;
    var k: nat :| k < |p.out[v]| && p.out[v][k] == e;
    assert Settled(p, s, true, v) && AccountsAt(p, s, true, v, s.memo[v], k, s.finish[v]);
    if path.Then? {
      MaxBounds(p, s, e.target, path.rest);
    }
  }

  /** Around finite results the finishing order decreases along edges. */
  lemma {:induction false} FiniteAhead(p: Problem, s: Known, v: nat, walk: seq<Edge>, u: nat)
    requires ValidProblem(p) && AllSettled(p, s, true) && v < |p.out| && s.color[v] == Black && !s.memo[v].infinite
    requires IsWalk(p, v, walk, u)
    ensures u < |p.out| && s.color[u] == Black && !s.memo[u].infinite
    ensures s.finish[u] <= s.finish[v] && (walk != [] ==> s.finish[u] < s.finish[v])
    decreases |walk|
  {
    if walk != [] {
      var e := walk[0];
      var k: nat :| k < |p.out[v]| && p.out[v][k] == e;
      assert TargetAt(p.out, v, k) && Settled(p, s, true, v);
      assert AccountsAt(p, s, true, v, s.memo[v], k, s.finish[v]);
      FiniteAhead(p, s, e.target, walk[1..], u);
    }
  }

  lemma FiniteAcyclic(p: Problem, s: Known, v: nat)
    requires ValidProblem(p) && AllSettled(p, s, true) && v < |p.out| && s.color[v] == Black && !s.memo[v].infinite
    ensures !CycleAhead(p, v)
  {
    if CycleAhead(p, v) {
      var u :| Leads(p, v, u) && OnCycle(p, u);
      var walk :| IsWalk(p, v, walk, u);
      FiniteAhead(p, s, v, walk, u);
      var e :| Continuing(p, u, e) && Leads(p, e.target, u);
      var back :| IsWalk(p, e.target, back, u);
      assert ([e] + back)[1..] == back;
      FiniteAhead(p, s, u, [e] + back, u);
    }
  }

  /** The result of the minimising search is below every completing path. */
  lemma {:induction false} MinBounds(p: Problem, s: Known, v: nat, path: Path)
    requires ValidProblem(p) && AllSettled(p, s, false) && v < |p.out| && s.color[v] == Black
    requires !CycleAhead(p, v) && IsCompleting(p, v, path)
    ensures s.memo[v].reachable && Le(ToLength(s.memo[v]), Length(p, v, path))
    decreases path
  {
    var e := path.edge;
    var k: nat :| k < |p.out[v]| && p.out[v][k] == e;
    assert Settled(p, s, false, v) && AccountsAt(p, s, false, v, s.memo[v], k, s.finish[v]);
    if path.Then? {
      CycleAheadBefore(p, v, e);
      MinBounds(p, s, e.target, path.rest);
    }
  }

  /** What a longest-path result r for v means. */
  ghost predicate IsLongest(p: Problem, v: nat, r: DPResult) {
    && (r.infinite <==> Unbounded(p, v))
    && (r.infinite ==> r.reachable)
    && (!r.infinite ==> (r.reachable <==> exists path :: IsCompleting(p, v, path)))
    && (!r.infinite ==> forall path :: IsCompleting(p, v, path) ==> Le(Length(p, v, path), Fin(r.value)))
    && (!r.infinite && r.reachable ==> HasPath(p, v, Fin(r.value)))
  }

  ghost predicate BelowFrom(p: Problem, v: nat, r: DPResult) {
    forall path :: IsCompleting(p, v, path) ==> r.reachable && Le(ToLength(r), Length(p, v, path))
  }

  /** What a shortest-path result r for v means: always the length of a path,
      and of a shortest one where no cycle lies ahead. */
  ghost predicate IsShortest(p: Problem, v: nat, r: DPResult) {
    && (r.reachable ==> HasPath(p, v, ToLength(r)))
    && (!CycleAhead(p, v) ==> BelowFrom(p, v, r))
  }

  lemma SettledMeans(p: Problem, s: Known, maximize: bool, v: nat)
    requires ValidProblem(p) && AllSettled(p, s, maximize) && v < |p.out| && s.color[v] == Black
    ensures maximize ==> IsLongest(p, v, s.memo[v])
    ensures !maximize ==> IsShortest(p, v, s.memo[v])
  {
    var r := s.memo[v];
    assert Settled(p, s, maximize, v);
    if maximize && !r.infinite {
      FiniteAcyclic(p, s, v);
      forall path | IsCompleting(p, v, path)
        ensures r.reachable && Le(Length(p, v, path), Fin(r.value))
      {
        MaxBounds(p, s, v, path);
      }
    }
    if !maximize && !CycleAhead(p, v) {
      forall path | IsCompleting(p, v, path)
        ensures r.reachable && Le(ToLength(r), Length(p, v, path))
      {
        MinBounds(p, s, v, path);
      }
    }
  }

  // -------------------------------------------------------------- one edge at a time

  /** The candidate that edge e contributes, given the result of its target. */
  function Candidate(w: Bound, sub: DPResult): DPResult {
    if w.Inf? || sub.infinite then DPResult(true, true, 0) else DPResult(true, false, w.v + sub.value)
  }

  function Combine(maximize: bool, a: DPResult, b: DPResult): DPResult {
    if maximize then CombineMax(a, b) else CombineMin(a, b)
  }

  /** The best result so far covers the first k edges of v. */
  ghost predicate Partial(p: Problem, s: Known, maximize: bool, v: nat, best: DPResult, k: nat, rank: nat) {
    && Sized(p, s) && v < |p.out| && k <= |p.out[v]|
    && Justified(p, maximize, v, best) && Plain(best)
    && forall j: nat :: j < k ==> AccountsAt(p, s, maximize, v, best, j, rank)
  }

  /** Results as the search builds them. */
  predicate Plain(r: DPResult) {
    r.reachable || r == NONE
  }

  lemma PartialKeeps(p: Problem, s: Known, t: Known, maximize: bool, v: nat, best: DPResult, more: DPResult, k: nat,
                     rank: nat, later: nat)
    requires ValidProblem(p) && Partial(p, s, maximize, v, best, k, rank) && Extends(p, s, t) && rank <= later
    requires Justified(p, maximize, v, more) && Plain(more)
    ensures Partial(p, t, maximize, v, Combine(maximize, best, more), k, later)
    ensures Combine(maximize, best, NONE) == best
  {
    var r := Combine(maximize, best, more);
    forall j: nat | j < k
      ensures AccountsAt(p, t, maximize, v, r, j, later)
    {
      assert AccountsAt(p, s, maximize, v, best, j, rank);
      assert SameAt(s, t, p.out[v][j].target);
    }
  }

  /** A completing edge. */
  lemma CompletingStep(p: Problem, s: Known, maximize: bool, v: nat, best: DPResult, k: nat, rank: nat)
    requires ValidProblem(p) && Partial(p, s, maximize, v, best, k, rank) && k < |p.out[v]|
    requires Completing(p, v, p.out[v][k])
    ensures Partial(p, s, maximize, v, Combine(maximize, best, ToResult(p.weight(v, p.out[v][k]))), k + 1, rank)
  {
    var e := p.out[v][k];
    var cand := ToResult(p.weight(v, e));
    assert IsCompleting(p, v, Last(e)) && Length(p, v, Last(e)) == p.weight(v, e);
    PartialKeeps(p, s, s, maximize, v, best, cand, k, rank, rank);
    assert AccountsAt(p, s, maximize, v, Combine(maximize, best, cand), k, rank);
  }

  /** An edge that neither completes nor stays in flight. */
  lemma LeavingStep(p: Problem, s: Known, maximize: bool, v: nat, best: DPResult, k: nat, rank: nat)
    requires Partial(p, s, maximize, v, best, k, rank) && k < |p.out[v]|
    requires !Completing(p, v, p.out[v][k]) && !Continuing(p, v, p.out[v][k])
    ensures Partial(p, s, maximize, v, best, k + 1, rank)
  {
    assert AccountsAt(p, s, maximize, v, best, k, rank);
  }

  /** A continuing edge whose target is finished. */
  lemma FinishedStep(p: Problem, s: Known, t: Known, maximize: bool, v: nat, best: DPResult, k: nat,
                     rank: nat, later: nat)
    requires ValidProblem(p) && Partial(p, s, maximize, v, best, k, rank) && k < |p.out[v]|
    requires Extends(p, s, t) && AllSettled(p, t, maximize) && Continuing(p, v, p.out[v][k]) && rank <= later
    requires var u := p.out[v][k].target; u < |p.out| && t.color[u] == Black && t.finish[u] < later
    ensures
      var u := p.out[v][k].target;
      var next := if t.memo[u].reachable then Combine(maximize, best, Candidate(p.weight(v, p.out[v][k]), t.memo[u]))
        else best;
      Partial(p, t, maximize, v, next, k + 1, later)
  {
    var e := p.out[v][k];
    var u := e.target;
    var sub, w := t.memo[u], p.weight(v, e);
    assert Settled(p, t, maximize, u);
    var cand := if sub.reachable then Candidate(w, sub) else NONE;
    if sub.reachable {
      CandidateJustified(p, maximize, v, e, sub);
    }
    PartialKeeps(p, s, t, maximize, v, best, cand, k, rank, later);
    assert AccountsAt(p, t, maximize, v, Combine(maximize, best, cand), k, later);
  }

  lemma CandidateJustified(p: Problem, maximize: bool, v: nat, e: Edge, sub: DPResult)
    requires Continuing(p, v, e) && sub.reachable && Justified(p, maximize, e.target, sub)
    ensures Justified(p, maximize, v, Candidate(p.weight(v, e), sub))
  {
    if sub.infinite && maximize {
      UnboundedBefore(p, v, e);
    } else {
      var path :| IsCompleting(p, e.target, path) && Length(p, e.target, path) == ToLength(sub);
      assert IsCompleting(p, v, Then(e, path)) && Length(p, v, Then(e, path)) == Add(p.weight(v, e), ToLength(sub));
    }
  }

  /** What a vertex under construction contributes. */
  function OfCycle(maximize: bool): DPResult {
    if maximize then DPResult(true, true, 0) else NONE
  }

  /** A continuing edge back to a vertex under construction. */
  lemma GrayStep(p: Problem, s: Known, maximize: bool, v: nat, best: DPResult, k: nat, rank: nat)
    requires ValidProblem(p) && Partial(p, s, maximize, v, best, k, rank) && k < |p.out[v]|
    requires Continuing(p, v, p.out[v][k]) && Leads(p, p.out[v][k].target, v)
    ensures Partial(p, s, maximize, v, Combine(maximize, best, OfCycle(maximize)), k + 1, rank)
  {
    var cand := OfCycle(maximize);
    CycleBefore(p, v, p.out[v][k]);
    PartialKeeps(p, s, s, maximize, v, best, cand, k, rank, rank);
    assert AccountsAt(p, s, maximize, v, Combine(maximize, best, cand), k, rank);
  }

  /** Starting on a white vertex. */
  lemma StartVertex(p: Problem, s: Known, maximize: bool, v: nat, rank: nat)
    requires AllSettled(p, s, maximize) && v < |p.out| && s.color[v] == White
    ensures
      var t := s.(color := s.color[v := Gray]);
      AllSettled(p, t, maximize) && Partial(p, t, maximize, v, NONE, 0, rank)
  {
    var t := s.(color := s.color[v := Gray]);
    forall u: nat | u < |p.out|
      ensures Settled(p, t, maximize, u)
    {
      assert Settled(p, s, maximize, u);
      if t.color[u] == Black {
        forall k: nat | k < |p.out[u]|
          ensures AccountsAt(p, t, maximize, u, t.memo[u], k, t.finish[u])
        {
          assert AccountsAt(p, s, maximize, u, s.memo[u], k, s.finish[u]);
        }
      }
    }
  }

  /** Finishing a vertex whose edges are all accounted for. */
  lemma FinishVertex(p: Problem, s: Known, maximize: bool, v: nat, best: DPResult, rank: nat)
    requires AllSettled(p, s, maximize) && v < |p.out| && s.color[v] == Gray
    requires Partial(p, s, maximize, v, best, |p.out[v]|, rank)
    ensures
      var t := Known(s.color[v := Black], s.memo[v := best], s.finish[v := rank]);
      AllSettled(p, t, maximize)
  {
    var t := Known(s.color[v := Black], s.memo[v := best], s.finish[v := rank]);
    forall u: nat | u < |p.out|
      ensures Settled(p, t, maximize, u)
    {
      assert Settled(p, s, maximize, u);
      if t.color[u] == Black {
        forall k: nat | k < |p.out[u]|
          ensures AccountsAt(p, t, maximize, u, t.memo[u], k, t.finish[u])
        {
          if u == v {
            assert AccountsAt(p, s, maximize, v, best, k, rank);
          } else {
            assert AccountsAt(p, s, maximize, u, s.memo[u], k, s.finish[u]);
          }
        }
      }
    }
  }

  lemma ExtendsTwice(p: Problem, s: Known, t: Known, u: Known)
    requires Extends(p, s, t) && Extends(p, t, u)
    ensures Extends(p, s, u)
  {
    forall v: nat | v < |p.out|
      ensures SameAt(s, u, v)
    {
      assert SameAt(s, t, v) && SameAt(t, u, v);
    }
  }

  lemma GraysStart(p: Problem, s: Known, v: nat)
    requires Sized(p, s) && v < |p.out| && GraysLeadTo(p, s, v)
    ensures var t := s.(color := s.color[v := Gray]); GraysLeadTo(p, t, v) && Extends(p, t, t)
  {
    LeadsSelf(p, v);
  }

  lemma GraysKept(p: Problem, s: Known, t: Known, v: nat)
    requires Extends(p, s, t) && v < |p.out| && s.color[v] == Gray && GraysLeadTo(p, s, v)
    ensures t.color[v] == Gray && GraysLeadTo(p, t, v)
  {
    assert SameAt(s, t, v);
    forall g: nat | g < |t.color| && t.color[g] == Gray
      ensures Leads(p, g, v)
    {
      assert SameAt(s, t, g);
    }
  }

  lemma FinishExtends(p: Problem, s: Known, t: Known, v: nat, best: DPResult, rank: nat)
    requires Sized(p, s) && v < |p.out| && s.color[v] == White && Extends(p, s.(color := s.color[v := Gray]), t)
    ensures Extends(p, s, Known(t.color[v := Black], t.memo[v := best], t.finish[v := rank]))
  {
    var u := Known(t.color[v := Black], t.memo[v := best], t.finish[v := rank]);
    forall x: nat | x < |p.out|
      ensures SameAt(s, u, x)
    {
      assert SameAt(s.(color := s.color[v := Gray]), t, x);
    }
  }

  lemma CycleAheadBefore(p: Problem, v: nat, e: Edge)
    requires Continuing(p, v, e)
    ensures CycleAhead(p, e.target) ==> CycleAhead(p, v)
  {
    if CycleAhead(p, e.target) {
      var u :| Leads(p, e.target, u) && OnCycle(p, u);
      var walk :| IsWalk(p, e.target, walk, u);
      assert ([e] + walk)[1..] == walk;
      assert IsWalk(p, v, [e] + walk, u);
    }
  }

  /** What a continuing edge out of a vertex under construction leads to. */
  lemma EdgeAhead(p: Problem, s: Known, v: nat, e: Edge)
    requires GraysLeadTo(p, s, v) && Continuing(p, v, e)
    ensures GraysLeadTo(p, s, e.target)
    ensures e.target < |s.color| && s.color[e.target] == Gray ==> Leads(p, e.target, v)
  {
    forall g: nat | g < |s.color| && s.color[g] == Gray
      ensures Leads(p, g, e.target)
    {
      LeadsOn(p, g, v, e);
    }
  }

  // ----------------------------------------------------------- the search as a function

  /** Colours and results, and the edges whose target was found under construction. */
  datatype Memory = Memory(color: seq<Color>, memo: seq<DPResult>, skipped: set<(nat, Edge)>)

  /** What the search returns at v, and what it remembers then. */
  ghost function Search(p: Problem, maximize: bool, s: Memory, v: nat): (r: (DPResult, Memory))
    requires ValidProblem(p) && |s.color| == |s.memo| == |p.out| && v < |p.out|
    ensures |r.1.color| == |r.1.memo| == |p.out| && Whites(r.1.color) <= Whites(s.color)
    decreases Whites(s.color), 0, 0
  {
    if s.color[v] == Black then (s.memo[v], s)
    else if s.color[v] == Gray then (OfCycle(maximize), s)
    else
      assert v in Whites(s.color) && v !in Whites(s.color[v := Gray]);
      var t := SearchEdges(p, maximize, s.(color := s.color[v := Gray]), v, 0, NONE);
      (t.0, Memory(t.1.color[v := Black], t.1.memo[v := t.0], t.1.skipped))
  }

  /** From edge k of v on. */
  ghost function SearchEdges(p: Problem, maximize: bool, s: Memory, v: nat, k: nat, best: DPResult)
    : (r: (DPResult, Memory))
    requires ValidProblem(p) && |s.color| == |s.memo| == |p.out| && v < |p.out| && k <= |p.out[v]|
    ensures |r.1.color| == |r.1.memo| == |p.out| && Whites(r.1.color) <= Whites(s.color)
    decreases Whites(s.color), 1, |p.out[v]| - k
  {
    if k == |p.out[v]| then (best, s)
    else
      var t := SearchEdge(p, maximize, s, v, k, best);
      SearchEdges(p, maximize, t.1, v, k + 1, t.0)
  }

  ghost function SearchEdge(p: Problem, maximize: bool, s: Memory, v: nat, k: nat, best: DPResult)
    : (r: (DPResult, Memory))
    requires ValidProblem(p) && |s.color| == |s.memo| == |p.out| && v < |p.out| && k < |p.out[v]|
    ensures |r.1.color| == |r.1.memo| == |p.out| && Whites(r.1.color) <= Whites(s.color)
    decreases Whites(s.color), 1, 0
  {
    var e := p.out[v][k];
    assert TargetAt(p.out, v, k);
    if p.completes(v, e) then (Combine(maximize, best, ToResult(p.weight(v, e))), s)
    else if p.inFlight(e.target) then
      var t := Search(p, maximize, s, e.target);
      (if t.0.reachable then Combine(maximize, best, Candidate(p.weight(v, e), t.0)) else best,
       if s.color[e.target] == Gray then t.1.(skipped := t.1.skipped + {(v, e)}) else t.1)
    else (best, s)
  }

  /** One search after the other from all starting vertices. */
  ghost function SearchAll(p: Problem, maximize: bool, starts: seq<nat>): (r: (DPResult, Memory))
    requires ValidProblem(p) && forall i :: 0 <= i < |starts| ==> starts[i] < |p.out|
    ensures |r.1.color| == |r.1.memo| == |p.out|
  {
    if starts == [] then (NONE, Memory(seq(|p.out|, _ => White), seq(|p.out|, _ => NONE), {}))
    else
      var before := SearchAll(p, maximize, starts[..|starts| - 1]);
      var t := Search(p, maximize, before.1, starts[|starts| - 1]);
      (if t.0.reachable then Combine(maximize, before.0, t.0) else before.0, t.1)
  }

  class PathSearch {
    const p: Problem
    const maximize: bool

    var memo: seq<DPResult>
    var color: seq<Color>
    ghost var finish: seq<nat>
    ghost var clock: nat
    ghost var skipped: set<(nat, Edge)>

    constructor (p: Problem, maximize: bool)
      requires ValidProblem(p)
      ensures this.p == p && this.maximize == maximize
      ensures Valid() && forall v :: 0 <= v < |color| ==> color[v] == White
      ensures Remembers() == Memory(seq(|p.out|, _ => White), seq(|p.out|, _ => NONE), {})
    {
      var n := |p.out|;
      this.p, this.maximize := p, maximize;
      memo, color := seq(n, _ => NONE), seq(n, _ => White);
      finish, clock, skipped := seq(n, _ => 0), 0, {};
    }

    ghost function Knows(): Known
      reads this
    {
      Known(color, memo, finish)
    }

    ghost predicate Valid()
      reads this
    {
      var settled := AllSettled(p, Knows(), maximize);
      && ValidProblem(p) && Sized(p, Knows()) && settled
      && forall v :: 0 <= v < |color| && color[v] == Black ==> finish[v] < clock
    }

    ghost function Remembers(): Memory
      reads this
    {
      Memory(color, memo, skipped)
    }

    /** A vertex under construction means a cycle: unbounded for the longest path,
        ignored for the shortest. */
    method Dfs(v: nat) returns (r: DPResult)
      requires Valid() && v < |p.out| && GraysLeadTo(p, Knows(), v)
      modifies this
      ensures Valid() && Extends(p, old(Knows()), Knows()) && old(clock) <= clock
      ensures Whites(color) <= old(Whites(color))
      ensures old(color[v]) == Gray ==> Knows() == old(Knows()) && r == OfCycle(maximize)
      ensures old(color[v]) != Gray ==> color[v] == Black && r == memo[v]
      ensures (r, Remembers()) == Search(p, maximize, old(Remembers()), v)
      decreases Whites(color), 1
    {
      if color[v] == Black {
        return memo[v];
      }
      if color[v] == Gray {
        return OfCycle(maximize);
      }
      r := Visit(v);
    }

    /** A vertex seen for the first time. */
    method Visit(v: nat) returns (best: DPResult)
      requires Valid() && v < |p.out| && GraysLeadTo(p, Knows(), v) && color[v] == White
      modifies this
      ensures Valid() && Extends(p, old(Knows()), Knows()) && old(clock) <= clock
      ensures Whites(color) <= old(Whites(color)) && color[v] == Black && best == memo[v]
      ensures (best, Remembers()) == Search(p, maximize, old(Remembers()), v)
      decreases Whites(color), 0
    {
      hide Partial, AllSettled, SearchEdges, Extends, GraysLeadTo;
      ghost var before := Knows();
      StartVertex(p, before, maximize, v, clock);
      color := color[v := Gray];
      GraysStart(p, before, v);
      assert v in Whites(before.color) && v !in Whites(color);
      best := FollowEdges(v);
      FinishVertex(p, Knows(), maximize, v, best, clock);
      FinishExtends(p, before, Knows(), v, best, clock);
      color, memo, finish := color[v := Black], memo[v := best], finish[v := clock];
      clock := clock + 1;
    }

    /** The edge loop. */
    method FollowEdges(v: nat) returns (best: DPResult)
      requires Valid() && v < |p.out| && color[v] == Gray && GraysLeadTo(p, Knows(), v)
      requires Partial(p, Knows(), maximize, v, NONE, 0, clock)
      modifies this
      ensures Valid() && Extends(p, old(Knows()), Knows()) && old(clock) <= clock && color[v] == Gray
      ensures Whites(color) <= old(Whites(color)) && Partial(p, Knows(), maximize, v, best, |p.out[v]|, clock)
      ensures (best, Remembers()) == SearchEdges(p, maximize, old(Remembers()), v, 0, NONE)
      decreases Whites(color), 3
    {
      hide Partial, AllSettled, SearchEdge, GraysLeadTo;
      ghost var started, first := Knows(), Remembers();
      best := NONE;
      for k := 0 to |p.out[v]|
        invariant Valid() && old(clock) <= clock && color[v] == Gray && GraysLeadTo(p, Knows(), v)
        invariant Extends(p, started, Knows()) && Whites(color) <= old(Whites(color))
        invariant Partial(p, Knows(), maximize, v, best, k, clock)
        invariant SearchEdges(p, maximize, first, v, 0, NONE) == SearchEdges(p, maximize, Remembers(), v, k, best)
      {
        ghost var known := Knows();
        best := FollowEdge(v, k, best);
        ExtendsTwice(p, started, known, Knows());
        GraysKept(p, known, Knows(), v);
      }
    }

    /** One round of the edge loop. */
    method FollowEdge(v: nat, k: nat, best: DPResult) returns (next: DPResult)
      requires Valid() && v < |p.out| && k < |p.out[v]| && color[v] == Gray && GraysLeadTo(p, Knows(), v)
      requires Partial(p, Knows(), maximize, v, best, k, clock)
      modifies this
      ensures Valid() && Extends(p, old(Knows()), Knows()) && old(clock) <= clock
      ensures Whites(color) <= old(Whites(color))
      ensures Partial(p, Knows(), maximize, v, next, k + 1, clock)
      ensures (next, Remembers()) == SearchEdge(p, maximize, old(Remembers()), v, k, best)
      decreases Whites(color), 2
    {
      var e := p.out[v][k];
      assert TargetAt(p.out, v, k);
      var w := p.weight(v, e);
      next := best;
      if p.completes(v, e) {
        CompletingStep(p, Knows(), maximize, v, best, k, clock);
        next := Combine(maximize, best, ToResult(w));
      } else if p.inFlight(e.target) {
        ghost var before, rank := Knows(), clock;
        EdgeAhead(p, before, v, e);
        if color[e.target] == Gray {
          GrayStep(p, before, maximize, v, best, k, rank);
        }
        var sub := Dfs(e.target);
        if before.color[e.target] == Gray {
          skipped := skipped + {(v, e)};
        } else {
          FinishedStep(p, before, Knows(), maximize, v, best, k, rank, clock);
        }
        if sub.reachable {
          next := Combine(maximize, best, Candidate(w, sub));
        }
      } else {
        LeavingStep(p, Knows(), maximize, v, best, k, clock);
      }
    }
  }

  // ------------------------------------------------------------ over all starts

  /** What a longest-path result means for a set of starting vertices. */
  ghost predicate IsLongestOver(p: Problem, starts: seq<nat>, r: DPResult) {
    && (r.infinite <==> exists i: nat :: i < |starts| && Unbounded(p, starts[i]))
    && (r.infinite ==> r.reachable)
    && (!r.infinite ==> forall i: nat :: i < |starts| ==> BoundedFrom(p, starts[i], r))
    && (!r.infinite && r.reachable ==> exists i: nat :: i < |starts| && HasPath(p, starts[i], Fin(r.value)))
  }

  ghost predicate BoundedFrom(p: Problem, v: nat, r: DPResult) {
    forall path :: IsCompleting(p, v, path) ==> r.reachable && Le(Length(p, v, path), Fin(r.value))
  }

  /** What a shortest-path result means for a set of starting vertices. */
  ghost predicate IsShortestOver(p: Problem, starts: seq<nat>, r: DPResult) {
    && ((forall i: nat :: i < |starts| ==> !CycleAhead(p, starts[i])) ==>
          forall i: nat :: i < |starts| ==> BelowFrom(p, starts[i], r))
    && (r.reachable ==> exists i: nat :: i < |starts| && HasPath(p, starts[i], ToLength(r)))
  }

  lemma LongestOneMore(p: Problem, starts: seq<nat>, r: DPResult, v: nat, more: DPResult)
    requires IsLongestOver(p, starts, r) && IsLongest(p, v, more)
    ensures IsLongestOver(p, starts + [v], if more.reachable then CombineMax(r, more) else r)
  {
    var all, both := starts + [v], if more.reachable then CombineMax(r, more) else r;
    if both.infinite {
      if r.infinite {
        var i: nat :| i < |starts| && Unbounded(p, starts[i]);
        assert Unbounded(p, all[i]);
      } else {
        assert Unbounded(p, all[|starts|]);
      }
    } else {
      forall i: nat | i < |all|
        ensures !Unbounded(p, all[i]) && BoundedFrom(p, all[i], both)
      {
        if i < |starts| {
          assert !Unbounded(p, starts[i]) && BoundedFrom(p, starts[i], r);
        }
      }
      if both.reachable {
        if r.reachable && both.value == r.value {
          var i: nat :| i < |starts| && HasPath(p, starts[i], Fin(r.value));
          assert HasPath(p, all[i], Fin(both.value));
        } else {
          assert HasPath(p, all[|starts|], Fin(both.value));
        }
      }
    }
  }

  lemma ShortestOneMore(p: Problem, starts: seq<nat>, r: DPResult, v: nat, more: DPResult)
    requires IsShortestOver(p, starts, r) && IsShortest(p, v, more)
    ensures IsShortestOver(p, starts + [v], if more.reachable then CombineMin(r, more) else r)
  {
    var all, both := starts + [v], if more.reachable then CombineMin(r, more) else r;
    if forall i: nat :: i < |all| ==> !CycleAhead(p, all[i]) {
      assert !CycleAhead(p, all[|starts|]);
      forall i: nat | i < |starts|
        ensures !CycleAhead(p, starts[i])
      {
        assert all[i] == starts[i];
      }
      forall i: nat | i < |all|
        ensures BelowFrom(p, all[i], both)
      {
        if i < |starts| {
          assert BelowFrom(p, starts[i], r);
        }
      }
    }
    if both.reachable {
      if r.reachable && ToLength(both) == ToLength(r) {
        var i: nat :| i < |starts| && HasPath(p, starts[i], ToLength(r));
        assert HasPath(p, all[i], ToLength(both));
      } else {
        assert HasPath(p, all[|starts|], ToLength(both));
      }
    }
  }

  ghost predicate IsBestOver(p: Problem, maximize: bool, starts: seq<nat>, r: DPResult) {
    if maximize then IsLongestOver(p, starts, r) else IsShortestOver(p, starts, r)
  }

  lemma OneMore(p: Problem, maximize: bool, starts: seq<nat>, i: nat, r: DPResult, more: DPResult)
    requires i < |starts| && IsBestOver(p, maximize, starts[..i], r)
    requires if maximize then IsLongest(p, starts[i], more) else IsShortest(p, starts[i], more)
    ensures IsBestOver(p, maximize, starts[..i + 1], if more.reachable then Combine(maximize, r, more) else r)
  {
    assert starts[..i + 1] == starts[..i] + [starts[i]];
    if maximize {
      LongestOneMore(p, starts[..i], r, starts[i], more);
    } else {
      ShortestOneMore(p, starts[..i], r, starts[i], more);
    }
  }

  ghost predicate NoGray(s: Known) {
    forall v: nat :: v < |s.color| ==> s.color[v] != Gray
  }

  lemma NoGrayKept(p: Problem, s: Known, t: Known)
    requires Extends(p, s, t) && NoGray(s)
    ensures NoGray(t)
  {
    forall v: nat | v < |t.color|
      ensures t.color[v] != Gray
    {
      assert SameAt(s, t, v);
    }
  }

  /** The best result over all starting vertices. */
  method RunDp(p: Problem, maximize: bool, starts: seq<nat>) returns (overall: DPResult)
    requires ValidProblem(p) && forall i :: 0 <= i < |starts| ==> starts[i] < |p.out|
    ensures maximize ==> IsLongestOver(p, starts, overall)
    ensures !maximize ==> IsShortestOver(p, starts, overall)
    ensures overall == SearchAll(p, maximize, starts).0 && Plain(overall)
  {
    var search := new PathSearch(p, maximize);
    overall := NONE;
    for i := 0 to |starts|
      invariant fresh(search) && search.Valid() && search.p == p && search.maximize == maximize
      invariant NoGray(search.Knows())
      invariant IsBestOver(p, maximize, starts[..i], overall) && Plain(overall)
      invariant (overall, search.Remembers()) == SearchAll(p, maximize, starts[..i])
    {
      assert starts[..i + 1][..i] == starts[..i];
      ghost var before := search.Knows();
      var r := search.Dfs(starts[i]);
      NoGrayKept(p, before, search.Knows());
      SettledMeans(p, search.Knows(), maximize, starts[i]);
      OneMore(p, maximize, starts, i, overall, r);
      if r.reachable {
        overall := Combine(maximize, overall, r);
      }
    }
    assert starts[..|starts|] == starts;
  }
}
