/** Exactly when the memoised search returns the shortest path, cycles or not. */
module Shortest {
  import opened Adjacency
  import opened Bounds
  import opened PathDp

  // ------------------------------------------------------------------------- paths

  /** The vertices that a path leaves, in order. */
  function Sources(v: nat, path: Path): (r: seq<nat>)
    ensures |r| > 0 && r[0] == v
    decreases path
  {
    match path
    case Last(_) => [v]
    case Then(e, rest) => [v] + Sources(e.target, rest)
  }

  /** The edges of a path, each with the vertex it leaves. */
  function Pairs(v: nat, path: Path): set<(nat, Edge)>
    decreases path
  {
    match path
    case Last(e) => {(v, e)}
    case Then(e, rest) => {(v, e)} + Pairs(e.target, rest)
  }

  ghost predicate Distinct(s: seq<nat>) {
    forall i, j :: 0 <= i < j < |s| ==> s[i] != s[j]
  }

  ghost predicate ValidStarts(p: Problem, starts: seq<nat>) {
    ValidProblem(p) && forall i :: 0 <= i < |starts| ==> starts[i] < |p.out|
  }

  /** A completing path from a start that leaves no vertex twice and meets no start
      on the way. */
  ghost predicate Direct(p: Problem, starts: seq<nat>, v: nat, path: Path) {
    && v in starts && IsCompleting(p, v, path) && Distinct(Sources(v, path))
    && forall i :: 0 < i < |Sources(v, path)| ==> Sources(v, path)[i] !in starts
  }

  /** The edges that the search does not follow, because it finds their target under
      construction. */
  ghost function Skipped(p: Problem, starts: seq<nat>): set<(nat, Edge)>
    requires ValidStarts(p, starts)
  {
    SearchAll(p, false, starts).1.skipped
  }

  /** No direct path uses an edge that is skipped. */
  ghost predicate Avoids(p: Problem, starts: seq<nat>)
    requires ValidStarts(p, starts)
  {
    forall v: nat, path :: Direct(p, starts, v, path) ==> Pairs(v, path) !! Skipped(p, starts)
  }

  /** No edge has a negative weight. */
  ghost predicate NonNegative(p: Problem) {
    forall v: nat, e :: v < |p.out| && e in p.out[v] ==> !Negative(p.weight(v, e))
  }

  ghost predicate AllFinite(w: (nat, Edge) -> Bound) {
    forall v: nat, e :: w(v, e).Fin?
  }

  /** r is not above any completing path from a start. */
  ghost predicate IsMinimum(p: Problem, starts: seq<nat>, r: DPResult) {
    forall i: nat :: i < |starts| ==> BelowFrom(p, starts[i], r)
  }

  lemma BelowStart(p: Problem, starts: seq<nat>, v: nat, r: DPResult)
    requires IsMinimum(p, starts, r) && v in starts
    ensures BelowFrom(p, v, r)
  {
    var i: nat :| i < |starts| && starts[i] == v;
  }

  // --------------------------------------------------- the colours ignore the weights

  ghost predicate SameTrace(s: Memory, t: Memory) {
    s.color == t.color && s.skipped == t.skipped
  }

  lemma {:induction false} TraceSame(p: Problem, w: (nat, Edge) -> Bound, s: Memory, t: Memory, v: nat)
    requires ValidProblem(p) && |s.color| == |s.memo| == |t.memo| == |p.out| && SameTrace(s, t) && v < |p.out|
    ensures SameTrace(Search(p, false, s, v).1, Search(p.(weight := w), false, t, v).1)
    decreases Whites(s.color), 0, 0
  {
    if s.color[v] == White {
      assert v in Whites(s.color) && v !in Whites(s.color[v := Gray]);
      var s', t' := s.(color := s.color[v := Gray]), t.(color := t.color[v := Gray]);
      TraceSameEdges(p, w, s', t', v, 0, NONE, NONE);
    }
  }

  lemma {:induction false} TraceSameEdges(p: Problem, w: (nat, Edge) -> Bound, s: Memory, t: Memory, v: nat, k: nat,
                                          a: DPResult, b: DPResult)
    requires ValidProblem(p) && |s.color| == |s.memo| == |t.memo| == |p.out| && SameTrace(s, t)
    requires v < |p.out| && k <= |p.out[v]|
    ensures SameTrace(SearchEdges(p, false, s, v, k, a).1, SearchEdges(p.(weight := w), false, t, v, k, b).1)
    decreases Whites(s.color), 1, |p.out[v]| - k
  {
    if k < |p.out[v]| {
      TraceSameEdge(p, w, s, t, v, k, a, b);
      var x, y := SearchEdge(p, false, s, v, k, a), SearchEdge(p.(weight := w), false, t, v, k, b);
      TraceSameEdges(p, w, x.1, y.1, v, k + 1, x.0, y.0);
    }
  }

  lemma {:induction false} TraceSameEdge(p: Problem, w: (nat, Edge) -> Bound, s: Memory, t: Memory, v: nat, k: nat,
                                         a: DPResult, b: DPResult)
    requires ValidProblem(p) && |s.color| == |s.memo| == |t.memo| == |p.out| && SameTrace(s, t)
    requires v < |p.out| && k < |p.out[v]|
    ensures SameTrace(SearchEdge(p, false, s, v, k, a).1, SearchEdge(p.(weight := w), false, t, v, k, b).1)
    decreases Whites(s.color), 1, 0
  {
    var e := p.out[v][k];
    assert TargetAt(p.out, v, k);
    if !p.completes(v, e) && p.inFlight(e.target) {
      TraceSame(p, w, s, t, e.target);
    }
  }

  /** Which edges are skipped does not depend on the weights. */
  lemma {:induction false} SkippedSame(p: Problem, w: (nat, Edge) -> Bound, starts: seq<nat>)
    requires ValidStarts(p, starts)
    ensures SameTrace(SearchAll(p, false, starts).1, SearchAll(p.(weight := w), false, starts).1)
  {
    if starts != [] {
      var init, v := starts[..|starts| - 1], starts[|starts| - 1];
      SkippedSame(p, w, init);
      TraceSame(p, w, SearchAll(p, false, init).1, SearchAll(p.(weight := w), false, init).1, v);
    }
  }

  lemma {:induction false} CompletingSame(p: Problem, w: (nat, Edge) -> Bound, v: nat, path: Path)
    ensures IsCompleting(p, v, path) <==> IsCompleting(p.(weight := w), v, path)
    decreases path
  {
    if path.Then? {
      CompletingSame(p, w, path.edge.target, path.rest);
    }
  }

  // --------------------------------------------------------- what the search remembers

  /** r is no longer than this, if there is such a result. */
  predicate NoLonger(r: DPResult, length: Bound) {
    r.reachable && Le(ToLength(r), length)
  }

  /** A path through finished vertices that uses no skipped edge. */
  ghost predicate Clean(s: Memory, v: nat, path: Path)
    decreases path
  {
    && v < |s.color| && s.color[v] == Black && (v, path.edge) !in s.skipped
    && (path.Then? ==> Clean(s, path.edge.target, path.rest))
  }

  /** The same, but for v, which is still under construction. */
  ghost predicate CleanAfter(s: Memory, v: nat, path: Path) {
    (v, path.edge) !in s.skipped && (path.Then? ==> Clean(s, path.edge.target, path.rest))
  }

  ghost predicate HasClean(p: Problem, s: Memory, v: nat, length: Bound) {
    exists path :: IsCompleting(p, v, path) && CleanAfter(s, v, path) && Length(p, v, path) == length
  }

  /** r accounts for edge e out of v, unless it was skipped. */
  ghost predicate Accounted(p: Problem, s: Memory, v: nat, r: DPResult, e: Edge) {
    && (Completing(p, v, e) ==> NoLonger(r, p.weight(v, e)))
    && (Continuing(p, v, e) && (v, e) !in s.skipped ==>
          && e.target < |s.color| && e.target < |s.memo| && s.color[e.target] == Black
          && (s.memo[e.target].reachable ==> NoLonger(r, Add(p.weight(v, e), ToLength(s.memo[e.target])))))
  }

  ghost predicate AccountedAt(p: Problem, s: Memory, v: nat, r: DPResult, k: nat)
    requires v < |p.out|
  {
    k < |p.out[v]| ==> Accounted(p, s, v, r, p.out[v][k])
  }

  ghost predicate FinishedAt(p: Problem, s: Memory, v: nat)
    requires v < |p.out| == |s.color| == |s.memo|
  {
    s.color[v] == Black ==>
      && (s.memo[v].reachable ==> HasClean(p, s, v, ToLength(s.memo[v])))
      && forall k: nat :: AccountedAt(p, s, v, s.memo[v], k)
  }

  ghost predicate SkipAt(s: Memory, v: nat, e: Edge) {
    (v, e) in s.skipped ==> v < |s.color| && s.color[v] != White
  }

  ghost predicate Remembered(p: Problem, s: Memory) {
    && |s.color| == |s.memo| == |p.out|
    && (forall v: nat :: v < |p.out| ==> FinishedAt(p, s, v))
    && (forall v: nat, e :: SkipAt(s, v, e))
  }

  /** Finished vertices stay as they are, and new skipped edges leave vertices that
      were not seen before, or those of own. */
  ghost predicate Later(s: Memory, t: Memory, own: set<nat>) {
    && |s.color| == |s.memo| == |t.color| == |t.memo| && s.skipped <= t.skipped
    && (forall v: nat :: v < |s.color| ==> LaterAt(s, t, v))
    && (forall v: nat, e :: NewSkip(s, t, own, v, e))
  }

  ghost predicate LaterAt(s: Memory, t: Memory, v: nat)
    requires v < |s.color| == |s.memo| == |t.color| == |t.memo|
  {
    && (s.color[v] == Black ==> t.color[v] == Black && t.memo[v] == s.memo[v])
    && (s.color[v] == Gray <==> t.color[v] == Gray)
  }

  ghost predicate NewSkip(s: Memory, t: Memory, own: set<nat>, v: nat, e: Edge) {
    (v, e) in t.skipped && (v, e) !in s.skipped ==> v in own || (v < |s.color| && s.color[v] == White)
  }

  lemma LaterTwice(s: Memory, t: Memory, u: Memory, own: set<nat>)
    requires Later(s, t, own) && Later(t, u, own)
    ensures Later(s, u, own)
  {
    forall v: nat | v < |s.color|
      ensures LaterAt(s, u, v)
    {
      assert LaterAt(s, t, v) && LaterAt(t, u, v);
    }
    forall v: nat, e
      ensures NewSkip(s, u, own, v, e)
    {
      assert NewSkip(s, t, own, v, e) && NewSkip(t, u, own, v, e);
      assert v < |s.color| ==> LaterAt(s, t, v);
    }
  }

  lemma {:induction false} CleanLater(s: Memory, t: Memory, own: set<nat>, v: nat, path: Path)
    requires Later(s, t, own) && Clean(s, v, path) && forall x :: x in own ==> x < |s.color| && s.color[x] != Black
    ensures Clean(t, v, path)
    decreases path
  {
    assert LaterAt(s, t, v) && NewSkip(s, t, own, v, path.edge);
    if path.Then? {
      CleanLater(s, t, own, path.edge.target, path.rest);
    }
  }

  lemma HasCleanLater(p: Problem, s: Memory, t: Memory, v: nat, length: Bound)
    requires Later(s, t, {}) && HasClean(p, s, v, length) && v < |s.color| && s.color[v] != White
    ensures HasClean(p, t, v, length)
  {
    var path :| IsCompleting(p, v, path) && CleanAfter(s, v, path) && Length(p, v, path) == length;
    assert NewSkip(s, t, {}, v, path.edge);
    if path.Then? {
      CleanLater(s, t, {}, path.edge.target, path.rest);
    }
    assert CleanAfter(t, v, path);
  }

  lemma AccountedLater(p: Problem, s: Memory, t: Memory, v: nat, r: DPResult, more: DPResult, k: nat)
    requires Later(s, t, {}) && v < |p.out| && AccountedAt(p, s, v, r, k)
    ensures AccountedAt(p, t, v, r, k) && AccountedAt(p, t, v, CombineMin(r, more), k)
  {
    if k < |p.out[v]| {
      var u := p.out[v][k].target;
      assert u < |s.color| ==> LaterAt(s, t, u);
    }
  }

  /** The best result so far covers the first k edges of v. */
  ghost predicate Handles(p: Problem, s: Memory, v: nat, best: DPResult, k: nat) {
    && v < |p.out| == |s.color| && s.color[v] == Gray && Plain(best)
    && (best.reachable ==> HasClean(p, s, v, ToLength(best)))
    && forall j: nat :: j < k ==> AccountedAt(p, s, v, best, j)
  }

  lemma HandlesLater(p: Problem, s: Memory, t: Memory, v: nat, best: DPResult, more: DPResult, k: nat)
    requires Later(s, t, {}) && Handles(p, s, v, best, k) && Plain(more)
    requires more.reachable ==> HasClean(p, t, v, ToLength(more))
    ensures Handles(p, t, v, CombineMin(best, more), k)
  {
    assert LaterAt(s, t, v);
    if best.reachable {
      HasCleanLater(p, s, t, v, ToLength(best));
    }
    forall j: nat | j < k
      ensures AccountedAt(p, t, v, CombineMin(best, more), j)
    {
      AccountedLater(p, s, t, v, best, more, j);
    }
  }

  lemma LaterSelf(s: Memory)
    requires |s.color| == |s.memo|
    ensures Later(s, s, {})
  {
  }

  lemma CompletingHandles(p: Problem, s: Memory, v: nat, best: DPResult, k: nat)
    requires ValidProblem(p) && |s.color| == |s.memo| && Handles(p, s, v, best, k) && k < |p.out[v]|
    requires Completing(p, v, p.out[v][k]) && (v, p.out[v][k]) !in s.skipped
    ensures Handles(p, s, v, CombineMin(best, ToResult(p.weight(v, p.out[v][k]))), k + 1)
  {
    var e := p.out[v][k];
    var cand := ToResult(p.weight(v, e));
    assert IsCompleting(p, v, Last(e)) && CleanAfter(s, v, Last(e)) && Length(p, v, Last(e)) == ToLength(cand);
    LaterSelf(s);
    HandlesLater(p, s, s, v, best, cand, k);
    assert AccountedAt(p, s, v, CombineMin(best, cand), k);
  }

  /** The target is under construction: the edge is skipped, and none that was
      followed before is. */
  lemma SkippedHandles(p: Problem, s: Memory, v: nat, best: DPResult, k: nat)
    requires ValidProblem(p) && |s.color| == |s.memo| && Handles(p, s, v, best, k) && k < |p.out[v]|
    requires Continuing(p, v, p.out[v][k]) && p.out[v][k].target < |p.out| && s.color[p.out[v][k].target] == Gray
    ensures Handles(p, s.(skipped := s.skipped + {(v, p.out[v][k])}), v, best, k + 1)
  {
    var e := p.out[v][k];
    var t := s.(skipped := s.skipped + {(v, e)});
    if best.reachable {
      var path :| IsCompleting(p, v, path) && CleanAfter(s, v, path) && Length(p, v, path) == ToLength(best);
      assert path.edge != e;
      if path.Then? {
        StillClean(s, t, v, path.edge.target, path.rest);
      }
      assert CleanAfter(t, v, path);
    }
    forall j: nat | j < k + 1
      ensures AccountedAt(p, t, v, best, j)
    {
      assert j < k ==> AccountedAt(p, s, v, best, j);
    }
  }

  /** A clean path leaves no vertex under construction. */
  lemma {:induction false} StillClean(s: Memory, t: Memory, v: nat, u: nat, path: Path)
    requires Clean(s, u, path) && t == s.(skipped := t.skipped) && v < |s.color| && s.color[v] == Gray
    requires forall x, e :: (x, e) in t.skipped ==> (x, e) in s.skipped || x == v
    ensures Clean(t, u, path)
    decreases path
  {
    if path.Then? {
      StillClean(s, t, v, path.edge.target, path.rest);
    }
  }

  lemma FinishedHandles(p: Problem, s: Memory, t: Memory, v: nat, best: DPResult, k: nat)
    requires ValidProblem(p) && Later(s, t, {}) && Handles(p, s, v, best, k) && k < |p.out[v]| && Remembered(p, t)
    requires Continuing(p, v, p.out[v][k]) && p.out[v][k].target < |p.out| && t.color[p.out[v][k].target] == Black
    requires (v, p.out[v][k]) !in t.skipped
    ensures
      var sub := t.memo[p.out[v][k].target];
      var cand := if sub.reachable then Candidate(p.weight(v, p.out[v][k]), sub) else NONE;
      Handles(p, t, v, CombineMin(best, cand), k + 1)
  {
    var e := p.out[v][k];
    var sub := t.memo[e.target];
    var cand := if sub.reachable then Candidate(p.weight(v, e), sub) else NONE;
    assert FinishedAt(p, t, e.target);
    if sub.reachable {
      var path :| IsCompleting(p, e.target, path) && CleanAfter(t, e.target, path)
        && Length(p, e.target, path) == ToLength(sub);
      assert IsCompleting(p, v, Then(e, path)) && Length(p, v, Then(e, path)) == ToLength(cand);
      assert CleanAfter(t, v, Then(e, path));
    }
    HandlesLater(p, s, t, v, best, cand, k);
    assert AccountedAt(p, t, v, CombineMin(best, cand), k);
  }

  // --------------------------------------------------------------------- the search

  lemma {:induction false} SearchRemembers(p: Problem, s: Memory, v: nat)
    requires ValidProblem(p) && Remembered(p, s) && v < |p.out|
    ensures var t := Search(p, false, s, v); Remembered(p, t.1) && Later(s, t.1, {})
    ensures
      var t := Search(p, false, s, v);
      if s.color[v] == Gray then t == (NONE, s) else t.1.color[v] == Black && t.0 == t.1.memo[v]
    decreases Whites(s.color), 0, 0
  {
    if s.color[v] == White {
      var s' := s.(color := s.color[v := Gray]);
      assert v in Whites(s.color) && v !in Whites(s'.color);
      StartRemembers(p, s, v);
      EdgesRemember(p, s', v, 0, NONE);
      var t := SearchEdges(p, false, s', v, 0, NONE);
      FinishRemembers(p, s, t.1, v, t.0);
    } else {
      LaterSelf(s);
    }
  }

  lemma StartRemembers(p: Problem, s: Memory, v: nat)
    requires Remembered(p, s) && v < |p.out| && s.color[v] == White
    ensures var t := s.(color := s.color[v := Gray]); Remembered(p, t) && Handles(p, t, v, NONE, 0)
    ensures OwnSkips(p, s.(color := s.color[v := Gray]), v)
  {
    var t := s.(color := s.color[v := Gray]);
    forall e
      ensures (v, e) !in s.skipped
    {
      assert SkipAt(s, v, e);
    }
    forall x: nat | x < |p.out|
      ensures FinishedAt(p, t, x)
    {
      assert FinishedAt(p, s, x);
      if s.color[x] == Black {
        RecolouredAt(p, s, t, x);
      }
    }
    forall x: nat, e
      ensures SkipAt(t, x, e)
    {
      assert SkipAt(s, x, e);
    }
  }

  /** Vertices may change colour as long as finished ones stay so. */
  lemma RecolouredAt(p: Problem, s: Memory, t: Memory, v: nat)
    requires |s.color| == |s.memo| == |t.color| == |t.memo| == |p.out| && v < |p.out| && s.skipped == t.skipped
    requires forall x: nat :: x < |p.out| && s.color[x] == Black ==> t.color[x] == Black && t.memo[x] == s.memo[x]
    requires FinishedAt(p, s, v) && s.color[v] == Black
    ensures FinishedAt(p, t, v)
  {
    if s.memo[v].reachable {
      RecolouredClean(p, s, t, v, ToLength(s.memo[v]));
    }
    forall k: nat
      ensures AccountedAt(p, t, v, t.memo[v], k)
    {
      assert AccountedAt(p, s, v, s.memo[v], k);
    }
  }

  lemma RecolouredClean(p: Problem, s: Memory, t: Memory, v: nat, length: Bound)
    requires |s.color| == |s.memo| == |t.color| == |t.memo| == |p.out| && s.skipped == t.skipped
    requires forall x: nat :: x < |p.out| && s.color[x] == Black ==> t.color[x] == Black
    requires HasClean(p, s, v, length)
    ensures HasClean(p, t, v, length)
  {
    var path :| IsCompleting(p, v, path) && CleanAfter(s, v, path) && Length(p, v, path) == length;
    if path.Then? {
      RecolouredPath(s, t, path.edge.target, path.rest);
    }
    assert CleanAfter(t, v, path);
  }

  lemma {:induction false} RecolouredPath(s: Memory, t: Memory, v: nat, path: Path)
    requires |s.color| == |t.color| && s.skipped == t.skipped && Clean(s, v, path)
    requires forall x: nat :: x < |s.color| && s.color[x] == Black ==> t.color[x] == Black
    ensures Clean(t, v, path)
    decreases path
  {
    if path.Then? {
      RecolouredPath(s, t, path.edge.target, path.rest);
    }
  }

  lemma FinishRemembers(p: Problem, s: Memory, t: Memory, v: nat, best: DPResult)
    requires Remembered(p, s) && Remembered(p, t) && v < |p.out| && s.color[v] == White
    requires Later(s.(color := s.color[v := Gray]), t, {v}) && Handles(p, t, v, best, |p.out[v]|)
    ensures
      var u := Memory(t.color[v := Black], t.memo[v := best], t.skipped);
      Remembered(p, u) && Later(s, u, {})
  {
    var s', u := s.(color := s.color[v := Gray]), Memory(t.color[v := Black], t.memo[v := best], t.skipped);
    forall x: nat | x < |p.out|
      ensures FinishedAt(p, u, x) && LaterAt(s, u, x)
    {
      assert LaterAt(s', t, x) && FinishedAt(p, t, x);
      if x == v {
        FinishedNow(p, t, u, v, best);
      } else if t.color[x] == Black {
        RecolouredAt(p, t, u, x);
      }
    }
    forall x: nat, e
      ensures SkipAt(u, x, e) && NewSkip(s, u, {}, x, e)
    {
      assert SkipAt(t, x, e) && NewSkip(s', t, {v}, x, e);
    }
  }

  lemma FinishedNow(p: Problem, t: Memory, u: Memory, v: nat, best: DPResult)
    requires |t.color| == |t.memo| == |p.out| && v < |p.out| && Handles(p, t, v, best, |p.out[v]|)
    requires u == Memory(t.color[v := Black], t.memo[v := best], t.skipped)
    ensures FinishedAt(p, u, v)
  {
    if best.reachable {
      RecolouredClean(p, t, u, v, ToLength(best));
    }
    forall k: nat
      ensures AccountedAt(p, u, v, best, k)
    {
      assert k < |p.out[v]| ==> AccountedAt(p, t, v, best, k);
    }
  }

  lemma {:induction false} EdgesRemember(p: Problem, s: Memory, v: nat, k: nat, best: DPResult)
    requires ValidProblem(p) && Remembered(p, s) && v < |p.out| && k <= |p.out[v]| && Handles(p, s, v, best, k)
    requires OwnSkips(p, s, v)
    ensures
      var t := SearchEdges(p, false, s, v, k, best);
      Remembered(p, t.1) && Later(s, t.1, {v}) && Handles(p, t.1, v, t.0, |p.out[v]|)
    decreases Whites(s.color), 1, |p.out[v]| - k
  {
    if k == |p.out[v]| {
      LaterSelf(s);
      assert forall x: nat, e :: NewSkip(s, s, {v}, x, e);
    } else {
      EdgeRemembers(p, s, v, k, best);
      var t := SearchEdge(p, false, s, v, k, best);
      EdgesRemember(p, t.1, v, k + 1, t.0);
      LaterTwice(s, t.1, SearchEdges(p, false, t.1, v, k + 1, t.0).1, {v});
    }
  }

  /** The skipped edges of v continue to vertices under construction. */
  ghost predicate OwnSkips(p: Problem, s: Memory, v: nat) {
    forall e :: (v, e) in s.skipped ==> Continuing(p, v, e) && e.target < |s.color| && s.color[e.target] == Gray
  }

  lemma {:induction false} EdgeRemembers(p: Problem, s: Memory, v: nat, k: nat, best: DPResult)
    requires ValidProblem(p) && Remembered(p, s) && v < |p.out| && k < |p.out[v]| && Handles(p, s, v, best, k)
    requires OwnSkips(p, s, v)
    ensures
      var t := SearchEdge(p, false, s, v, k, best);
      Remembered(p, t.1) && Later(s, t.1, {v}) && Handles(p, t.1, v, t.0, k + 1) && OwnSkips(p, t.1, v)
    decreases Whites(s.color), 1, 0
  {
    hide Handles, Remembered, Later, OwnSkips, Search;
    var e := p.out[v][k];
    assert TargetAt(p.out, v, k);
    if p.completes(v, e) {
      CompletingCase(p, s, v, k, best);
    } else if !p.inFlight(e.target) {
      LeavingCase(p, s, v, k, best);
    } else {
      SearchRemembers(p, s, e.target);
      if s.color[e.target] == Gray {
        SkippedCase(p, s, v, k, best);
      } else {
        FollowedCase(p, s, Search(p, false, s, e.target).1, v, k, best);
      }
    }
  }

  lemma CompletingCase(p: Problem, s: Memory, v: nat, k: nat, best: DPResult)
    requires ValidProblem(p) && Remembered(p, s) && Handles(p, s, v, best, k) && k < |p.out[v]| && OwnSkips(p, s, v)
    requires Completing(p, v, p.out[v][k])
    ensures Later(s, s, {v}) && Handles(p, s, v, CombineMin(best, ToResult(p.weight(v, p.out[v][k]))), k + 1)
  {
    CompletingHandles(p, s, v, best, k);
    LaterSelf(s);
    LaterOwn(s, s, {v});
  }

  lemma LeavingCase(p: Problem, s: Memory, v: nat, k: nat, best: DPResult)
    requires Remembered(p, s) && Handles(p, s, v, best, k) && k < |p.out[v]|
    requires !Completing(p, v, p.out[v][k]) && !Continuing(p, v, p.out[v][k])
    ensures Later(s, s, {v}) && Handles(p, s, v, best, k + 1)
  {
    LaterSelf(s);
    LaterOwn(s, s, {v});
    assert AccountedAt(p, s, v, best, k);
  }

  lemma LaterOwn(s: Memory, t: Memory, own: set<nat>)
    requires Later(s, t, {})
    ensures Later(s, t, own)
  {
    forall v: nat, e
      ensures NewSkip(s, t, own, v, e)
    {
      assert NewSkip(s, t, {}, v, e);
    }
  }

  lemma SkippedCase(p: Problem, s: Memory, v: nat, k: nat, best: DPResult)
    requires ValidProblem(p) && Remembered(p, s) && Handles(p, s, v, best, k) && k < |p.out[v]| && OwnSkips(p, s, v)
    requires Continuing(p, v, p.out[v][k]) && p.out[v][k].target < |p.out| && s.color[p.out[v][k].target] == Gray
    ensures
      var t := s.(skipped := s.skipped + {(v, p.out[v][k])});
      Remembered(p, t) && Later(s, t, {v}) && Handles(p, t, v, best, k + 1) && OwnSkips(p, t, v)
  {
    var t := s.(skipped := s.skipped + {(v, p.out[v][k])});
    SkippedHandles(p, s, v, best, k);
    forall x: nat | x < |p.out|
      ensures FinishedAt(p, t, x)
    {
      assert FinishedAt(p, s, x);
      if s.color[x] == Black {
        SkipKeeps(p, s, t, v, x);
      }
    }
    forall x: nat, e
      ensures SkipAt(t, x, e) && NewSkip(s, t, {v}, x, e)
    {
      assert SkipAt(s, x, e);
    }
  }

  lemma SkipKeeps(p: Problem, s: Memory, t: Memory, v: nat, x: nat)
    requires |s.color| == |s.memo| == |p.out| && t == s.(skipped := t.skipped) && s.skipped <= t.skipped
    requires v < |p.out| && s.color[v] == Gray && forall y, e :: (y, e) in t.skipped ==> (y, e) in s.skipped || y == v
    requires x < |p.out| && FinishedAt(p, s, x) && s.color[x] == Black
    ensures FinishedAt(p, t, x)
  {
    if s.memo[x].reachable {
      var length := ToLength(s.memo[x]);
      var path :| IsCompleting(p, x, path) && CleanAfter(s, x, path) && Length(p, x, path) == length;
      if path.Then? {
        StillClean(s, t, v, path.edge.target, path.rest);
      }
      assert CleanAfter(t, x, path);
    }
    forall k: nat
      ensures AccountedAt(p, t, x, t.memo[x], k)
    {
      assert AccountedAt(p, s, x, s.memo[x], k);
    }
  }

  lemma FollowedCase(p: Problem, s: Memory, t: Memory, v: nat, k: nat, best: DPResult)
    requires ValidProblem(p) && Remembered(p, s) && Handles(p, s, v, best, k) && k < |p.out[v]| && OwnSkips(p, s, v)
    requires Remembered(p, t) && Later(s, t, {})
    requires Continuing(p, v, p.out[v][k]) && p.out[v][k].target < |p.out|
    requires s.color[p.out[v][k].target] != Gray && t.color[p.out[v][k].target] == Black
    ensures
      var sub := t.memo[p.out[v][k].target];
      var next := if sub.reachable then CombineMin(best, Candidate(p.weight(v, p.out[v][k]), sub)) else best;
      Later(s, t, {v}) && Handles(p, t, v, next, k + 1) && OwnSkips(p, t, v)
  {
    assert LaterAt(s, t, v);
    forall e | (v, e) in t.skipped
      ensures (v, e) in s.skipped && t.color[e.target] == Gray
    {
      assert NewSkip(s, t, {}, v, e);
      assert LaterAt(s, t, e.target);
    }
    LaterOwn(s, t, {v});
    FinishedHandles(p, s, t, v, best, k);
  }

  // ------------------------------------------------------------------- all starts

  /** After all searches: the result is the least of what the starts have. */
  lemma {:induction false} AllRemembered(p: Problem, starts: seq<nat>)
    requires ValidStarts(p, starts)
    ensures
      var t := SearchAll(p, false, starts);
      Remembered(p, t.1) && NoGrays(t.1) && LeastOf(starts, t.0, t.1)
  {
    hide Remembered, Later, LeastOf, NoGrays, LaterAt;
    if starts == [] {
      NothingRemembered(p);
    } else {
      var init, v := starts[..|starts| - 1], starts[|starts| - 1];
      var before := SearchAll(p, false, init);
      AllRemembered(p, init);
      SearchRemembers(p, before.1, v);
      NotGray(before.1, v);
      LeastMore(init, v, before.0, before.1, Search(p, false, before.1, v).1);
      assert init + [v] == starts;
    }
  }

  ghost predicate NoGrays(s: Memory) {
    forall v: nat :: v < |s.color| ==> s.color[v] != Gray
  }

  /** r is the least of the results of the starts. */
  ghost predicate LeastOf(starts: seq<nat>, r: DPResult, s: Memory) {
    && (forall i: nat :: i < |starts| ==> StartAt(starts, r, s, i))
    && (r.reachable ==> exists i: nat :: i < |starts| && IsOf(starts, r, s, i))
  }

  lemma NothingRemembered(p: Problem)
    requires ValidProblem(p)
    ensures
      var t := SearchAll(p, false, []);
      Remembered(p, t.1) && NoGrays(t.1) && LeastOf([], t.0, t.1)
  {
  }

  lemma NotGray(s: Memory, v: nat)
    requires NoGrays(s) && v < |s.color|
    ensures s.color[v] != Gray
  {
  }

  lemma LeastMore(init: seq<nat>, v: nat, r: DPResult, s: Memory, t: Memory)
    requires Later(s, t, {}) && NoGrays(s) && LeastOf(init, r, s) && v < |t.color| && t.color[v] == Black
    ensures NoGrays(t)
    ensures LeastOf(init + [v], if t.memo[v].reachable then CombineMin(r, t.memo[v]) else r, t)
  {
    var starts, both := init + [v], if t.memo[v].reachable then CombineMin(r, t.memo[v]) else r;
    forall x: nat | x < |t.color|
      ensures t.color[x] != Gray
    {
      assert LaterAt(s, t, x);
    }
    forall i: nat | i < |starts|
      ensures StartAt(starts, both, t, i)
    {
      if i < |init| {
        assert StartAt(init, r, s, i) && LaterAt(s, t, init[i]);
      }
    }
    if both.reachable {
      if r.reachable && ToLength(both) == ToLength(r) {
        var i: nat :| i < |init| && IsOf(init, r, s, i);
        assert StartAt(init, r, s, i) && LaterAt(s, t, init[i]);
        assert IsOf(starts, both, t, i);
      } else {
        assert IsOf(starts, both, t, |init|);
      }
    }
  }

  ghost predicate StartAt(starts: seq<nat>, r: DPResult, s: Memory, i: nat)
    requires i < |starts|
  {
    && starts[i] < |s.color| && starts[i] < |s.memo| && s.color[starts[i]] == Black
    && (s.memo[starts[i]].reachable ==> NoLonger(r, ToLength(s.memo[starts[i]])))
  }

  ghost predicate IsOf(starts: seq<nat>, r: DPResult, s: Memory, i: nat)
    requires i < |starts|
  {
    starts[i] < |s.memo| && s.memo[starts[i]].reachable && ToLength(r) == ToLength(s.memo[starts[i]])
  }

  /** The remembered results are below every path without skipped edges. */
  lemma {:induction false} BelowClean(p: Problem, s: Memory, v: nat, path: Path)
    requires ValidProblem(p) && Remembered(p, s) && v < |p.out| && s.color[v] == Black
    requires IsCompleting(p, v, path) && Pairs(v, path) !! s.skipped
    ensures NoLonger(s.memo[v], Length(p, v, path))
    decreases path
  {
    var e := path.edge;
    var k: nat :| k < |p.out[v]| && p.out[v][k] == e;
    assert FinishedAt(p, s, v) && AccountedAt(p, s, v, s.memo[v], k) && (v, e) in Pairs(v, path);
    if path.Then? {
      BelowClean(p, s, e.target, path.rest);
    }
  }

  // ----------------------------------------------------------- cutting a path short

  /** The part of a path from where it leaves x. */
  function From(v: nat, path: Path, x: nat): Path
    requires x in Sources(v, path)
    decreases path
  {
    if x == v then path else From(path.edge.target, path.rest, x)
  }

  lemma {:induction false} FromCompletes(p: Problem, v: nat, path: Path, x: nat)
    requires NonNegative(p) && IsCompleting(p, v, path) && x in Sources(v, path)
    ensures IsCompleting(p, x, From(v, path, x)) && Le(Length(p, x, From(v, path, x)), Length(p, v, path))
    decreases path
  {
    if x != v {
      FromCompletes(p, path.edge.target, path.rest, x);
      var w := p.weight(v, path.edge);
      assert w.Fin? ==> w.v >= 0;
    }
  }

  lemma {:induction false} FromSources(v: nat, path: Path, x: nat) returns (k: nat)
    requires x in Sources(v, path)
    ensures k < |Sources(v, path)| && Sources(x, From(v, path, x)) == Sources(v, path)[k..] && (x != v ==> k > 0)
    decreases path
  {
    k := 0;
    if x != v {
      var inner := FromSources(path.edge.target, path.rest, x);
      k := inner + 1;
    }
  }

  /** Loops can be cut out. */
  lemma {:induction false} CutLoops(p: Problem, v: nat, path: Path) returns (r: Path)
    requires NonNegative(p) && IsCompleting(p, v, path)
    ensures IsCompleting(p, v, r) && Le(Length(p, v, r), Length(p, v, path)) && Distinct(Sources(v, r))
    decreases path
  {
    r := path;
    if path.Then? {
      var e, w := path.edge, p.weight(v, path.edge);
      var rest := CutLoops(p, e.target, path.rest);
      assert w.Fin? ==> w.v >= 0;
      if v in Sources(e.target, rest) {
        r := From(e.target, rest, v);
        FromCompletes(p, e.target, rest, v);
        var k := FromSources(e.target, rest, v);
      } else {
        r := Then(e, rest);
      }
    }
  }

  /** From the last start that it meets on, a path without loops is direct. */
  lemma {:induction false} LastStart(p: Problem, starts: seq<nat>, v: nat, path: Path) returns (u: nat, r: Path)
    requires NonNegative(p) && v in starts && IsCompleting(p, v, path) && Distinct(Sources(v, path))
    ensures Direct(p, starts, u, r) && Le(Length(p, u, r), Length(p, v, path))
    decreases |Sources(v, path)|
  {
    u, r := v, path;
    if i :| 0 < i < |Sources(v, path)| && Sources(v, path)[i] in starts {
      var x := Sources(v, path)[i];
      FromCompletes(p, v, path, x);
      var k := FromSources(v, path, x);
      u, r := LastStart(p, starts, x, From(v, path, x));
    }
  }

  /** If direct paths avoid the skipped edges, the result is the minimum: infinite
      weights are allowed as well. */
  lemma AvoidsMinimum(p: Problem, starts: seq<nat>)
    requires ValidStarts(p, starts) && NonNegative(p) && Avoids(p, starts)
    ensures IsMinimum(p, starts, SearchAll(p, false, starts).0)
  {
    var t := SearchAll(p, false, starts);
    AllRemembered(p, starts);
    forall i: nat, path | i < |starts| && IsCompleting(p, starts[i], path)
      ensures NoLonger(t.0, Length(p, starts[i], path))
    {
      var cut := CutLoops(p, starts[i], path);
      var u, direct := LastStart(p, starts, starts[i], cut);
      var j: nat :| j < |starts| && starts[j] == u;
      assert StartAt(starts, t.0, t.1, j);
      BelowClean(p, t.1, u, direct);
    }
  }

  // -------------------------------------------------------- weights that tell the edge

  /** 0 on these edges, 1 on all others. */
  function Marking01(pairs: set<(nat, Edge)>): (w: (nat, Edge) -> Bound)
    ensures AllFinite(w) && forall v: nat, e :: w(v, e).v >= 0
  {
    (v: nat, e: Edge) => if (v, e) in pairs then Fin(0) else Fin(1)
  }

  lemma {:induction false} ZeroLength(p: Problem, pairs: set<(nat, Edge)>, v: nat, path: Path)
    requires p.weight == Marking01(pairs)
    ensures Length(p, v, path).Fin? && Length(p, v, path).v >= 0
    ensures Length(p, v, path) == Fin(0) <==> Pairs(v, path) <= pairs
    decreases path
  {
    if path.Then? {
      ZeroLength(p, pairs, path.edge.target, path.rest);
    }
  }

  /** A path without loops has one edge out of each vertex. */
  lemma {:induction false} OneEdge(v: nat, path: Path, x: nat, e: Edge)
    requires (x, e) in Pairs(v, path)
    ensures x in Sources(v, path)
    ensures x == v && Distinct(Sources(v, path)) ==> e == path.edge
    decreases path
  {
    if path.Then? && (x, e) != (v, path.edge) {
      var rest := Sources(path.edge.target, path.rest);
      OneEdge(path.edge.target, path.rest, x, e);
      var i :| 0 <= i < |rest| && rest[i] == x;
      assert Sources(v, path)[i + 1] == x;
    }
  }

  /** Only the path itself completes on its own edges. */
  lemma {:induction false} SamePath(p: Problem, v: nat, path: Path, other: Path, all: set<(nat, Edge)>)
    requires IsCompleting(p, v, path) && IsCompleting(p, v, other)
    requires Pairs(v, path) <= all && Pairs(v, other) <= all
    requires forall x, e, f :: (x, e) in all && (x, f) in all ==> e == f
    ensures path == other
    decreases path
  {
    assert (v, path.edge) in Pairs(v, path) && (v, other.edge) in Pairs(v, other);
    if path.Then? {
      SamePath(p, path.edge.target, path.rest, other.rest, all);
    }
  }

  lemma {:induction false} EdgesUnique(v: nat, path: Path, x: nat, e: Edge, f: Edge)
    requires Distinct(Sources(v, path)) && (x, e) in Pairs(v, path) && (x, f) in Pairs(v, path)
    ensures e == f
    decreases path
  {
    OneEdge(v, path, x, e);
    OneEdge(v, path, x, f);
    if x != v {
      var rest := Sources(path.edge.target, path.rest);
      assert forall i :: 0 <= i < |rest| ==> rest[i] == Sources(v, path)[i + 1];
      EdgesUnique(path.edge.target, path.rest, x, e, f);
    }
  }

  lemma {:induction false} CleanPairs(s: Memory, v: nat, path: Path)
    requires Clean(s, v, path)
    ensures Pairs(v, path) !! s.skipped
    decreases path
  {
    if path.Then? {
      CleanPairs(s, path.edge.target, path.rest);
    }
  }

  /** A direct path with a skipped edge, given weight 0 where everything else has
      weight 1, is missed. */
  lemma SkippedMisses(p: Problem, starts: seq<nat>, v: nat, path: Path)
    requires ValidStarts(p, starts) && Direct(p, starts, v, path) && !(Pairs(v, path) !! Skipped(p, starts))
    ensures
      var q := p.(weight := Marking01(Pairs(v, path)));
      !IsMinimum(q, starts, SearchAll(q, false, starts).0)
  {
    var all := Pairs(v, path);
    var q := p.(weight := Marking01(all));
    var t := SearchAll(q, false, starts);
    SkippedSame(p, q.weight, starts);
    CompletingSame(p, q.weight, v, path);
    ZeroLength(q, all, v, path);
    if IsMinimum(q, starts, t.0) {
      var i: nat :| i < |starts| && starts[i] == v;
      assert BelowFrom(q, starts[i], t.0);
      OtherPath(q, starts, v, path);
    }
  }

  /** The result is the length of a path without skipped edges. */
  lemma ResultPath(p: Problem, starts: seq<nat>) returns (u: nat, path: Path)
    requires ValidStarts(p, starts) && SearchAll(p, false, starts).0.reachable
    ensures u in starts && IsCompleting(p, u, path) && Pairs(u, path) !! Skipped(p, starts)
    ensures Length(p, u, path) == ToLength(SearchAll(p, false, starts).0)
  {
    hide SearchAll;
    var t := SearchAll(p, false, starts);
    AllRemembered(p, starts);
    var i: nat :| i < |starts| && IsOf(starts, t.0, t.1, i);
    u := starts[i];
    assert StartAt(starts, t.0, t.1, i) && FinishedAt(p, t.1, u);
    path :| IsCompleting(p, u, path) && CleanAfter(t.1, u, path) && Length(p, u, path) == ToLength(t.0);
    CleanPairs(t.1, u, path);
  }

  /** A direct path whose edges alone have weight 0 is found only if it has no
      skipped edge. */
  lemma OtherPath(q: Problem, starts: seq<nat>, v: nat, path: Path)
    requires ValidStarts(q, starts) && Direct(q, starts, v, path) && q.weight == Marking01(Pairs(v, path))
    requires NoLonger(SearchAll(q, false, starts).0, Fin(0))
    ensures Pairs(v, path) !! Skipped(q, starts)
  {
    hide SearchAll, Direct, Skipped, IsCompleting;
    var u, other := ResultPath(q, starts);
    ZeroLength(q, Pairs(v, path), u, other);
    IsTheSame(q, starts, v, path, u, other);
  }

  lemma IsTheSame(q: Problem, starts: seq<nat>, v: nat, path: Path, u: nat, other: Path)
    requires Direct(q, starts, v, path) && u in starts && IsCompleting(q, u, other)
    requires Pairs(u, other) <= Pairs(v, path)
    ensures u == v && other == path
  {
    var all := Pairs(v, path);
    assert (u, other.edge) in Pairs(u, other);
    OneEdge(v, path, u, other.edge);
    assert u == v;
    forall x, e, f | (x, e) in all && (x, f) in all
      ensures e == f
    {
      EdgesUnique(v, path, x, e, f);
    }
    SamePath(q, v, path, other, all);
  }

  /** Exactly when the shortest result is right: for given edges and starts the
      search returns the minimum for all finite non-negative weights if and only if
      no direct path uses an edge that is skipped, which does not depend on the
      weights. */
  lemma ShortestIff(p: Problem, starts: seq<nat>)
    requires ValidStarts(p, starts)
    ensures Avoids(p, starts) <==>
      forall w: (nat, Edge) -> Bound :: NonNegative(p.(weight := w)) && AllFinite(w) ==>
        IsMinimum(p.(weight := w), starts, SearchAll(p.(weight := w), false, starts).0)
  {
    if Avoids(p, starts) {
      forall w: (nat, Edge) -> Bound | NonNegative(p.(weight := w)) && AllFinite(w)
        ensures IsMinimum(p.(weight := w), starts, SearchAll(p.(weight := w), false, starts).0)
      {
        AvoidsSame(p, w, starts);
        AvoidsMinimum(p.(weight := w), starts);
      }
    } else {
      var v: nat, path :| Direct(p, starts, v, path) && !(Pairs(v, path) !! Skipped(p, starts));
      SkippedMisses(p, starts, v, path);
    }
  }

  lemma AvoidsSame(p: Problem, w: (nat, Edge) -> Bound, starts: seq<nat>)
    requires ValidStarts(p, starts) && Avoids(p, starts)
    ensures Avoids(p.(weight := w), starts)
  {
    SkippedSame(p, w, starts);
    forall v: nat, path | Direct(p.(weight := w), starts, v, path)
      ensures Pairs(v, path) !! Skipped(p.(weight := w), starts)
    {
      CompletingSame(p, w, v, path);
      assert Direct(p, starts, v, path);
    }
  }

  // ------------------------------------------------------ cycles with a single entry

  ghost predicate Link(p: Problem, a: nat, b: nat) {
    exists e :: Continuing(p, a, e) && e.target == b
  }

  /** route follows continuing edges. */
  ghost predicate IsTrail(p: Problem, route: seq<nat>) {
    |route| > 0 && forall i :: 0 < i < |route| ==> Link(p, route[i - 1], route[i])
  }

  ghost predicate IsLoop(p: Problem, cycle: seq<nat>) {
    IsTrail(p, cycle) && Link(p, cycle[|cycle| - 1], cycle[0])
  }

  /** route leads from a start to the first vertex of the cycle that it meets. */
  ghost predicate Enters(p: Problem, starts: seq<nat>, cycle: seq<nat>, route: seq<nat>) {
    && IsTrail(p, route) && route[0] in starts && route[|route| - 1] in cycle
    && forall i :: 0 <= i < |route| - 1 ==> route[i] !in cycle
  }

  /** Every cycle can only be entered at one vertex. */
  ghost predicate SingleEntry(p: Problem, starts: seq<nat>) {
    forall cycle, a, b :: IsLoop(p, cycle) && Enters(p, starts, cycle, a) && Enters(p, starts, cycle, b) ==>
      a[|a| - 1] == b[|b| - 1]
  }

  /** The stack of the search when it skips edge e out of v. */
  ghost predicate Stack(p: Problem, starts: seq<nat>, route: seq<nat>, v: nat) {
    IsTrail(p, route) && route[0] in starts && Distinct(route) && route[|route| - 1] == v
  }

  ghost predicate SkippedBack(p: Problem, starts: seq<nat>, v: nat, e: Edge) {
    Continuing(p, v, e) && exists route :: Stack(p, starts, route, v) && e.target in route
  }

  ghost predicate AllBack(p: Problem, starts: seq<nat>, s: Memory) {
    forall v: nat, e :: (v, e) in s.skipped ==> SkippedBack(p, starts, v, e)
  }

  ghost predicate SameGrays(s: Memory, t: Memory) {
    |s.color| == |t.color| && forall v: nat :: v < |s.color| ==> (s.color[v] == Gray <==> t.color[v] == Gray)
  }

  /** The vertices under construction are the ones on the stack. */
  ghost predicate GraysAre(s: Memory, route: seq<nat>) {
    forall v: nat :: v < |s.color| ==> (s.color[v] == Gray <==> v in route)
  }

  /** v can follow the stack. */
  ghost predicate Follows(p: Problem, starts: seq<nat>, route: seq<nat>, v: nat) {
    if route == [] then v in starts else Stack(p, starts, route, route[|route| - 1]) && Link(p, route[|route| - 1], v)
  }

  lemma {:induction false} SearchBack(p: Problem, starts: seq<nat>, s: Memory, v: nat, route: seq<nat>)
    requires ValidProblem(p) && |s.color| == |s.memo| == |p.out| && v < |p.out|
    requires AllBack(p, starts, s) && GraysAre(s, route) && Follows(p, starts, route, v)
    ensures var t := Search(p, false, s, v).1; AllBack(p, starts, t) && SameGrays(s, t)
    decreases Whites(s.color), 0, 0
  {
    if s.color[v] == White {
      assert v in Whites(s.color) && v !in Whites(s.color[v := Gray]);
      assert Stack(p, starts, route + [v], v);
      EdgesBack(p, starts, s.(color := s.color[v := Gray]), v, 0, NONE, route + [v]);
    }
  }

  lemma {:induction false} EdgesBack(p: Problem, starts: seq<nat>, s: Memory, v: nat, k: nat, best: DPResult,
                                     route: seq<nat>)
    requires ValidProblem(p) && |s.color| == |s.memo| == |p.out| && v < |p.out| && k <= |p.out[v]|
    requires AllBack(p, starts, s) && GraysAre(s, route) && Stack(p, starts, route, v)
    ensures var t := SearchEdges(p, false, s, v, k, best).1; AllBack(p, starts, t) && SameGrays(s, t)
    decreases Whites(s.color), 1, |p.out[v]| - k
  {
    if k < |p.out[v]| {
      EdgeBack(p, starts, s, v, k, best, route);
      var t := SearchEdge(p, false, s, v, k, best);
      EdgesBack(p, starts, t.1, v, k + 1, t.0, route);
    }
  }

  lemma {:induction false} EdgeBack(p: Problem, starts: seq<nat>, s: Memory, v: nat, k: nat, best: DPResult,
                                    route: seq<nat>)
    requires ValidProblem(p) && |s.color| == |s.memo| == |p.out| && v < |p.out| && k < |p.out[v]|
    requires AllBack(p, starts, s) && GraysAre(s, route) && Stack(p, starts, route, v)
    ensures var t := SearchEdge(p, false, s, v, k, best).1; AllBack(p, starts, t) && SameGrays(s, t)
    decreases Whites(s.color), 1, 0
  {
    var e := p.out[v][k];
    assert TargetAt(p.out, v, k);
    if !p.completes(v, e) && p.inFlight(e.target) {
      assert Continuing(p, v, e) && Link(p, v, e.target);
      SearchBack(p, starts, s, e.target, route);
      if s.color[e.target] == Gray {
        assert SkippedBack(p, starts, v, e);
      }
    }
  }

  lemma {:induction false} AllSkippedBack(p: Problem, starts: seq<nat>, all: seq<nat>)
    requires ValidStarts(p, starts) && starts <= all
    ensures AllBack(p, all, SearchAll(p, false, starts).1) && GraysAre(SearchAll(p, false, starts).1, [])
  {
    if starts != [] {
      var init, v := starts[..|starts| - 1], starts[|starts| - 1];
      AllSkippedBack(p, init, all);
      assert v == all[|starts| - 1];
      SearchBack(p, all, SearchAll(p, false, init).1, v, []);
    }
  }

  /** A path leaves its vertices along a trail. */
  lemma {:induction false} PathTrail(p: Problem, v: nat, path: Path)
    requires IsCompleting(p, v, path)
    ensures IsTrail(p, Sources(v, path))
    decreases path
  {
    if path.Then? {
      PathTrail(p, path.edge.target, path.rest);
      assert Link(p, v, path.edge.target);
    }
  }

  /** A continuing edge of a path is followed by its target. */
  lemma {:induction false} PairAt(p: Problem, v: nat, path: Path, x: nat, e: Edge) returns (j: nat)
    requires IsCompleting(p, v, path) && (x, e) in Pairs(v, path) && Continuing(p, x, e)
    ensures j + 1 < |Sources(v, path)| && Sources(v, path)[j] == x && Sources(v, path)[j + 1] == e.target
    decreases path
  {
    if path.Then? && (x, e) != (v, path.edge) {
      j := PairAt(p, path.edge.target, path.rest, x, e);
      j := j + 1;
    } else {
      j := 0;
    }
  }

  lemma FirstIn(route: seq<nat>, cycle: seq<nat>, j: nat) returns (m: nat)
    requires j < |route| && route[j] in cycle
    ensures m <= j && route[m] in cycle && forall i :: 0 <= i < m ==> route[i] !in cycle
  {
    m := 0;
    while route[m] !in cycle
      invariant m <= j && forall i :: 0 <= i < m ==> route[i] !in cycle
      decreases j - m
    {
      m := m + 1;
    }
  }

  /** Cycles that can only be entered at one vertex are harmless. */
  lemma SingleEntryAvoids(p: Problem, starts: seq<nat>)
    requires ValidStarts(p, starts) && SingleEntry(p, starts)
    ensures Avoids(p, starts)
  {
    AllSkippedBack(p, starts, starts);
    forall v: nat, path | Direct(p, starts, v, path)
      ensures Pairs(v, path) !! Skipped(p, starts)
    {
      forall x: nat, e | (x, e) in Pairs(v, path) && (x, e) in Skipped(p, starts)
        ensures false
      {
        assert SkippedBack(p, starts, x, e);
        EnteredTwice(p, starts, v, path, x, e);
      }
      assert forall pair :: pair in Pairs(v, path) ==> pair == (pair.0, pair.1);
    }
  }

  lemma EnteredTwice(p: Problem, starts: seq<nat>, v: nat, path: Path, x: nat, e: Edge)
    requires SingleEntry(p, starts) && v in starts && IsCompleting(p, v, path) && (x, e) in Pairs(v, path)
    requires SkippedBack(p, starts, x, e)
    ensures !Distinct(Sources(v, path))
  {
    hide SingleEntry, IsLoop, Enters, IsCompleting, Distinct;
    var route :| Stack(p, starts, route, x) && e.target in route;
    var i: nat :| i < |route| && route[i] == e.target;
    BackLoop(p, starts, route, x, e, i);
    PathTrail(p, v, path);
    var s := Sources(v, path);
    var j := PairAt(p, v, path, x, e);
    assert route[i..][|route| - 1 - i] == x;
    var m := FirstIn(s, route[i..], j);
    TrailEnters(p, starts, route[i..], s, m);
    SameEntry(p, starts, route[i..], s[..m + 1], route[..i + 1]);
    NotDistinct(s, m, j + 1);
  }

  lemma NotDistinct(s: seq<nat>, i: nat, j: nat)
    requires i < j < |s| && s[i] == s[j]
    ensures !Distinct(s)
  {
  }

  lemma SameEntry(p: Problem, starts: seq<nat>, cycle: seq<nat>, a: seq<nat>, b: seq<nat>)
    requires SingleEntry(p, starts) && IsLoop(p, cycle) && Enters(p, starts, cycle, a) && Enters(p, starts, cycle, b)
    ensures |a| > 0 && |b| > 0 && a[|a| - 1] == b[|b| - 1]
  {
  }

  lemma TrailEnters(p: Problem, starts: seq<nat>, cycle: seq<nat>, route: seq<nat>, m: nat)
    requires IsTrail(p, route) && route[0] in starts && m < |route| && route[m] in cycle
    requires forall i :: 0 <= i < m ==> route[i] !in cycle
    ensures Enters(p, starts, cycle, route[..m + 1])
  {
  }

  /** A skipped edge closes a loop, which the stack enters at its target. */
  lemma BackLoop(p: Problem, starts: seq<nat>, route: seq<nat>, x: nat, e: Edge, i: nat)
    requires Stack(p, starts, route, x) && Continuing(p, x, e) && i < |route| && route[i] == e.target
    ensures IsLoop(p, route[i..]) && Enters(p, starts, route[i..], route[..i + 1])
  {
    assert Link(p, x, e.target);
    assert forall k :: 0 <= k < |route[i..]| ==> route[i..][k] == route[i + k];
    assert route[i..][0] == route[i];
  }

  lemma {:induction false} TrailLeads(p: Problem, route: seq<nat>)
    requires IsTrail(p, route)
    ensures Leads(p, route[0], route[|route| - 1])
    decreases |route|
  {
    if |route| == 1 {
      LeadsSelf(p, route[0]);
    } else {
      var n := |route| - 1;
      TrailLeads(p, route[..n]);
      assert Link(p, route[n - 1], route[n]);
      var e :| Continuing(p, route[n - 1], e) && e.target == route[n];
      LeadsOn(p, route[0], route[n - 1], e);
    }
  }

  /** Where no cycle lies ahead nothing is skipped. */
  lemma AcyclicAvoids(p: Problem, starts: seq<nat>)
    requires ValidStarts(p, starts) && forall v: nat :: v in starts ==> !CycleAhead(p, v)
    ensures Avoids(p, starts)
  {
    AllSkippedBack(p, starts, starts);
    forall x: nat, e
      ensures (x, e) !in Skipped(p, starts)
    {
      if (x, e) in Skipped(p, starts) {
        assert SkippedBack(p, starts, x, e);
        BackIsCycle(p, starts, x, e);
      }
    }
    assert forall pair :: pair in Skipped(p, starts) ==> pair == (pair.0, pair.1);
  }

  lemma BackIsCycle(p: Problem, starts: seq<nat>, x: nat, e: Edge)
    requires SkippedBack(p, starts, x, e)
    ensures exists v: nat :: v in starts && CycleAhead(p, v)
  {
    var route :| Stack(p, starts, route, x) && e.target in route;
    var i: nat :| i < |route| && route[i] == e.target;
    TrailLeads(p, route);
    TrailLeads(p, route[i..]);
    assert OnCycle(p, x);
    assert CycleAhead(p, route[0]);
  }
}
