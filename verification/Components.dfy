/** Strongly connected components of a state-class graph: the invariant of
    Tarjan's algorithm and its four moves.  The recursive and the explicit-stack
    forms both run on these moves. */
module Components {
  import opened Adjacency

  ghost predicate Mutual(out: seq<seq<Edge>>, u: nat, v: nat) {
    Reaches(out, u, v) && Reaches(out, v, u)
  }

  /** The state of a run.  frames are the vertices under construction, outermost
      first, and next[v] counts the edges of v that have been followed. */
  datatype State = State(
    index: seq<int>, lowlink: seq<int>, onStack: seq<bool>, sccId: seq<int>,
    stack: seq<nat>, nextIndex: int, sccCount: int, frames: seq<nat>, next: seq<nat>)

  ghost predicate Sized(n: nat, s: State) {
    |s.index| == |s.lowlink| == |s.onStack| == |s.sccId| == |s.next| == n
  }

  ghost predicate Fits(s: State) {
    Sized(|s.index|, s)
  }

  predicate Visited(s: State, v: nat) {
    v < |s.index| && s.index[v] >= 0
  }

  predicate OnStack(s: State, v: nat) {
    v < |s.onStack| && s.onStack[v]
  }

  predicate Finished(s: State, v: nat) {
    v < |s.sccId| && s.sccId[v] >= 0
  }

  ghost function Top(s: State): nat
    requires s.frames != []
  {
    s.frames[|s.frames| - 1]
  }

  // ------------------------------------------------------------------ invariant

  ghost predicate VertexOk(out: seq<seq<Edge>>, s: State, v: nat)
    requires Sized(|out|, s)
  {
    v < |out| ==>
      && -1 <= s.index[v] < s.nextIndex && -1 <= s.sccId[v] < s.sccCount && s.next[v] <= |out[v]|
      && (s.onStack[v] <==> v in s.stack)
      && (s.onStack[v] ==> Visited(s, v))
      && (Finished(s, v) <==> Visited(s, v) && !s.onStack[v])
      && (Visited(s, v) && v !in s.frames ==> s.next[v] == |out[v]|)
      && (v in s.frames ==> s.onStack[v])
  }

  ghost predicate StackSorted(s: State, i: nat, j: nat) {
    i < j < |s.stack| ==>
      s.stack[i] < |s.index| && s.stack[j] < |s.index| && s.index[s.stack[i]] < s.index[s.stack[j]]
  }

  ghost predicate FramesSorted(s: State, i: nat, j: nat) {
    i < j < |s.frames| ==>
      s.frames[i] < |s.index| && s.frames[j] < |s.index| && s.index[s.frames[i]] < s.index[s.frames[j]]
  }

  /** Older vertices of the stack reach younger ones. */
  ghost predicate Down(out: seq<seq<Edge>>, s: State, x: nat, y: nat)
    requires Sized(|out|, s)
  {
    OnStack(s, x) && OnStack(s, y) && s.index[x] <= s.index[y] ==> Reaches(out, x, y)
  }

  /** Every vertex of the stack reaches an older one under construction. */
  ghost predicate Up(out: seq<seq<Edge>>, s: State, z: nat)
    requires Sized(|out|, s)
  {
    OnStack(s, z) ==> exists i: nat :: UpTo(out, s, z, i)
  }

  ghost predicate UpTo(out: seq<seq<Edge>>, s: State, z: nat, i: nat)
    requires Sized(|out|, s)
  {
    && i < |s.frames| && s.frames[i] < |out| && z < |out|
    && s.index[s.frames[i]] <= s.index[z] && Reaches(out, z, s.frames[i])
  }

  /** Followed edges lead to visited vertices, and those of finished vertices to
      finished ones. */
  ghost predicate EdgeOk(out: seq<seq<Edge>>, s: State, z: nat, k: nat)
    requires Sized(|out|, s)
  {
    z < |out| && k < |out[z]| ==>
      && (Visited(s, z) && k < s.next[z] ==> Visited(s, out[z][k].target))
      && (Finished(s, z) ==> Finished(s, out[z][k].target))
  }

  /** Finished vertices share a number exactly with the mutually reachable ones. */
  ghost predicate Numbered(out: seq<seq<Edge>>, s: State, x: nat, y: nat)
    requires Sized(|out|, s)
  {
    Finished(s, x) && Finished(s, y) ==> (s.sccId[x] == s.sccId[y] <==> Mutual(out, x, y))
  }

  /** low is the index of a vertex of the stack that v reaches, v's own at most. */
  ghost predicate IsLow(out: seq<seq<Edge>>, s: State, v: nat, low: int)
    requires Sized(|out|, s)
  {
    v < |out| && low <= s.index[v] && exists y: nat :: LowBy(out, s, v, low, y)
  }

  ghost predicate LowBy(out: seq<seq<Edge>>, s: State, v: nat, low: int, y: nat)
    requires Sized(|out|, s)
  {
    OnStack(s, y) && s.index[y] == low && Reaches(out, v, y)
  }

  ghost predicate LowOk(out: seq<seq<Edge>>, s: State, v: nat)
    requires Sized(|out|, s)
  {
    OnStack(s, v) ==> IsLow(out, s, v, s.lowlink[v])
  }

  /** The part of the stack that belongs to frame i. */
  ghost predicate InSegment(s: State, i: nat, z: nat) {
    && i < |s.frames| && OnStack(s, z) && z < |s.index| && s.frames[i] < |s.index|
    && s.index[s.frames[i]] <= s.index[z]
    && (i + 1 < |s.frames| ==> s.frames[i + 1] < |s.index| && s.index[z] < s.index[s.frames[i + 1]])
  }

  /** The k-th edge of z, if it leaves the segment of frame i downwards, is
      accounted for by low. */
  ghost predicate Captured(out: seq<seq<Edge>>, s: State, i: nat, low: int, z: nat, k: nat)
    requires Sized(|out|, s)
  {
    && z < |out| && k < |out[z]| && k < s.next[z] && InSegment(s, i, z)
    && OnStack(s, out[z][k].target) && s.index[out[z][k].target] < s.index[s.frames[i]] ==>
      low <= s.index[out[z][k].target]
  }

  /** The low bound of frame i: its lowlink, except that the innermost frame may
      still have to take in a child. */
  ghost function LowOf(s: State, i: nat, bound: int): int
    requires i < |s.frames| && s.frames[i] < |s.lowlink|
  {
    if i + 1 == |s.frames| then bound else s.lowlink[s.frames[i]]
  }

  ghost predicate Shape(out: seq<seq<Edge>>, s: State) {
    && Sized(|out|, s) && s.nextIndex >= 0 && s.sccCount >= 0
    && (forall v: nat :: VertexOk(out, s, v))
    && (forall v: nat :: v in s.stack ==> v < |out|)
    && (forall v: nat :: v in s.frames ==> v < |out|)
    && (forall i: nat, j: nat :: StackSorted(s, i, j))
    && (forall i: nat, j: nat :: FramesSorted(s, i, j))
    && (forall z: nat, k: nat :: EdgeOk(out, s, z, k))
  }

  ghost predicate Paths(out: seq<seq<Edge>>, s: State) {
    && Sized(|out|, s)
    && (forall x: nat, y: nat :: Down(out, s, x, y))
    && (forall z: nat :: Up(out, s, z))
    && (forall x: nat, y: nat :: Numbered(out, s, x, y))
  }

  ghost predicate Lows(out: seq<seq<Edge>>, s: State, bound: int) {
    && Sized(|out|, s)
    && (forall i: nat :: i < |s.frames| ==> s.frames[i] < |out|)
    && (forall v: nat :: LowOk(out, s, v))
    && (s.frames != [] ==> IsLow(out, s, Top(s), bound))
    && (forall i: nat, z: nat, k: nat :: i < |s.frames| ==> Captured(out, s, i, LowOf(s, i, bound), z, k))
  }

  ghost predicate Inv(out: seq<seq<Edge>>, s: State, bound: int) {
    var shape, paths, lows := Shape(out, s), Paths(out, s), Lows(out, s, bound);
    ValidOut(out) && shape && paths && lows
  }

  /** The bound when no child is pending. */
  ghost function Settled(s: State): int {
    if s.frames == [] || Top(s) >= |s.lowlink| then 0 else s.lowlink[Top(s)]
  }

  // ----------------------------------------------------------------- first move

  /** The innermost frame (if any) follows its next edge to the unvisited w. */
  function Enter(s: State, w: nat): State
    requires w < |s.index| && w < |s.lowlink| && w < |s.onStack| && w < |s.next|
  {
    State(s.index[w := s.nextIndex], s.lowlink[w := s.nextIndex], s.onStack[w := true], s.sccId,
          s.stack + [w], s.nextIndex + 1, s.sccCount, s.frames + [w], s.next[w := 0])
  }

  function Advance(s: State, v: nat): State
    requires v < |s.next|
  {
    s.(next := s.next[v := s.next[v] + 1])
  }

  lemma StackReachesTop(out: seq<seq<Edge>>, s: State, bound: int, z: nat)
    requires Inv(out, s, bound) && OnStack(s, z)
    ensures s.frames != [] && Reaches(out, z, Top(s))
  {
    assert Up(out, s, z);
    var i: nat :| UpTo(out, s, z, i);
    var x, v := s.frames[i], Top(s);
    assert FramesSorted(s, i, |s.frames| - 1) && Down(out, s, x, v);
    assert VertexOk(out, s, x) && VertexOk(out, s, v);
    ReachesOn(out, z, x, v);
  }

  ghost predicate CanEnter(out: seq<seq<Edge>>, s: State, w: nat) {
    && Sized(|out|, s) && w < |out| && !Visited(s, w)
    && (s.frames != [] ==> NextIs(out, s, Top(s), w))
  }

  ghost predicate NextIs(out: seq<seq<Edge>>, s: State, v: nat, w: nat)
    requires Sized(|out|, s)
  {
    v < |out| && s.next[v] < |out[v]| && out[v][s.next[v]].target == w
  }

  ghost function Entered(s: State, w: nat): State
    requires Fits(s) && w < |s.index| && (s.frames != [] ==> Top(s) < |s.index|)
  {
    Enter(if s.frames == [] then s else Advance(s, Top(s)), w)
  }

  lemma EnterShape(out: seq<seq<Edge>>, s: State, bound: int, w: nat)
    requires Inv(out, s, bound) && CanEnter(out, s, w)
    ensures Shape(out, Entered(s, w))
  {
    var t := Entered(s, w);
    assert VertexOk(out, s, w);
    forall v: nat
      ensures VertexOk(out, t, v)
    {
      assert VertexOk(out, s, v);
    }
    forall i: nat, j: nat
      ensures StackSorted(t, i, j) && FramesSorted(t, i, j)
    {
      assert StackSorted(s, i, j) && FramesSorted(s, i, j);
      if i < |s.stack| {
        assert VertexOk(out, s, s.stack[i]) && s.stack[i] in s.stack;
      }
      if i < |s.frames| {
        assert VertexOk(out, s, s.frames[i]) && s.frames[i] in s.frames;
      }
    }
    forall z: nat, k: nat
      ensures EdgeOk(out, t, z, k)
    {
      assert EdgeOk(out, s, z, k);
    }
  }

  lemma EnterPaths(out: seq<seq<Edge>>, s: State, bound: int, w: nat)
    requires Inv(out, s, bound) && CanEnter(out, s, w)
    ensures Paths(out, Entered(s, w))
  {
    var t := Entered(s, w);
    assert VertexOk(out, s, w);
    ReachesSelf(out, w);
    forall x: nat
      ensures OnStack(s, x) ==> Reaches(out, x, w)
    {
      if OnStack(s, x) {
        StackReachesTop(out, s, bound, x);
        var v := Top(s);
        assert out[v][s.next[v]] in out[v];
        ReachesNext(out, v, w);
        ReachesOn(out, x, v, w);
      }
    }
    forall x: nat, y: nat
      ensures Down(out, t, x, y) && Numbered(out, t, x, y)
    {
      assert Down(out, s, x, y) && Numbered(out, s, x, y) && VertexOk(out, s, y) && VertexOk(out, s, x);
    }
    forall z: nat
      ensures Up(out, t, z)
    {
      if z == w {
        assert UpTo(out, t, w, |s.frames|);
      } else if OnStack(s, z) {
        assert Up(out, s, z);
        var i: nat :| UpTo(out, s, z, i);
        assert s.frames[i] in s.frames && VertexOk(out, s, s.frames[i]);
        assert UpTo(out, t, z, i);
      }
    }
  }

  lemma KeptLow(out: seq<seq<Edge>>, s: State, t: State, v: nat, low: int)
    requires Sized(|out|, s) && Sized(|out|, t) && IsLow(out, s, v, low)
    requires t.index[v] == s.index[v]
    requires forall y: nat :: y < |out| && OnStack(s, y) && s.index[y] <= low ==>
      OnStack(t, y) && t.index[y] == s.index[y]
    ensures IsLow(out, t, v, low)
  {
    var y: nat :| LowBy(out, s, v, low, y);
    assert LowBy(out, t, v, low, y);
  }

  lemma EnterLows(out: seq<seq<Edge>>, s: State, w: nat)
    requires Inv(out, s, Settled(s)) && CanEnter(out, s, w)
    ensures Lows(out, Entered(s, w), s.nextIndex)
  {
    var t := Entered(s, w);
    assert VertexOk(out, s, w);
    ReachesSelf(out, w);
    assert LowBy(out, t, w, t.lowlink[w], w);
    forall v: nat
      ensures LowOk(out, t, v)
    {
      assert LowOk(out, s, v);
      if v != w && OnStack(s, v) {
        KeptLow(out, s, t, v, s.lowlink[v]);
      }
    }
    forall i: nat | i < |t.frames|
      ensures t.frames[i] < |out|
    {
      if i < |s.frames| {
        assert s.frames[i] in s.frames;
      }
    }
    forall i: nat, z: nat, k: nat | i < |t.frames|
      ensures Captured(out, t, i, LowOf(t, i, s.nextIndex), z, k)
    {
      if i < |s.frames| {
        EnterCaptured(out, s, w, i, z, k);
      } else {
        assert VertexOk(out, s, z);
      }
    }
  }

  lemma FrameOk(out: seq<seq<Edge>>, s: State, i: nat)
    requires Shape(out, s) && i < |s.frames|
    ensures s.frames[i] < |out| && OnStack(s, s.frames[i]) && Visited(s, s.frames[i])
      && s.index[s.frames[i]] < s.nextIndex
  {
    assert s.frames[i] in s.frames && VertexOk(out, s, s.frames[i]);
  }

  lemma EnterCaptured(out: seq<seq<Edge>>, s: State, w: nat, i: nat, z: nat, k: nat)
    requires Inv(out, s, Settled(s)) && CanEnter(out, s, w) && i < |s.frames| && s.frames[i] < |out|
    ensures var t := Entered(s, w); Captured(out, t, i, LowOf(t, i, s.nextIndex), z, k)
  {
    var t := Entered(s, w);
    FrameOk(out, s, i);
    FrameOk(out, s, |s.frames| - 1);
    if i + 1 < |s.frames| {
      FrameOk(out, s, i + 1);
    }
    assert Captured(out, s, i, LowOf(s, i, Settled(s)), z, k);
    assert VertexOk(out, s, w);
    if z < |out| && k < |out[z]| && k < t.next[z] && InSegment(t, i, z) {
      assert z != w;
      assert InSegment(s, i, z) && TargetAt(out, z, k);
      if k < s.next[z] && out[z][k].target != w {
        assert t.index[out[z][k].target] == s.index[out[z][k].target];
      } else {
        assert out[z][k].target == w;
      }
    }
  }

  // ---------------------------------------------------------------- second move

  function MinInt(a: int, b: int): int {
    if b < a then b else a
  }

  /** The innermost frame follows an edge to the visited y. */
  lemma AdvanceInv(out: seq<seq<Edge>>, s: State, bound: int, y: nat)
    requires Inv(out, s, bound) && s.frames != [] && NextIs(out, s, Top(s), y) && Visited(s, y)
    ensures Inv(out, Advance(s, Top(s)), if OnStack(s, y) then MinInt(bound, s.index[y]) else bound)
  {
    var v, t := Top(s), Advance(s, Top(s));
    var low := if OnStack(s, y) then MinInt(bound, s.index[y]) else bound;
    FrameOk(out, s, |s.frames| - 1);
    forall z: nat
      ensures VertexOk(out, t, z)
    {
      assert VertexOk(out, s, z);
    }
    forall z: nat, k: nat
      ensures EdgeOk(out, t, z, k)
    {
      assert EdgeOk(out, s, z, k);
    }
    SamePaths(out, s, t);
    forall i: nat, j: nat
      ensures StackSorted(t, i, j) && FramesSorted(t, i, j)
    {
      assert StackSorted(s, i, j) && FramesSorted(s, i, j);
    }
    assert Shape(out, t);
    AdvanceLows(out, s, bound, y, low);
  }

  lemma SamePaths(out: seq<seq<Edge>>, s: State, t: State)
    requires Paths(out, s) && Sized(|out|, t)
    requires s.index == t.index && s.onStack == t.onStack && s.sccId == t.sccId && s.frames == t.frames
    ensures Paths(out, t)
  {
    forall x: nat, y: nat
      ensures Down(out, t, x, y) && Numbered(out, t, x, y)
    {
      assert Down(out, s, x, y) && Numbered(out, s, x, y);
    }
    forall z: nat
      ensures Up(out, t, z)
    {
      assert Up(out, s, z);
      if OnStack(s, z) {
        var i: nat :| UpTo(out, s, z, i);
        assert UpTo(out, t, z, i);
      }
    }
  }

  lemma AdvanceLows(out: seq<seq<Edge>>, s: State, bound: int, y: nat, low: int)
    requires Inv(out, s, bound) && s.frames != [] && NextIs(out, s, Top(s), y) && Visited(s, y)
    requires low == if OnStack(s, y) then MinInt(bound, s.index[y]) else bound
    ensures Lows(out, Advance(s, Top(s)), low)
  {
    var v, t := Top(s), Advance(s, Top(s));
    var last: nat := |s.frames| - 1;
    FrameOk(out, s, last);
    forall x: nat
      ensures LowOk(out, t, x)
    {
      assert LowOk(out, s, x);
      if OnStack(s, x) {
        KeptLow(out, s, t, x, s.lowlink[x]);
      }
    }
    if low == bound {
      KeptLow(out, s, t, v, bound);
    } else {
      assert out[v][s.next[v]] in out[v];
      ReachesNext(out, v, y);
      assert LowBy(out, t, v, low, y);
    }
    forall i: nat, z: nat, k: nat | i < |t.frames|
      ensures Captured(out, t, i, LowOf(t, i, low), z, k)
    {
      assert Captured(out, s, i, LowOf(s, i, bound), z, k);
      if z == v && i < last {
        assert FramesSorted(s, i + 1, last);
      }
      assert InSegment(t, i, z) <==> InSegment(s, i, z);
    }
  }

  /** The innermost frame takes in its pending bound. */
  function Lower(s: State, v: nat, low: int): State
    requires v < |s.lowlink|
  {
    s.(lowlink := s.lowlink[v := low])
  }

  lemma LowerInv(out: seq<seq<Edge>>, s: State, bound: int)
    requires Inv(out, s, bound) && s.frames != [] && Top(s) < |out|
    ensures Inv(out, Lower(s, Top(s), bound), bound)
  {
    var v, t := Top(s), Lower(s, Top(s), bound);
    var last: nat := |s.frames| - 1;
    forall z: nat
      ensures VertexOk(out, t, z)
    {
      assert VertexOk(out, s, z);
    }
    forall z: nat, k: nat
      ensures EdgeOk(out, t, z, k)
    {
      assert EdgeOk(out, s, z, k);
    }
    SamePaths(out, s, t);
    forall i: nat, j: nat
      ensures StackSorted(t, i, j) && FramesSorted(t, i, j)
    {
      assert StackSorted(s, i, j) && FramesSorted(s, i, j);
    }
    assert Shape(out, t);
    KeptLow(out, s, t, v, bound);
    forall x: nat
      ensures LowOk(out, t, x)
    {
      assert LowOk(out, s, x);
      if OnStack(s, x) && x != v {
        KeptLow(out, s, t, x, s.lowlink[x]);
      }
    }
    forall i: nat, z: nat, k: nat | i < |t.frames|
      ensures Captured(out, t, i, LowOf(t, i, bound), z, k)
    {
      assert Captured(out, s, i, LowOf(s, i, bound), z, k);
      if i < last {
        assert FramesSorted(s, i, last);
      }
      assert InSegment(t, i, z) <==> InSegment(s, i, z);
    }
  }

  // ----------------------------------------------------------------- third move

  /** All edges of the innermost frame are followed, and its lowlink is up to
      date. */
  ghost predicate CanLeave(out: seq<seq<Edge>>, s: State) {
    Sized(|out|, s) && s.frames != [] && Top(s) < |out| && s.next[Top(s)] == |out[Top(s)]|
  }

  ghost function Init(s: State): seq<nat>
    requires s.frames != []
  {
    s.frames[..|s.frames| - 1]
  }

  /** The bound of the parent once the innermost frame has returned to it. */
  ghost function Returned(s: State): int
    requires s.frames != [] && Top(s) < |s.lowlink|
  {
    if |s.frames| == 1 || s.frames[|s.frames| - 2] >= |s.lowlink| then 0
    else MinInt(s.lowlink[s.frames[|s.frames| - 2]], s.lowlink[Top(s)])
  }

  lemma LeaveShape(out: seq<seq<Edge>>, s: State)
    requires Shape(out, s) && CanLeave(out, s)
    ensures Shape(out, s.(frames := Init(s)))
  {
    var t, last: nat := s.(frames := Init(s)), |s.frames| - 1;
    assert forall x: nat :: x in t.frames ==> x in s.frames;
    forall z: nat
      ensures VertexOk(out, t, z)
    {
      assert VertexOk(out, s, z);
      if z in s.frames && z !in t.frames {
        assert z == Top(s);
      }
    }
    forall z: nat, k: nat
      ensures EdgeOk(out, t, z, k)
    {
      assert EdgeOk(out, s, z, k);
    }
    forall i: nat, j: nat
      ensures StackSorted(t, i, j) && FramesSorted(t, i, j)
    {
      assert StackSorted(s, i, j) && FramesSorted(s, i, j);
    }
  }

  lemma LeaveInnerPaths(out: seq<seq<Edge>>, s: State, j: nat)
    requires Paths(out, s) && Shape(out, s) && CanLeave(out, s)
    requires j < |s.frames| - 1 && UpTo(out, s, Top(s), j)
    ensures Paths(out, s.(frames := Init(s)))
  {
    var t, last: nat := s.(frames := Init(s)), |s.frames| - 1;
    forall x: nat, y: nat
      ensures Down(out, t, x, y) && Numbered(out, t, x, y)
    {
      assert Down(out, s, x, y) && Numbered(out, s, x, y);
    }
    forall z: nat
      ensures Up(out, t, z)
    {
      assert Up(out, s, z);
      if OnStack(s, z) {
        var i: nat :| UpTo(out, s, z, i);
        if i == last {
          ReachesOn(out, z, Top(s), s.frames[j]);
          assert UpTo(out, t, z, j);
        } else {
          assert UpTo(out, t, z, i);
        }
      }
    }
  }

  lemma LeaveInnerLows(out: seq<seq<Edge>>, s: State)
    requires Inv(out, s, Settled(s)) && CanLeave(out, s) && |s.frames| > 1
    ensures Lows(out, s.(frames := Init(s)), Returned(s))
  {
    var t, last: nat := s.(frames := Init(s)), |s.frames| - 1;
    var v, p, low := Top(s), s.frames[last - 1], Returned(s);
    FrameOk(out, s, last);
    FrameOk(out, s, last - 1);
    assert LowOk(out, s, v) && LowOk(out, s, p) && FramesSorted(s, last - 1, last);
    forall x: nat
      ensures LowOk(out, t, x)
    {
      assert LowOk(out, s, x);
      if OnStack(s, x) {
        KeptLow(out, s, t, x, s.lowlink[x]);
      }
    }
    if low == s.lowlink[p] {
      KeptLow(out, s, t, p, low);
    } else {
      var y: nat :| LowBy(out, s, v, low, y);
      assert Down(out, s, p, v);
      ReachesOn(out, p, v, y);
      assert LowBy(out, t, p, low, y);
    }
    forall i: nat, z: nat, k: nat | i < |t.frames|
      ensures Captured(out, t, i, LowOf(t, i, low), z, k)
    {
      assert Captured(out, s, i, LowOf(s, i, Settled(s)), z, k);
      if i == last - 1 {
        assert Captured(out, s, last, LowOf(s, last, Settled(s)), z, k);
        assert InSegment(t, i, z) ==> InSegment(s, i, z) || InSegment(s, last, z);
      } else {
        assert InSegment(t, i, z) ==> InSegment(s, i, z);
      }
    }
  }

  /** Leaving a vertex that is not the root of its component. */
  lemma LeaveInner(out: seq<seq<Edge>>, s: State)
    requires Inv(out, s, Settled(s)) && CanLeave(out, s) && s.lowlink[Top(s)] != s.index[Top(s)]
    ensures |s.frames| > 1
    ensures Inv(out, s.(frames := Init(s)), Returned(s))
  {
    var v, last := Top(s), |s.frames| - 1;
    var low := s.lowlink[v];
    FrameOk(out, s, last);
    assert LowOk(out, s, v);
    var y: nat :| LowBy(out, s, v, low, y);
    assert Up(out, s, y);
    var j: nat :| UpTo(out, s, y, j);
    ReachesOn(out, v, y, s.frames[j]);
    assert UpTo(out, s, v, j);
    LeaveShape(out, s);
    LeaveInnerPaths(out, s, j);
    LeaveInnerLows(out, s);
  }

  // ---------------------------------------------------------------- fourth move

  /** The marks once the stack from position j on has been taken off. */
  ghost function TakenOff(s: State, j: nat): (r: seq<bool>)
    requires Fits(s) && j <= |s.stack|
    ensures |r| == |s.onStack|
    ensures forall x: nat :: x < |r| ==> (r[x] <==> s.onStack[x] && x !in s.stack[j..])
  {
    seq(|s.onStack|, x requires 0 <= x < |s.onStack| => s.onStack[x] && x !in s.stack[j..])
  }

  ghost function NumberedFrom(s: State, j: nat): (r: seq<int>)
    requires Fits(s) && j <= |s.stack|
    ensures |r| == |s.sccId|
    ensures forall x: nat :: x < |r| ==> r[x] == if x in s.stack[j..] then s.sccCount else s.sccId[x]
  {
    seq(|s.sccId|, x requires 0 <= x < |s.sccId| => if x in s.stack[j..] then s.sccCount else s.sccId[x])
  }

  lemma TakeOffOne(s: State, j: nat)
    requires Fits(s) && j < |s.stack| && s.stack[j] < |s.index|
    ensures TakenOff(s, j) == TakenOff(s, j + 1)[s.stack[j] := false]
    ensures NumberedFrom(s, j) == NumberedFrom(s, j + 1)[s.stack[j] := s.sccCount]
  {
    assert s.stack[j..] == [s.stack[j]] + s.stack[j + 1..];
  }

  /** The vertices above position m of the stack become one component. */
  ghost function Popped(s: State, m: nat): State
    requires Fits(s) && m <= |s.stack| && s.frames != []
  {
    s.(onStack := TakenOff(s, m), sccId := NumberedFrom(s, m), stack := s.stack[..m],
       sccCount := s.sccCount + 1, frames := Init(s))
  }

  /** Position m of the stack holds the innermost frame, a root. */
  ghost predicate IsRoot(out: seq<seq<Edge>>, s: State, m: nat) {
    && Inv(out, s, Settled(s)) && CanLeave(out, s) && s.lowlink[Top(s)] == s.index[Top(s)]
    && m < |s.stack| && s.stack[m] == Top(s)
  }

  /** From the end of the stack, v is first met at position m. */
  ghost predicate MetAt(s: State, v: nat, m: nat) {
    m < |s.stack| && forall j: nat :: m <= j < |s.stack| ==> StandsAt(s, v, m, j)
  }

  ghost predicate StandsAt(s: State, v: nat, m: nat, j: nat)
    requires j < |s.stack|
  {
    s.stack[j] < |s.index| && (s.stack[j] == v <==> j == m)
  }

  lemma RootPosition(out: seq<seq<Edge>>, s: State, m: nat)
    requires IsRoot(out, s, m)
    ensures MetAt(s, Top(s), m)
  {
    forall j: nat | m <= j < |s.stack|
      ensures StandsAt(s, Top(s), m, j)
    {
      assert s.stack[j] in s.stack && StackSorted(s, m, j);
    }
  }

  ghost predicate Above(s: State, v: nat, x: nat) {
    OnStack(s, x) && x < |s.index| && v < |s.index| && s.index[v] <= s.index[x]
  }

  lemma AboveIff(out: seq<seq<Edge>>, s: State, m: nat, x: nat)
    requires IsRoot(out, s, m)
    ensures x in s.stack[m..] <==> Above(s, Top(s), x)
    ensures x in s.stack[..m] <==> OnStack(s, x) && !Above(s, Top(s), x)
  {
    assert VertexOk(out, s, x);
    FrameOk(out, s, |s.frames| - 1);
    if x in s.stack {
      var i: nat :| i < |s.stack| && s.stack[i] == x;
      assert StackSorted(s, i, m) && StackSorted(s, m, i);
      assert i >= m ==> s.stack[m..][i - m] == x;
      assert i < m ==> s.stack[..m][i] == x;
    }
    if x in s.stack[m..] {
      var j: nat :| j < |s.stack| - m && s.stack[m..][j] == x;
      assert StackSorted(s, m, m + j) && s.stack[m + j] == x && x in s.stack;
    }
    if x in s.stack[..m] {
      var j: nat :| j < m && s.stack[..m][j] == x;
      assert StackSorted(s, j, m) && x in s.stack;
    }
  }

  lemma AboveMutual(out: seq<seq<Edge>>, s: State, m: nat, x: nat, y: nat)
    requires IsRoot(out, s, m) && Above(s, Top(s), x) && Above(s, Top(s), y)
    ensures Mutual(out, x, y)
  {
    var v := Top(s);
    FrameOk(out, s, |s.frames| - 1);
    StackReachesTop(out, s, Settled(s), x);
    StackReachesTop(out, s, Settled(s), y);
    assert Down(out, s, v, x) && Down(out, s, v, y);
    ReachesOn(out, x, v, y);
    ReachesOn(out, y, v, x);
  }

  /** Edges of the new component stay in it or lead to finished vertices. */
  lemma AboveClosed(out: seq<seq<Edge>>, s: State, m: nat, z: nat, k: nat)
    requires IsRoot(out, s, m) && Above(s, Top(s), z) && z < |out| && k < |out[z]|
    ensures Above(s, Top(s), out[z][k].target) || Finished(s, out[z][k].target)
  {
    var v, last: nat, y := Top(s), |s.frames| - 1, out[z][k].target;
    FrameOk(out, s, last);
    assert VertexOk(out, s, z);
    if z in s.frames && z != v {
      var i: nat :| i < |s.frames| && s.frames[i] == z;
      assert FramesSorted(s, i, last);
    }
    assert TargetAt(out, z, k) && EdgeOk(out, s, z, k) && VertexOk(out, s, y);
    assert InSegment(s, last, z);
    assert Captured(out, s, last, LowOf(s, last, Settled(s)), z, k);
  }

  /** Finished vertices only lead to finished ones. */
  lemma FinishedClosed(out: seq<seq<Edge>>, s: State, x: nat, y: nat)
    requires Shape(out, s) && Finished(s, x) && Reaches(out, x, y)
    ensures Finished(s, y)
  {
    var route :| IsRoute(out, route, x, y);
    var i: nat := 0;
    while i + 1 < |route|
      invariant i < |route| && Finished(s, route[i])
    {
      assert AdjacentAt(out, route, i);
      var k := EdgeIn(out, route[i], route[i + 1]);
      assert EdgeOk(out, s, route[i], k);
      i := i + 1;
    }
  }

  lemma PoppedShape(out: seq<seq<Edge>>, s: State, m: nat)
    requires IsRoot(out, s, m)
    ensures Shape(out, Popped(s, m))
  {
    var t, last: nat := Popped(s, m), |s.frames| - 1;
    FrameOk(out, s, last);
    assert forall x: nat :: x in t.frames ==> x in s.frames;
    assert forall x: nat :: x in t.stack ==> x in s.stack;
    forall x: nat
      ensures VertexOk(out, t, x)
    {
      assert VertexOk(out, s, x);
      AboveIff(out, s, m, x);
      if x in t.frames {
        var i: nat :| i < last && s.frames[i] == x;
        assert FramesSorted(s, i, last);
      }
      if x in s.frames && x !in t.frames {
        assert x == Top(s);
      }
    }
    forall i: nat, j: nat
      ensures StackSorted(t, i, j) && FramesSorted(t, i, j)
    {
      assert StackSorted(s, i, j) && FramesSorted(s, i, j);
    }
    forall z: nat, k: nat
      ensures EdgeOk(out, t, z, k)
    {
      assert EdgeOk(out, s, z, k);
      if z < |out| && k < |out[z]| {
        AboveIff(out, s, m, z);
        AboveIff(out, s, m, out[z][k].target);
        if Above(s, Top(s), z) {
          AboveClosed(out, s, m, z, k);
        }
      }
    }
  }

  lemma PoppedNumbered(out: seq<seq<Edge>>, s: State, m: nat, x: nat, y: nat)
    requires IsRoot(out, s, m)
    ensures Numbered(out, Popped(s, m), x, y)
  {
    assert Numbered(out, s, x, y) && VertexOk(out, s, x) && VertexOk(out, s, y);
    AboveIff(out, s, m, x);
    AboveIff(out, s, m, y);
    if Above(s, Top(s), x) && Above(s, Top(s), y) {
      AboveMutual(out, s, m, x, y);
    } else if Finished(s, x) && Above(s, Top(s), y) && Reaches(out, x, y) {
      FinishedClosed(out, s, x, y);
    } else if Finished(s, y) && Above(s, Top(s), x) && Reaches(out, y, x) {
      FinishedClosed(out, s, y, x);
    }
  }

  lemma PoppedPaths(out: seq<seq<Edge>>, s: State, m: nat)
    requires IsRoot(out, s, m)
    ensures Paths(out, Popped(s, m))
  {
    var t, last: nat := Popped(s, m), |s.frames| - 1;
    FrameOk(out, s, last);
    forall x: nat, y: nat
      ensures Down(out, t, x, y) && Numbered(out, t, x, y)
    {
      assert Down(out, s, x, y);
      PoppedNumbered(out, s, m, x, y);
    }
    forall z: nat
      ensures Up(out, t, z)
    {
      assert Up(out, s, z);
      AboveIff(out, s, m, z);
      if OnStack(t, z) {
        var i: nat :| UpTo(out, s, z, i);
        assert i != last;
        assert UpTo(out, t, z, i);
      }
    }
  }

  lemma PoppedLows(out: seq<seq<Edge>>, s: State, m: nat)
    requires IsRoot(out, s, m)
    ensures Lows(out, Popped(s, m), Returned(s))
  {
    var t, last: nat := Popped(s, m), |s.frames| - 1;
    FrameOk(out, s, last);
    forall x: nat
      ensures OnStack(t, x) <==> OnStack(s, x) && s.index[x] < s.index[Top(s)]
    {
      AboveIff(out, s, m, x);
    }
    forall i: nat | i < last
      ensures s.frames[i] < |out| && OnStack(t, s.frames[i]) && s.lowlink[s.frames[i]] < s.index[Top(s)]
    {
      FrameOk(out, s, i);
      assert FramesSorted(s, i, last) && LowOk(out, s, s.frames[i]);
    }
    forall x: nat
      ensures LowOk(out, t, x)
    {
      assert LowOk(out, s, x);
      if OnStack(t, x) {
        KeptLow(out, s, t, x, s.lowlink[x]);
      }
    }
    if last > 0 {
      var p := s.frames[last - 1];
      assert LowOk(out, t, p);
    }
    forall i: nat, z: nat, k: nat | i < |t.frames|
      ensures Captured(out, t, i, LowOf(t, i, Returned(s)), z, k)
    {
      assert Captured(out, s, i, LowOf(s, i, Settled(s)), z, k);
      assert InSegment(t, i, z) ==> InSegment(s, i, z);
    }
  }

  /** Leaving the root of a component. */
  lemma LeaveRoot(out: seq<seq<Edge>>, s: State, m: nat)
    requires IsRoot(out, s, m)
    ensures Inv(out, Popped(s, m), Returned(s))
  {
    PoppedShape(out, s, m);
    PoppedPaths(out, s, m);
    PoppedLows(out, s, m);
  }

  // ------------------------------------------------------------ followed edges

  /** Of the frames, exactly the innermost has followed one more edge. */
  ghost predicate NextKept(frames: seq<nat>, before: seq<nat>, after: seq<nat>) {
    && |before| == |after|
    && forall i: nat :: i < |frames| ==> NextKeptAt(frames, before, after, i)
  }

  ghost predicate NextKeptAt(frames: seq<nat>, before: seq<nat>, after: seq<nat>, i: nat)
    requires i < |frames|
  {
    && frames[i] < |before| && frames[i] < |after|
    && after[frames[i]] == before[frames[i]] + if i + 1 == |frames| then 1 else 0
  }

  lemma AdvanceKept(out: seq<seq<Edge>>, s: State)
    requires Shape(out, s) && s.frames != [] && Top(s) < |out|
    ensures NextKept(s.frames, s.next, Advance(s, Top(s)).next)
  {
    forall i: nat | i < |s.frames|
      ensures NextKeptAt(s.frames, s.next, Advance(s, Top(s)).next, i)
    {
      assert FramesSorted(s, i, |s.frames| - 1) && s.frames[i] in s.frames;
    }
  }

  lemma EnterKept(out: seq<seq<Edge>>, s: State, w: nat)
    requires Shape(out, s) && CanEnter(out, s, w)
    ensures NextKept(s.frames, s.next, Entered(s, w).next)
  {
    if s.frames != [] {
      AdvanceKept(out, s);
    }
    forall i: nat | i < |s.frames|
      ensures NextKeptAt(s.frames, s.next, Entered(s, w).next, i)
    {
      FrameOk(out, s, i);
      assert NextKeptAt(s.frames, s.next, Advance(s, Top(s)).next, i);
    }
  }

  lemma KeptTwice(frames: seq<nat>, v: nat, a: seq<nat>, b: seq<nat>, c: seq<nat>)
    requires NextKept(frames, a, b) && NextKept(frames + [v], b, c)
    ensures NextKept(frames, a, c) && v < |b| && c[v] == b[v] + 1
  {
    assert NextKeptAt(frames + [v], b, c, |frames|);
    forall i: nat | i < |frames|
      ensures NextKeptAt(frames, a, c, i)
    {
      assert NextKeptAt(frames, a, b, i) && NextKeptAt(frames + [v], b, c, i);
    }
  }

  // ------------------------------------------------------------ whole explorations

  /** scc numbers all vertices, equally exactly where they reach each other. */
  ghost predicate IsPartition(out: seq<seq<Edge>>, scc: seq<int>, count: int) {
    && |scc| == |out| && count >= 0
    && (forall v: nat :: v < |scc| ==> 0 <= scc[v] < count)
    && (forall u: nat, v: nat :: u < |scc| && v < |scc| ==> SameNumber(out, scc, u, v))
  }

  ghost predicate SameNumber(out: seq<seq<Edge>>, scc: seq<int>, u: nat, v: nat)
    requires u < |scc| && v < |scc|
  {
    scc[u] == scc[v] <==> Mutual(out, u, v)
  }

  ghost function Fresh(n: nat): State {
    State(seq(n, _ => -1), seq(n, _ => 0), seq(n, _ => false), seq(n, _ => -1), [], 0, 0, [], seq(n, _ => 0))
  }

  lemma FreshInv(out: seq<seq<Edge>>)
    requires ValidOut(out)
    ensures Inv(out, Fresh(|out|), 0)
  {
  }

  ghost predicate VisitedBelow(index: seq<int>, n: nat) {
    forall u: nat :: u < n && u < |index| ==> index[u] >= 0
  }

  lemma AllFinished(out: seq<seq<Edge>>, s: State, bound: int)
    requires Inv(out, s, bound) && s.frames == [] && VisitedBelow(s.index, |out|)
    ensures IsPartition(out, s.sccId, s.sccCount)
  {
    forall v: nat | v < |out|
      ensures Finished(s, v) && 0 <= s.sccId[v] < s.sccCount
    {
      assert VertexOk(out, s, v);
      if OnStack(s, v) {
        StackReachesTop(out, s, bound, v);
      }
    }
    forall u: nat, v: nat | u < |out| && v < |out|
      ensures SameNumber(out, s.sccId, u, v)
    {
      assert Numbered(out, s, u, v);
    }
  }

  lemma EnterInv(out: seq<seq<Edge>>, s: State, w: nat)
    requires Inv(out, s, Settled(s)) && CanEnter(out, s, w)
    ensures Inv(out, Entered(s, w), s.nextIndex)
  {
    EnterShape(out, s, Settled(s), w);
    EnterPaths(out, s, Settled(s), w);
    EnterLows(out, s, w);
  }

  /** Without frames the bound says nothing. */
  lemma AnyBound(out: seq<seq<Edge>>, s: State, bound: int, other: int)
    requires Inv(out, s, bound) && s.frames == []
    ensures Inv(out, s, other)
  {
    assert Lows(out, s, other) by {
      assert Lows(out, s, bound);
    }
  }
}
