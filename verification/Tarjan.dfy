/** Tarjan's algorithm, recursive and with an explicit stack of frames. */
module Tarjan {
  import opened Adjacency
  import opened Components

  class TarjanSearch {
    const out: seq<seq<Edge>>

    var index: seq<int>
    var lowlink: seq<int>
    var onStack: seq<bool>
    var sccId: seq<int>
    var stack: seq<nat>
    var nextIndex: int
    var sccCount: int
    ghost var frames: seq<nat>
    ghost var next: seq<nat>

    constructor (out: seq<seq<Edge>>)
      ensures this.out == out && Knows() == Fresh(|out|)
    {
      var n := |out|;
      this.out := out;
      index, lowlink, onStack, sccId := seq(n, _ => -1), seq(n, _ => 0), seq(n, _ => false), seq(n, _ => -1);
      stack, nextIndex, sccCount := [], 0, 0;
      frames, next := [], seq(n, _ => 0);
    }

    ghost function Knows(): State
      reads this
    {
      State(index, lowlink, onStack, sccId, stack, nextIndex, sccCount, frames, next)
    }

    /** Starts on v, which the innermost frame leads to. */
    method Visit(v: nat)
      requires CanEnter(out, Knows(), v) && Inv(out, Knows(), Settled(Knows()))
      modifies this
      ensures Knows() == Entered(old(Knows()), v) && Inv(out, Knows(), lowlink[v])
    {
      EnterInv(out, Knows(), v);
      if frames != [] {
        FrameOk(out, Knows(), |frames| - 1);
        next := next[Top(Knows()) := next[Top(Knows())] + 1];
      }
      index, lowlink := index[v := nextIndex], lowlink[v := nextIndex];
      nextIndex := nextIndex + 1;
      stack, onStack := stack + [v], onStack[v := true];
      frames, next := frames + [v], next[v := 0];
    }

    /** Pops the component of its root v off the stack. */
    method PopComponent(v: nat, ghost m: nat)
      requires Fits(Knows()) && MetAt(Knows(), v, m) && frames != []
      modifies this
      ensures Knows() == Popped(old(Knows()), m)
    {
      ghost var s := Knows();
      while true
        invariant m < |stack| <= |s.stack| && stack == s.stack[..|stack|]
        invariant onStack == TakenOff(s, |stack|) && sccId == NumberedFrom(s, |stack|)
        invariant Knows() == s.(stack := stack, onStack := onStack, sccId := sccId)
        decreases |stack|
      {
        assert StandsAt(s, v, m, |stack| - 1);
        TakeOffOne(s, |stack| - 1);
        var w := stack[|stack| - 1];
        stack := stack[..|stack| - 1];
        onStack, sccId := onStack[w := false], sccId[w := sccCount];
        if w == v {
          break;
        }
      }
      sccCount := sccCount + 1;
      frames := Init(s);
    }

    /** What the innermost frame may still take in from a child v. */
    ghost function Pending(v: nat): int
      reads this
    {
      if frames == [] || Top(Knows()) >= |lowlink| || v >= |lowlink| then 0
      else MinInt(lowlink[Top(Knows())], lowlink[v])
    }

    /** Leaves v, popping its component if v is a root. */
    method Leave(v: nat)
      requires Inv(out, Knows(), Settled(Knows())) && CanLeave(out, Knows()) && v == Top(Knows())
      modifies this
      ensures frames == old(Init(Knows())) && index == old(index) && lowlink == old(lowlink) && next == old(next)
      ensures Inv(out, Knows(), Pending(v))
    {
      ghost var s := Knows();
      FrameOk(out, s, |frames| - 1);
      if lowlink[v] == index[v] {
        assert VertexOk(out, s, v);
        ghost var m: nat :| m < |stack| && stack[m] == v;
        RootPosition(out, s, m);
        PopComponent(v, m);
        LeaveRoot(out, s, m);
      } else {
        LeaveInner(out, s);
        frames := Init(s);
      }
    }

    /** The recursive search from v. */
    method StrongConnect(v: nat)
      requires Inv(out, Knows(), Settled(Knows())) && CanEnter(out, Knows(), v)
      modifies this
      ensures frames == old(frames) && Inv(out, Knows(), Pending(v)) && Visited(Knows(), v)
      ensures Unvisited(index) < old(Unvisited(index))
      ensures NextKept(frames, old(next), next)
      decreases Unvisited(index), 0
    {
      ghost var before := Knows();
      EnterKept(out, before, v);
      Visit(v);
      for k := 0 to |out[v]|
        invariant frames == before.frames + [v] && |next| == |lowlink| == |out| && next[v] == k
        invariant Inv(out, Knows(), lowlink[v])
        invariant Unvisited(index) <= old(Unvisited(index)) - {v}
        invariant NextKept(before.frames, before.next, next)
      {
        ghost var now := next;
        FollowEdge(v, k);
        KeptTwice(before.frames, v, before.next, now, next);
      }
      Leave(v);
    }

    /** One round of its edge loop. */
    method FollowEdge(v: nat, k: nat)
      requires frames != [] && v == Top(Knows()) && Inv(out, Knows(), Settled(Knows()))
      requires v < |out| && k < |out[v]| && next[v] == k
      modifies this
      ensures frames == old(frames) && Inv(out, Knows(), Settled(Knows()))
      ensures Unvisited(index) <= old(Unvisited(index))
      ensures NextKept(frames, old(next), next)
      decreases Unvisited(index), 1
    {
      var w := out[v][k].target;
      ghost var s := Knows();
      assert TargetAt(out, v, k);
      if index[w] < 0 {
        StrongConnect(w);
        LowerInv(out, Knows(), Pending(w));
        lowlink := lowlink[v := MinInt(lowlink[v], lowlink[w])];
      } else {
        AdvanceInv(out, s, lowlink[v], w);
        AdvanceKept(out, s);
        next := next[v := k + 1];
        if onStack[w] {
          LowerInv(out, Knows(), MinInt(lowlink[v], index[w]));
          lowlink := lowlink[v := MinInt(lowlink[v], index[w])];
        }
      }
    }

    /** One turn of the loop over explicit frames. */
    method Turn(dfs: seq<Frame>) returns (more: seq<Frame>)
      requires dfs != [] && Mirrors(dfs, frames, next) && Inv(out, Knows(), Settled(Knows()))
      modifies this
      ensures Mirrors(more, frames, next) && Inv(out, Knows(), Settled(Knows()))
      ensures Lesser(out, old(index), old(next), |dfs|, index, next, |more|)
    {
      ghost var s := Knows();
      var last := |dfs| - 1;
      var v, k := dfs[last].vertex, dfs[last].next;
      assert MirrorsAt(dfs, frames, next, last);
      FrameOk(out, s, last);
      assert VertexOk(out, s, v);
      if k < |out[v]| {
        var w := out[v][k].target;
        assert TargetAt(out, v, k);
        more := dfs[last := Frame(v, k + 1)];
        if index[w] < 0 {
          EnterKept(out, s, w);
          Visit(w);
          MirrorsOn(dfs, s.frames, s.next, next);
          MirrorsPush(more, s.frames, next, w);
          more := more + [Frame(w, 0)];
          assert w in Unvisited(s.index);
        } else {
          AdvanceKept(out, s);
          AdvanceInv(out, s, lowlink[v], w);
          OneLess(out, next, v, |out|);
          next := next[v := k + 1];
          MirrorsOn(dfs, s.frames, s.next, next);
          if onStack[w] {
            LowerInv(out, Knows(), MinInt(lowlink[v], index[w]));
            lowlink := lowlink[v := MinInt(lowlink[v], index[w])];
          }
        }
      } else {
        more := dfs[..last];
        MirrorsLess(dfs, frames, next);
        TurnBack(v, more);
      }
    }

    /** Leaves v for the frame below it, if any. */
    method TurnBack(v: nat, more: seq<Frame>)
      requires CanLeave(out, Knows()) && v == Top(Knows()) && Inv(out, Knows(), Settled(Knows()))
      requires Mirrors(more, Init(Knows()), next)
      modifies this
      ensures frames == old(Init(Knows())) && index == old(index) && next == old(next)
      ensures Inv(out, Knows(), Settled(Knows()))
    {
      Leave(v);
      if more != [] {
        var parent := more[|more| - 1].vertex;
        assert MirrorsAt(more, frames, next, |more| - 1);
        FrameOk(out, Knows(), |frames| - 1);
        LowerInv(out, Knows(), Pending(v));
        lowlink := lowlink[parent := MinInt(lowlink[parent], lowlink[v])];
      } else {
        AnyBound(out, Knows(), Pending(v), 0);
      }
    }

    /** The loop over explicit frames, from an unvisited start. */
    method RunFrom(start: nat)
      requires Inv(out, Knows(), 0) && frames == [] && CanEnter(out, Knows(), start)
      modifies this
      ensures Inv(out, Knows(), 0) && frames == [] && Unvisited(index) <= old(Unvisited(index)) - {start}
    {
      Visit(start);
      var dfs := [Frame(start, 0)];
      while dfs != []
        invariant Mirrors(dfs, frames, next) && Inv(out, Knows(), Settled(Knows()))
        invariant |index| == |old(index)| && Unvisited(index) <= old(Unvisited(index)) - {start}
        decreases Unvisited(index), EdgesLeft(out, next, |out|), |dfs|
      {
        dfs := Turn(dfs);
      }
    }
  }

  datatype Frame = Frame(vertex: nat, next: nat)

  /** The explicit frames are the vertices under construction and their counts. */
  ghost predicate Mirrors(dfs: seq<Frame>, frames: seq<nat>, next: seq<nat>) {
    |dfs| == |frames| && forall i: nat :: i < |dfs| ==> MirrorsAt(dfs, frames, next, i)
  }

  ghost predicate MirrorsAt(dfs: seq<Frame>, frames: seq<nat>, next: seq<nat>, i: nat)
    requires i < |dfs| == |frames|
  {
    frames[i] < |next| && dfs[i] == Frame(frames[i], next[frames[i]])
  }

  lemma MirrorsOn(dfs: seq<Frame>, frames: seq<nat>, before: seq<nat>, after: seq<nat>)
    requires dfs != [] && Mirrors(dfs, frames, before) && NextKept(frames, before, after)
    ensures
      var last := |dfs| - 1;
      Mirrors(dfs[last := Frame(dfs[last].vertex, dfs[last].next + 1)], frames, after)
  {
    var last := |dfs| - 1;
    var more := dfs[last := Frame(dfs[last].vertex, dfs[last].next + 1)];
    forall i: nat | i < |more|
      ensures MirrorsAt(more, frames, after, i)
    {
      assert MirrorsAt(dfs, frames, before, i) && NextKeptAt(frames, before, after, i);
    }
  }

  lemma MirrorsPush(dfs: seq<Frame>, frames: seq<nat>, next: seq<nat>, w: nat)
    requires Mirrors(dfs, frames, next) && w < |next| && next[w] == 0
    ensures Mirrors(dfs + [Frame(w, 0)], frames + [w], next)
  {
    var more, longer := dfs + [Frame(w, 0)], frames + [w];
    forall i: nat | i < |more|
      ensures MirrorsAt(more, longer, next, i)
    {
      assert i < |dfs| ==> MirrorsAt(dfs, frames, next, i);
    }
  }

  lemma MirrorsLess(dfs: seq<Frame>, frames: seq<nat>, next: seq<nat>)
    requires dfs != [] && Mirrors(dfs, frames, next)
    ensures Mirrors(dfs[..|dfs| - 1], frames[..|dfs| - 1], next)
  {
    var less, shorter := dfs[..|dfs| - 1], frames[..|dfs| - 1];
    forall i: nat | i < |less|
      ensures MirrorsAt(less, shorter, next, i)
    {
      assert MirrorsAt(dfs, frames, next, i);
    }
  }

  /** Edges of the first n vertices not followed yet. */
  ghost function EdgesLeft(out: seq<seq<Edge>>, next: seq<nat>, n: nat): nat
    requires n <= |out|
  {
    if n == 0 then 0
    else
      var rest := EdgesLeft(out, next, n - 1);
      rest + if n <= |next| && next[n - 1] <= |out[n - 1]| then |out[n - 1]| - next[n - 1] else 0
  }

  lemma {:induction false} OneLess(out: seq<seq<Edge>>, next: seq<nat>, v: nat, n: nat)
    requires n <= |out| == |next| && v < |out| && next[v] < |out[v]|
    ensures EdgesLeft(out, next[v := next[v] + 1], n) == EdgesLeft(out, next, n) - if v < n then 1 else 0
  {
    if n > 0 {
      OneLess(out, next, v, n - 1);
    }
  }

  /** What goes down in every turn. */
  ghost predicate Lesser(out: seq<seq<Edge>>, index: seq<int>, next: seq<nat>, depth: nat,
                         index': seq<int>, next': seq<nat>, depth': nat) {
    && |index| == |index'|
    && (|| Unvisited(index') < Unvisited(index)
        || (&& index' == index
            && (|| EdgesLeft(out, next', |out|) < EdgesLeft(out, next, |out|)
                || (next' == next && depth' < depth))))
  }

  ghost function Unvisited(index: seq<int>): (r: set<nat>) {
    set v: nat | v < |index| && index[v] < 0
  }

  /** Component numbers by the recursive search. */
  method Recursive(out: seq<seq<Edge>>) returns (scc: seq<int>, count: int)
    requires ValidOut(out)
    ensures IsPartition(out, scc, count)
  {
    var search := new TarjanSearch(out);
    FreshInv(out);
    for v := 0 to |out|
      invariant fresh(search) && search.out == out && search.frames == []
      invariant Inv(out, search.Knows(), 0)
      invariant VisitedBelow(search.index, v)
    {
      ghost var before := search.Knows();
      if search.index[v] < 0 {
        search.StrongConnect(v);
        VisitedGrows(before.index, search.index, v);
      }
    }
    AllFinished(out, search.Knows(), 0);
    scc, count := search.sccId, search.sccCount;
  }

  lemma VisitedGrows(before: seq<int>, after: seq<int>, n: nat)
    requires Unvisited(after) <= Unvisited(before) && |before| == |after| && VisitedBelow(before, n)
    ensures VisitedBelow(after, n)
  {
    forall u: nat | u < n && u < |after|
      ensures after[u] >= 0
    {
      assert u !in Unvisited(before);
    }
  }

  /** Component numbers by the search with explicit frames. */
  method Iterative(out: seq<seq<Edge>>) returns (scc: seq<int>, count: int)
    requires ValidOut(out)
    ensures IsPartition(out, scc, count)
  {
    var search := new TarjanSearch(out);
    FreshInv(out);
    for v := 0 to |out|
      invariant fresh(search) && search.out == out && search.frames == []
      invariant Inv(out, search.Knows(), 0)
      invariant VisitedBelow(search.index, v)
    {
      ghost var before := search.Knows();
      if search.index[v] < 0 {
        search.RunFrom(v);
        VisitedGrows(before.index, search.index, v);
      }
    }
    AllFinished(out, search.Knows(), 0);
    scc, count := search.sccId, search.sccCount;
  }
}
