/** The mutable net that the lowering fills in: dense incidence matrices, and the
    sparse arcs that enabling and firing work on. */
module Ptpn {
  import opened PetriNet

  /** The contents of a net: pre[p][t] tokens are taken, post[t][p] are put. */
  datatype Incidence = Incidence(
    places: seq<Place>,
    transitions: seq<Transition>,
    pre: seq<seq<int>>,
    post: seq<seq<int>>,
    initial: seq<int>)

  ghost predicate Shaped(s: Incidence) {
    && |s.pre| == |s.initial| == |s.places| && |s.post| == |s.transitions|
    && (forall p: nat :: p < |s.pre| ==> |s.pre[p]| == |s.transitions|)
    && (forall t: nat :: t < |s.post| ==> |s.post[t]| == |s.places|)
  }

  ghost function Column(s: Incidence, t: nat): (r: seq<int>)
    requires Shaped(s) && t < |s.transitions|
    ensures |r| == |s.places| && forall p: nat :: p < |r| ==> r[p] == s.pre[p][t]
  {
    seq(|s.places|, p requires 0 <= p < |s.places| => s.pre[p][t])
  }

  /** The positive entries of a row, in order. */
  ghost function Sparse(row: seq<int>): seq<Arc> {
    if row == [] then []
    else
      var init, last := Sparse(row[..|row| - 1]), row[|row| - 1];
      if last > 0 then init + [Arc(|row| - 1, last)] else init
  }

  /** Sparse arcs carry exactly the positive weights. */
  lemma {:induction false} SparseExact(row: seq<int>)
    ensures ValidArcs(Sparse(row), |row|)
    ensures forall p: nat :: p < |row| ==> Weight(Sparse(row), p) == if row[p] > 0 then row[p] else 0
  {
    if row != [] {
      var init := row[..|row| - 1];
      SparseExact(init);
      forall p: nat | p < |row|
        ensures Weight(Sparse(row), p) == if row[p] > 0 then row[p] else 0
      {
        WeightAt(Sparse(init), |init|, p);
        if row[|row| - 1] > 0 {
          assert Sparse(row)[..|Sparse(row)| - 1] == Sparse(init);
        }
      }
    }
  }

  // --------------------------------------------------------------------- editing

  function Zeros(n: nat): (r: seq<int>)
    ensures |r| == n && forall i: nat :: i < n ==> r[i] == 0
  {
    seq(n, _ => 0)
  }

  /** Every row with one more 0. */
  function Widened(rows: seq<seq<int>>): (r: seq<seq<int>>)
    ensures |r| == |rows| && forall i: nat :: i < |rows| ==> r[i] == rows[i] + [0]
  {
    seq(|rows|, i requires 0 <= i < |rows| => rows[i] + [0])
  }

  function PlaceAdded(s: Incidence, place: Place): Incidence {
    Incidence(s.places + [place], s.transitions, s.pre + [Zeros(|s.transitions|)], Widened(s.post), s.initial + [0])
  }

  function TransitionAdded(s: Incidence, transition: Transition): Incidence {
    Incidence(s.places, s.transitions + [transition], Widened(s.pre), s.post + [Zeros(|s.places|)], s.initial)
  }

  /** The sparse arcs of all transitions. */
  ghost predicate SparseOk(s: Incidence, preArcs: seq<seq<Arc>>, postArcs: seq<seq<Arc>>)
    requires Shaped(s)
  {
    && |preArcs| == |postArcs| == |s.transitions|
    && forall t: nat :: t < |s.transitions| ==> SparseAt(s, preArcs, postArcs, t)
  }

  ghost predicate SparseAt(s: Incidence, preArcs: seq<seq<Arc>>, postArcs: seq<seq<Arc>>, t: nat)
    requires Shaped(s) && t < |s.transitions| == |preArcs| == |postArcs|
  {
    preArcs[t] == Sparse(Column(s, t)) && postArcs[t] == Sparse(s.post[t])
  }

  lemma AddPlaceSparse(s: Incidence, place: Place, preArcs: seq<seq<Arc>>, postArcs: seq<seq<Arc>>)
    requires Shaped(s) && SparseOk(s, preArcs, postArcs)
    ensures Shaped(PlaceAdded(s, place)) && SparseOk(PlaceAdded(s, place), preArcs, postArcs)
  {
    var r := PlaceAdded(s, place);
    assert Shaped(r);
    forall t: nat | t < |r.transitions|
      ensures SparseAt(r, preArcs, postArcs, t)
    {
      assert SparseAt(s, preArcs, postArcs, t);
      assert Column(r, t) == Column(s, t) + [0];
      assert Column(r, t)[..|s.places|] == Column(s, t);
      assert r.post[t][..|s.places|] == s.post[t];
    }
  }

  lemma AddTransitionSparse(s: Incidence, transition: Transition, preArcs: seq<seq<Arc>>, postArcs: seq<seq<Arc>>)
    requires Shaped(s) && SparseOk(s, preArcs, postArcs)
    ensures Shaped(TransitionAdded(s, transition))
    ensures SparseOk(TransitionAdded(s, transition), preArcs + [[]], postArcs + [[]])
  {
    var r := TransitionAdded(s, transition);
    assert Shaped(r);
    forall t: nat | t < |r.transitions|
      ensures SparseAt(r, preArcs + [[]], postArcs + [[]], t)
    {
      if t < |s.transitions| {
        assert SparseAt(s, preArcs, postArcs, t);
        assert Column(r, t) == Column(s, t);
      } else {
        NothingSparse(Column(r, t));
        NothingSparse(r.post[t]);
      }
    }
  }

  lemma SameSparse(s: Incidence, r: Incidence, preArcs: seq<seq<Arc>>, postArcs: seq<seq<Arc>>)
    requires Shaped(s) && Shaped(r) && SparseOk(s, preArcs, postArcs)
    requires |s.places| == |r.places| && |s.transitions| == |r.transitions| && s.pre == r.pre && s.post == r.post
    ensures SparseOk(r, preArcs, postArcs)
  {
    forall t: nat | t < |r.transitions|
      ensures SparseAt(r, preArcs, postArcs, t)
    {
      assert SparseAt(s, preArcs, postArcs, t);
      assert Column(r, t) == Column(s, t);
    }
  }

  function PreArcSet(s: Incidence, p: nat, t: nat, weight: int): Incidence
    requires p < |s.pre| && t < |s.pre[p]|
  {
    s.(pre := s.pre[p := s.pre[p][t := weight]])
  }

  function PostArcSet(s: Incidence, t: nat, p: nat, weight: int): Incidence
    requires t < |s.post| && p < |s.post[t]|
  {
    s.(post := s.post[t := s.post[t][p := weight]])
  }

  /** The arcs of the first p places, and of place p to the first t transitions. */
  ghost predicate RowsDone(s: Incidence, preArcs: seq<seq<Arc>>, p: nat, t: nat)
    requires Shaped(s) && p <= |s.places|
  {
    |preArcs| == |s.transitions| && forall u: nat :: u < |s.transitions| ==> RowDoneAt(s, preArcs, p, t, u)
  }

  ghost predicate RowDoneAt(s: Incidence, preArcs: seq<seq<Arc>>, p: nat, t: nat, u: nat)
    requires Shaped(s) && p <= |s.places| && u < |s.transitions| == |preArcs|
  {
    var rows: nat := if u < t && p < |s.places| then p + 1 else p;
    preArcs[u] == Sparse(Column(s, u)[..rows])
  }

  lemma EntryDone(s: Incidence, preArcs: seq<seq<Arc>>, p: nat, t: nat)
    requires Shaped(s) && p < |s.places| && t < |s.transitions| && RowsDone(s, preArcs, p, t)
    ensures RowsDone(s, if s.pre[p][t] > 0 then preArcs[t := preArcs[t] + [Arc(p, s.pre[p][t])]] else preArcs, p, t + 1)
  {
    var more := if s.pre[p][t] > 0 then preArcs[t := preArcs[t] + [Arc(p, s.pre[p][t])]] else preArcs;
    var column, next: nat := Column(s, t), t + 1;
    assert column[..p + 1][..p] == column[..p] && column[..p + 1][p] == s.pre[p][t];
    forall u: nat | u < |s.transitions|
      ensures RowDoneAt(s, more, p, next, u)
    {
      assert RowDoneAt(s, preArcs, p, t, u);
    }
  }

  lemma RowDone(s: Incidence, preArcs: seq<seq<Arc>>, p: nat)
    requires Shaped(s) && p < |s.places| && RowsDone(s, preArcs, p, |s.transitions|)
    ensures RowsDone(s, preArcs, p + 1, 0)
  {
    var next: nat := p + 1;
    forall u: nat | u < |s.transitions|
      ensures RowDoneAt(s, preArcs, next, 0, u)
    {
      assert RowDoneAt(s, preArcs, p, |s.transitions|, u);
    }
  }

  class PTPN {
    var places: seq<Place>
    var transitions: seq<Transition>
    var pre: seq<seq<int>>
    var post: seq<seq<int>>
    var preArcs: seq<seq<Arc>>
    var postArcs: seq<seq<Arc>>
    var initial: seq<int>

    constructor ()
      ensures Valid() && Contents() == Incidence([], [], [], [], [])
    {
      places, transitions, pre, post, preArcs, postArcs, initial := [], [], [], [], [], [], [];
    }

    ghost function Contents(): Incidence
      reads this
    {
      Incidence(places, transitions, pre, post, initial)
    }

    /** The sparse arcs agree with the matrices. */
    ghost predicate Valid()
      reads this
    {
      var s := Contents();
      Shaped(s) && SparseOk(s, preArcs, postArcs)
    }

    method AddPlace(place: Place) returns (index: nat)
      requires Valid()
      modifies this
      ensures Valid() && Contents() == PlaceAdded(old(Contents()), place) && index == old(|places|)
    {
      AddPlaceSparse(Contents(), place, preArcs, postArcs);
      index := |places|;
      places, initial := places + [place], initial + [0];
      pre, post := pre + [Zeros(|transitions|)], Widened(post);
    }

    method AddTransition(transition: Transition) returns (index: nat)
      requires Valid()
      modifies this
      ensures Valid() && Contents() == TransitionAdded(old(Contents()), transition) && index == old(|transitions|)
    {
      AddTransitionSparse(Contents(), transition, preArcs, postArcs);
      index := |transitions|;
      transitions := transitions + [transition];
      pre, post := Widened(pre), post + [Zeros(|places|)];
      preArcs, postArcs := preArcs + [[]], postArcs + [[]];
    }

    /** False stands for the range error. */
    method SetPreArc(p: nat, t: nat, weight: int) returns (ok: bool)
      requires Valid()
      modifies this
      ensures Valid() && (ok <==> p < old(|places|) && t < old(|transitions|))
      ensures ok ==> Contents() == PreArcSet(old(Contents()), p, t, weight)
      ensures !ok ==> Contents() == old(Contents())
    {
      if p >= |pre| || t >= |transitions| {
        return false;
      }
      pre := pre[p := pre[p][t := weight]];
      RebuildSparseArcs();
      return true;
    }

    method SetPostArc(t: nat, p: nat, weight: int) returns (ok: bool)
      requires Valid()
      modifies this
      ensures Valid() && (ok <==> p < old(|places|) && t < old(|transitions|))
      ensures ok ==> Contents() == PostArcSet(old(Contents()), t, p, weight)
      ensures !ok ==> Contents() == old(Contents())
    {
      if t >= |post| || p >= |places| {
        return false;
      }
      post := post[t := post[t][p := weight]];
      RebuildSparseArcs();
      return true;
    }

    method SetInitialMarking(p: nat, tokens: int) returns (ok: bool)
      requires Valid()
      modifies this`initial
      ensures Valid() && (ok <==> p < old(|places|) && tokens >= 0)
      ensures Contents() == old(Contents()).(initial := if ok then old(initial)[p := tokens] else old(initial))
    {
      if p >= |places| || tokens < 0 {
        return false;
      }
      ghost var before := Contents();
      initial := initial[p := tokens];
      SameSparse(before, Contents(), preArcs, postArcs);
      return true;
    }

    method MarkSuspendable(t: nat)
      requires Valid() && t < |transitions|
      modifies this`transitions
      ensures Valid()
      ensures
        var marked := old(transitions)[t].(suspendable := true);
        Contents() == old(Contents()).(transitions := old(transitions)[t := marked])
    {
      ghost var before := Contents();
      transitions := transitions[t := transitions[t].(suspendable := true)];
      SameSparse(before, Contents(), preArcs, postArcs);
    }

    method RebuildSparseArcs()
      requires Shaped(Contents())
      modifies this`preArcs, this`postArcs
      ensures Valid()
    {
      preArcs, postArcs := seq(|transitions|, _ => []), seq(|transitions|, _ => []);
      RebuildPreArcs();
      RebuildPostArcs();
    }

    method RebuildPreArcs()
      requires Shaped(Contents()) && |preArcs| == |transitions|
      requires forall u: nat :: u < |transitions| ==> preArcs[u] == []
      modifies this`preArcs
      ensures |preArcs| == |transitions|
      ensures forall u: nat :: u < |transitions| ==> preArcs[u] == Sparse(Column(Contents(), u))
    {
      ghost var s := Contents();
      for p := 0 to |pre|
        invariant RowsDone(s, preArcs, p, 0)
      {
        for t := 0 to |pre[p]|
          invariant RowsDone(s, preArcs, p, t)
        {
          ghost var before := preArcs;
          if pre[p][t] > 0 {
            preArcs := preArcs[t := preArcs[t] + [Arc(p, pre[p][t])]];
          }
          EntryDone(s, before, p, t);
        }
        RowDone(s, preArcs, p);
      }
      forall u: nat | u < |transitions|
        ensures preArcs[u] == Sparse(Column(s, u))
      {
        assert RowDoneAt(s, preArcs, |pre|, 0, u);
        assert Column(s, u)[..|pre|] == Column(s, u);
      }
    }

    method RebuildPostArcs()
      requires Shaped(Contents()) && |preArcs| == |postArcs| == |transitions|
      requires forall u: nat :: u < |transitions| ==> preArcs[u] == Sparse(Column(Contents(), u)) && postArcs[u] == []
      modifies this`postArcs
      ensures Valid()
    {
      ghost var s := Contents();
      for t := 0 to |post|
        invariant |postArcs| == |transitions|
        invariant forall u: nat :: u < |transitions| ==> postArcs[u] == if u < t then Sparse(s.post[u]) else []
      {
        for p := 0 to |post[t]|
          invariant |postArcs| == |transitions|
          invariant forall u: nat :: u < |transitions| ==>
            postArcs[u] == if u < t then Sparse(s.post[u]) else if u == t then Sparse(s.post[t][..p]) else []
        {
          assert s.post[t][..p + 1][..p] == s.post[t][..p];
          if post[t][p] > 0 {
            postArcs := postArcs[t := postArcs[t] + [Arc(p, post[t][p])]];
          }
        }
        assert s.post[t][..|post[t]|] == s.post[t];
      }
    }

    /** The net that the analyser works on. */
    function ToNet(parallelism: map<int, int>): (net: Net)
      reads this
    {
      Net(places, transitions, preArcs, postArcs, initial, parallelism)
    }
  }

  lemma {:induction false} NothingSparse(row: seq<int>)
    requires forall p: nat :: p < |row| ==> row[p] == 0
    ensures Sparse(row) == []
  {
    if row != [] {
      NothingSparse(row[..|row| - 1]);
    }
  }
}
