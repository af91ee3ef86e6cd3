/** Priority timed Petri nets: intervals, enabling and the clamped token move. */
module PetriNet {
  import opened Bounds

  datatype Interval = Interval(earliest: int, latest: Bound, leftOpen: bool, rightOpen: bool) {
    /** Open endpoints become integer bounds. */
    function EffectiveEarliest(): int {
      if leftOpen then earliest + 1 else earliest
    }

    function EffectiveLatest(): Bound {
      if latest.Fin? && rightOpen then Fin(latest.v - 1) else latest
    }

    predicate Valid() {
      earliest >= 0 && Le(Fin(earliest), latest) && Le(Fin(EffectiveEarliest()), EffectiveLatest())
    }
  }

  datatype Place = Place(capacity: Bound, saturate: bool)

  datatype Transition = Transition(interval: Interval, priority: int, core: int, suspendable: bool)

  datatype Arc = Arc(place: nat, weight: int)

  datatype Net = Net(
    places: seq<Place>,
    transitions: seq<Transition>,
    preArcs: seq<seq<Arc>>,
    postArcs: seq<seq<Arc>>,
    initial: seq<int>,
    parallelism: map<int, int>)

  type Marking = seq<int>

  /** The sparse arcs of one transition: positive weights, one arc a place. */
  ghost predicate ValidArcs(arcs: seq<Arc>, places: nat) {
    && (forall k :: 0 <= k < |arcs| ==> arcs[k].place < places && arcs[k].weight > 0)
    && (forall j, k :: 0 <= j < k < |arcs| ==> arcs[j].place != arcs[k].place)
  }

  ghost predicate ValidNet(net: Net) {
    && |net.preArcs| == |net.postArcs| == |net.transitions|
    && |net.initial| == |net.places|
    && (forall p :: 0 <= p < |net.initial| ==> net.initial[p] >= 0)
    && (forall p :: 0 <= p < |net.places| ==> !Negative(net.places[p].capacity))
    && (forall t :: 0 <= t < |net.transitions| ==> net.transitions[t].interval.Valid())
    && (forall t :: 0 <= t < |net.preArcs| ==> ValidArcs(net.preArcs[t], |net.places|))
    && (forall t :: 0 <= t < |net.postArcs| ==> ValidArcs(net.postArcs[t], |net.places|))
  }

  ghost predicate ValidMarking(net: Net, m: Marking) {
    |m| == |net.places| && forall p :: 0 <= p < |m| ==> m[p] >= 0
  }

  function Earliest(net: Net, t: nat): int
    requires t < |net.transitions|
  {
    net.transitions[t].interval.EffectiveEarliest()
  }

  function Latest(net: Net, t: nat): Bound
    requires t < |net.transitions|
  {
    net.transitions[t].interval.EffectiveLatest()
  }

  /** x lies in the interval, whose ends may be open. */
  predicate InInterval(i: Interval, x: int) {
    && (if i.leftOpen then i.earliest < x else i.earliest <= x)
    && (i.latest.Fin? ==> if i.rightOpen then x < i.latest.v else x <= i.latest.v)
  }

  /** The integers between the effective bounds are those of the interval, and a valid
      interval has one. */
  lemma WindowMeans(net: Net, t: nat, x: int)
    requires t < |net.transitions|
    ensures Earliest(net, t) <= x && Within(x, Latest(net, t)) <==> InInterval(net.transitions[t].interval, x)
    ensures net.transitions[t].interval.Valid() ==>
      InInterval(net.transitions[t].interval, Earliest(net, t)) && Earliest(net, t) >= 0
  {
  }

  /** Zero means "no bound": the control cores and the unregistered ones. */
  function Parallelism(net: Net, core: int): int {
    if core < 0 || core !in net.parallelism then 0 else net.parallelism[core]
  }

  // ------------------------------------------------------------------ enabling

  ghost predicate Enabled(net: Net, m: Marking, t: nat) {
    && t < |net.transitions| && t < |net.preArcs|
    && forall k :: 0 <= k < |net.preArcs[t]| ==>
         net.preArcs[t][k].place < |m| && m[net.preArcs[t][k].place] >= net.preArcs[t][k].weight
  }

  method IsEnabled(net: Net, m: Marking, t: nat) returns (enabled: bool)
    requires ValidNet(net) && ValidMarking(net, m) && t < |net.transitions|
    ensures enabled <==> Enabled(net, m, t)
  {
    var arcs := net.preArcs[t];
    for k := 0 to |arcs|
      invariant forall j :: 0 <= j < k ==> m[arcs[j].place] >= arcs[j].weight
    {
      if m[arcs[k].place] < arcs[k].weight {
        return false;
      }
    }
    return true;
  }

  // -------------------------------------------------------------------- firing

  /** The weight of the arc to place p, 0 without one. */
  ghost function Weight(arcs: seq<Arc>, p: nat): int {
    if arcs == [] then 0
    else if arcs[|arcs| - 1].place == p then arcs[|arcs| - 1].weight
    else Weight(arcs[..|arcs| - 1], p)
  }

  lemma {:induction false} WeightAt(arcs: seq<Arc>, n: nat, p: nat)
    requires ValidArcs(arcs, n)
    ensures Weight(arcs, p) >= 0
    ensures Weight(arcs, p) > 0 <==> exists k :: 0 <= k < |arcs| && arcs[k].place == p
    ensures forall k :: 0 <= k < |arcs| && arcs[k].place == p ==> Weight(arcs, p) == arcs[k].weight
  {
    if arcs != [] {
      WeightAt(arcs[..|arcs| - 1], n, p);
      assert arcs == arcs[..|arcs| - 1] + [arcs[|arcs| - 1]];
    }
  }

  function Clamp(x: int, capacity: Bound): int {
    if capacity.Fin? && x > capacity.v then capacity.v else x
  }

  /** Tokens in p after t: producing into p clamps at its capacity. */
  ghost function TokensAfter(net: Net, m: Marking, t: nat, p: nat): int
    requires t < |net.preArcs| && t < |net.postArcs| && p < |m| && p < |net.places|
  {
    var x := m[p] - Weight(net.preArcs[t], p) + Weight(net.postArcs[t], p);
    if Weight(net.postArcs[t], p) > 0 then Clamp(x, net.places[p].capacity) else x
  }

  ghost function FireMarking(net: Net, m: Marking, t: nat): (r: Marking)
    requires t < |net.preArcs| && t < |net.postArcs| && |m| == |net.places|
    ensures |r| == |m|
    ensures forall p {:trigger r[p]} :: 0 <= p < |m| ==> r[p] == TokensAfter(net, m, t, p)
  {
    seq(|m|, p requires 0 <= p < |m| => TokensAfter(net, m, t, p))
  }

  lemma FireMarkingValid(net: Net, m: Marking, t: nat)
    requires ValidNet(net) && ValidMarking(net, m) && Enabled(net, m, t)
    ensures ValidMarking(net, FireMarking(net, m, t))
  {
    forall p: nat | p < |m|
      ensures TokensAfter(net, m, t, p) >= 0
    {
      WeightAt(net.preArcs[t], |net.places|, p);
      WeightAt(net.postArcs[t], |net.places|, p);
    }
  }

  /** The arcs move w tokens at place p: by the one arc there, or none. */
  ghost predicate Carries(arcs: seq<Arc>, p: nat, w: int) {
    if w == 0 then forall k :: 0 <= k < |arcs| ==> arcs[k].place != p else w > 0 && Arc(p, w) in arcs
  }

  /** m turns into r at place p when t takes u tokens there and gives w: all of them
      arrive if they fit, and otherwise the place is full. */
  ghost predicate MovesAt(net: Net, m: Marking, r: Marking, t: nat, p: nat)
    requires t < |net.preArcs| && t < |net.postArcs| && p < |m| == |r| && p < |net.places|
  {
    forall u: int, w: int :: Carries(net.preArcs[t], p, u) && Carries(net.postArcs[t], p, w) ==>
      var a := m[p] - u + w;
      if w == 0 || Within(a, net.places[p].capacity) then r[p] == a else Fin(r[p]) == net.places[p].capacity
  }

  lemma CarriesWeight(arcs: seq<Arc>, n: nat, p: nat, w: int)
    requires ValidArcs(arcs, n)
    ensures Carries(arcs, p, w) <==> w == Weight(arcs, p)
  {
    WeightAt(arcs, n, p);
  }

  /** What a firing does to every place, seen from the arcs. */
  lemma FiringMoves(net: Net, m: Marking, t: nat, p: nat)
    requires ValidNet(net) && ValidMarking(net, m) && Enabled(net, m, t) && p < |m|
    ensures MovesAt(net, m, FireMarking(net, m, t), t, p)
    ensures exists u: int, w: int :: Carries(net.preArcs[t], p, u) && Carries(net.postArcs[t], p, w)
  {
    forall u: int
      ensures Carries(net.preArcs[t], p, u) <==> u == Weight(net.preArcs[t], p)
      ensures Carries(net.postArcs[t], p, u) <==> u == Weight(net.postArcs[t], p)
    {
      CarriesWeight(net.preArcs[t], |net.places|, p, u);
      CarriesWeight(net.postArcs[t], |net.places|, p, u);
    }
    WeightAt(net.postArcs[t], |net.places|, p);
    var u, w := Weight(net.preArcs[t], p), Weight(net.postArcs[t], p);
    assert Carries(net.preArcs[t], p, u) && Carries(net.postArcs[t], p, w);
  }

  /** A place that is full stays full under every transition that gives it at least
      what it takes: what does not fit is lost, and nothing else is. */
  lemma FullStaysFull(net: Net, m: Marking, t: nat, p: nat, u: int, w: int)
    requires ValidNet(net) && ValidMarking(net, m) && Enabled(net, m, t) && p < |m|
    requires Carries(net.preArcs[t], p, u) && Carries(net.postArcs[t], p, w) && u <= w
    requires Fin(m[p]) == net.places[p].capacity
    ensures Fin(FireMarking(net, m, t)[p]) == net.places[p].capacity
  {
    FiringMoves(net, m, t, p);
  }

  /** Consumes and produces arc by arc; overflow is clamped, never refused. */
  method Fire(net: Net, m: Marking, t: nat) returns (r: Marking)
    requires ValidNet(net) && ValidMarking(net, m) && Enabled(net, m, t)
    ensures r == FireMarking(net, m, t)
    ensures forall p: nat :: p < |m| ==> MovesAt(net, m, r, t, p)
  {
    hide MovesAt, Carries;
    var pre, post := net.preArcs[t], net.postArcs[t];
    r := m;
    for k := 0 to |pre|
      invariant |r| == |m|
      invariant forall p: nat :: p < |m| ==> r[p] == m[p] - Weight(pre[..k], p)
    {
      assert pre[..k + 1][..k] == pre[..k];
      WeightFresh(pre, |net.places|, k);
      r := r[pre[k].place := r[pre[k].place] - pre[k].weight];
    }
    assert pre[..|pre|] == pre;
    for k := 0 to |post|
      invariant |r| == |m|
      invariant forall p: nat :: p < |m| ==>
        r[p] == (var x := m[p] - Weight(pre, p) + Weight(post[..k], p);
                 if Weight(post[..k], p) > 0 then Clamp(x, net.places[p].capacity) else x)
    {
      assert post[..k + 1][..k] == post[..k];
      WeightFresh(post, |net.places|, k);
      var a := post[k];
      r := r[a.place := r[a.place] + a.weight];
      var capacity := net.places[a.place].capacity;
      if capacity.Fin? && r[a.place] > capacity.v {
        r := r[a.place := capacity.v];
      }
    }
    assert post[..|post|] == post;
    assert r == FireMarking(net, m, t);
    forall p: nat | p < |m|
      ensures MovesAt(net, m, r, t, p)
    {
      FiringMoves(net, m, t, p);
    }
  }

  lemma WeightFresh(arcs: seq<Arc>, n: nat, k: nat)
    requires ValidArcs(arcs, n) && k < |arcs|
    ensures Weight(arcs[..k], arcs[k].place) == 0
  {
    WeightAt(arcs[..k], n, arcs[k].place);
  }
}
