/** The wiring of a lowered net: which place and transition plays which part, and
    which arcs that part must have. */
module Wiring {
  import opened Bounds
  import opened PetriNet
  import opened Ptpn
  import opened Conservation

  datatype Owner = Free | OnChain(node: nat, pos: nat) | Resource(tokens: int)

  datatype Kind = Outer | ChainStep(node: nat, pos: nat) | Preempting(high: nat, low: nat, pos: nat)

  /** A task takes the resource at one chain transition and gives it back at
      another. */
  datatype Bond = Bond(resource: nat, node: nat, acquire: nat, release: nat)

  /** A transition outside the chains takes from a place where the index of a
      transition was taken for that of a place. */
  datatype Stray = Stray(transition: nat, place: nat)

  /** chains[n] lists the places (even positions) and transitions (odd positions)
      of task n, and is empty for other nodes.  The places of chains hold room tokens. */
  datatype Plan =
    Plan(owners: seq<Owner>, kinds: seq<Kind>, chains: seq<seq<nat>>, bonds: set<Bond>, strays: set<Stray>, room: int)

  /** Places strictly inside a chain, and resources. */
  ghost predicate Guarded(plan: Plan, p: nat) {
    p < |plan.owners| &&
    match plan.owners[p]
    case Free => false
    case Resource(_) => true
    case OnChain(n, i) => n < |plan.chains| && 0 < i && i + 1 < |plan.chains[n]|
  }

  ghost predicate Binds(plan: Plan, n: nat, acquire: bool, i: nat, p: nat) {
    exists b :: b in plan.bonds && b.node == n && b.resource == p && i == if acquire then b.acquire else b.release
  }

  /** t must take from p. */
  ghost predicate Takes(plan: Plan, t: nat, p: nat)
    requires t < |plan.kinds| && p < |plan.owners|
  {
    match plan.kinds[t]
    case Outer => Stray(t, p) in plan.strays
    case ChainStep(n, i) => (i > 0 && plan.owners[p] == OnChain(n, i - 1)) || Binds(plan, n, true, i, p)
    case Preempting(_, low, pos) => plan.owners[p] == OnChain(low, pos)
  }

  /** t must put into p. */
  ghost predicate Puts(plan: Plan, t: nat, p: nat)
    requires t < |plan.kinds| && p < |plan.owners|
  {
    match plan.kinds[t]
    case Outer => false
    case ChainStep(n, i) => plan.owners[p] == OnChain(n, i + 1) || Binds(plan, n, false, i, p)
    case Preempting(high, _, _) => plan.owners[p] == OnChain(high, 2)
  }

  ghost predicate Sized(s: Incidence, plan: Plan) {
    Shaped(s) && |plan.owners| == |s.places| && |plan.kinds| == |s.transitions|
  }

  /** The arcs between a transition and a guarded place are the ones it must have. */
  ghost predicate ArcsAt(s: Incidence, plan: Plan, t: nat, p: nat)
    requires Sized(s, plan)
  {
    t < |s.transitions| && Guarded(plan, p) ==>
      && (s.pre[p][t] == if Takes(plan, t, p) then 1 else 0)
      && (s.post[t][p] == if Puts(plan, t, p) then 1 else 0)
  }

  ghost predicate OwnerAt(s: Incidence, plan: Plan, p: nat)
    requires Sized(s, plan)
  {
    p < |plan.owners| ==>
      match plan.owners[p]
      case Free => true
      case Resource(tokens) => s.initial[p] == tokens && s.places[p].capacity == Fin(tokens)
      case OnChain(n, i) =>
        && n < |plan.chains| && i < |plan.chains[n]| && i % 2 == 0 && plan.chains[n][i] == p
        && Le(Fin(plan.room), s.places[p].capacity)
        && (Guarded(plan, p) ==> s.initial[p] == 0)
  }

  ghost predicate KindAt(plan: Plan, t: nat) {
    t < |plan.kinds| ==>
      match plan.kinds[t]
      case Outer => true
      case ChainStep(n, i) => n < |plan.chains| && i < |plan.chains[n]| && i % 2 == 1 && plan.chains[n][i] == t
      case Preempting(high, low, pos) =>
        && high < |plan.chains| && low < |plan.chains|
        && 3 < |plan.chains[high]| && 0 < pos && pos + 1 < |plan.chains[low]| && pos % 2 == 0
  }

  ghost predicate ChainAt(plan: Plan, n: nat, i: nat) {
    n < |plan.chains| && i < |plan.chains[n]| ==>
      var x := plan.chains[n][i];
      if i % 2 == 0 then x < |plan.owners| && plan.owners[x] == OnChain(n, i)
      else x < |plan.kinds| && plan.kinds[x] == ChainStep(n, i)
  }

  ghost predicate BondAt(plan: Plan, b: Bond) {
    b in plan.bonds ==>
      && b.resource < |plan.owners| && plan.owners[b.resource].Resource?
      && b.node < |plan.chains| && b.acquire < |plan.chains[b.node]| && b.release < |plan.chains[b.node]|
      && b.acquire % 2 == 1 && b.release % 2 == 1
  }

  /** Strays come before the resources, and one a transition. */
  ghost predicate StrayAt(plan: Plan, x: Stray) {
    x in plan.strays ==>
      && x.transition < |plan.kinds| && plan.kinds[x.transition].Outer?
      && x.place < |plan.owners| && !plan.owners[x.place].Resource?
      && forall y :: y in plan.strays && y.transition == x.transition ==> y == x
  }

  ghost predicate LengthAt(plan: Plan, n: nat) {
    n < |plan.chains| && plan.chains[n] != [] ==> |plan.chains[n]| % 2 == 1
  }

  ghost predicate PartsOk(s: Incidence, plan: Plan)
    requires Sized(s, plan)
  {
    && (forall p: nat :: OwnerAt(s, plan, p))
    && (forall t: nat :: KindAt(plan, t))
    && (forall n: nat, i: nat :: ChainAt(plan, n, i))
    && (forall n: nat :: LengthAt(plan, n))
    && (forall b: Bond :: BondAt(plan, b))
    && (forall x: Stray :: StrayAt(plan, x))
  }

  ghost predicate ArcsOk(s: Incidence, plan: Plan)
    requires Sized(s, plan)
  {
    && (forall p: nat, t: nat :: UnitOk(s, p, t))
    && (forall t: nat, p: nat :: ArcsAt(s, plan, t, p))
  }

  ghost predicate UnitOk(s: Incidence, p: nat, t: nat)
    requires Shaped(s)
  {
    p < |s.places| && t < |s.transitions| ==> UnitAt(s, p, t)
  }

  /** Intervals, capacities and tokens are valid. */
  ghost predicate PiecesOk(s: Incidence) {
    && Shaped(s)
    && (forall p: nat :: p < |s.places| ==> !Negative(s.places[p].capacity) && s.initial[p] >= 0)
    && (forall t: nat :: t < |s.transitions| ==> s.transitions[t].interval.Valid())
  }

  /** The net is wired as planned. */
  ghost predicate Wired(s: Incidence, plan: Plan) {
    Sized(s, plan)
    && var parts, arcs, pieces := PartsOk(s, plan), ArcsOk(s, plan), PiecesOk(s);
       parts && arcs && pieces
  }

  lemma EmptyWired(room: int)
    ensures Wired(Incidence([], [], [], [], []), Plan([], [], [], {}, {}, room))
  {
  }

  // ------------------------------------------------------------------- single moves

  /** A node without a chain of its own. */
  lemma NodeWired(s: Incidence, plan: Plan)
    requires Wired(s, plan)
    ensures Wired(s, plan.(chains := plan.chains + [[]]))
  {
    var more := plan.(chains := plan.chains + [[]]);
    forall p: nat
      ensures OwnerAt(s, more, p) && (Guarded(more, p) <==> Guarded(plan, p))
    {
      assert OwnerAt(s, plan, p);
    }
    forall t: nat, p: nat
      ensures ArcsAt(s, more, t, p)
    {
      assert ArcsAt(s, plan, t, p);
      if t < |s.transitions| && p < |s.places| {
        assert Takes(plan, t, p) == Takes(more, t, p) by { BindsSame(plan, more); }
        assert Puts(plan, t, p) == Puts(more, t, p) by { BindsSame(plan, more); }
      }
    }
    forall t: nat
      ensures KindAt(more, t) && LengthAt(more, t)
    {
      assert KindAt(plan, t) && LengthAt(plan, t);
    }
    forall n: nat, i: nat
      ensures ChainAt(more, n, i)
    {
      assert ChainAt(plan, n, i);
    }
    forall b: Bond
      ensures BondAt(more, b)
    {
      assert BondAt(plan, b);
    }
    forall x: Stray
      ensures StrayAt(more, x)
    {
      assert StrayAt(plan, x);
    }
  }

  lemma BindsSame(plan: Plan, more: Plan)
    requires plan.bonds == more.bonds
    ensures forall n: nat, acquire: bool, i: nat, p: nat ::
      Binds(plan, n, acquire, i, p) == Binds(more, n, acquire, i, p)
  {
  }

  lemma PlaceShape(s: Incidence, place: Place)
    requires Shaped(s)
    ensures
      var r := PlaceAdded(s, place);
      && Shaped(r) && |r.places| == |s.places| + 1 && |r.transitions| == |s.transitions|
      && (forall p: nat, t: nat :: p < |s.places| && t < |s.transitions| ==>
            r.pre[p][t] == s.pre[p][t] && r.post[t][p] == s.post[t][p])
      && (forall t: nat :: t < |s.transitions| ==> r.pre[|s.places|][t] == 0 && r.post[t][|s.places|] == 0)
      && (forall p: nat :: p < |s.places| ==> r.places[p] == s.places[p] && r.initial[p] == s.initial[p])
  {
  }

  lemma TransitionShape(s: Incidence, transition: Transition)
    requires Shaped(s)
    ensures
      var r := TransitionAdded(s, transition);
      && Shaped(r) && |r.transitions| == |s.transitions| + 1 && r.places == s.places && r.initial == s.initial
      && (forall p: nat, t: nat :: p < |s.places| && t < |s.transitions| ==>
            r.pre[p][t] == s.pre[p][t] && r.post[t][p] == s.post[t][p])
      && (forall p: nat :: p < |s.places| ==> r.pre[p][|s.transitions|] == 0 && r.post[|s.transitions|][p] == 0)
  {
  }

  lemma PreShape(s: Incidence, p: nat, t: nat, w: int)
    requires Shaped(s) && p < |s.places| && t < |s.transitions|
    ensures
      var r := PreArcSet(s, p, t, w);
      && Shaped(r) && r.places == s.places && r.transitions == s.transitions && r.initial == s.initial
        && r.post == s.post
      && forall q: nat, u: nat :: q < |s.places| && u < |s.transitions| ==>
           r.pre[q][u] == if q == p && u == t then w else s.pre[q][u]
  {
  }

  lemma PostShape(s: Incidence, t: nat, p: nat, w: int)
    requires Shaped(s) && p < |s.places| && t < |s.transitions|
    ensures
      var r := PostArcSet(s, t, p, w);
      && Shaped(r) && r.places == s.places && r.transitions == s.transitions && r.initial == s.initial && r.pre == s.pre
      && forall u: nat, q: nat :: q < |s.places| && u < |s.transitions| ==>
           r.post[u][q] == if q == p && u == t then w else s.post[u][q]
  {
  }

  /** Nothing that is planned looks at places and transitions beyond the plan. */
  lemma PlanGrows(plan: Plan, more: Plan)
    requires plan.owners <= more.owners && plan.kinds <= more.kinds
    requires plan.chains == more.chains && plan.bonds == more.bonds && plan.strays == more.strays
    ensures forall p: nat :: p < |plan.owners| ==> (Guarded(more, p) <==> Guarded(plan, p))
    ensures forall t: nat, p: nat :: t < |plan.kinds| && p < |plan.owners| ==>
      Takes(more, t, p) == Takes(plan, t, p) && Puts(more, t, p) == Puts(plan, t, p)
  {
    BindsSame(plan, more);
  }

  /** A place that is free, or a resource filled to capacity. */
  lemma PlaceWired(s: Incidence, plan: Plan, place: Place, owner: Owner)
    requires Wired(s, plan) && (owner.Free? || (owner.Resource? && owner.tokens >= 0)) && !Negative(place.capacity)
    requires owner.Resource? ==> place.capacity == Fin(owner.tokens)
    ensures
      var tokens := if owner.Resource? then owner.tokens else 0;
      var r := PlaceAdded(s, place);
      Wired(r.(initial := r.initial[|s.places| := tokens]), plan.(owners := plan.owners + [owner]))
  {
    var tokens := if owner.Resource? then owner.tokens else 0;
    var r0, x: nat := PlaceAdded(s, place), |s.places|;
    var r, more := r0.(initial := r0.initial[x := tokens]), plan.(owners := plan.owners + [owner]);
    PlaceShape(s, place);
    PlanGrows(plan, more);
    assert Sized(r, more);
    forall p: nat
      ensures OwnerAt(r, more, p)
    {
      assert OwnerAt(s, plan, p);
    }
    forall t: nat, p: nat
      ensures ArcsAt(r, more, t, p) && UnitOk(r, p, t)
    {
      assert ArcsAt(s, plan, t, p) && UnitOk(s, p, t) && KindAt(plan, t);
      if p == x && t < |s.transitions| {
        NotNamed(s, plan, more, t);
      }
    }
    SameParts(s, r, plan, more);
    forall t: nat
      ensures t < |r.transitions| ==> r.transitions[t].interval.Valid()
    {
    }
  }

  /** No transition takes from or puts into a place that the plan does not know. */
  lemma NotNamed(s: Incidence, plan: Plan, more: Plan, t: nat)
    requires Wired(s, plan) && t < |plan.kinds| && |more.owners| == |plan.owners| + 1 && more.kinds == plan.kinds
    requires more.bonds == plan.bonds && more.strays == plan.strays && !more.owners[|plan.owners|].OnChain?
    ensures !Takes(more, t, |plan.owners|) && !Puts(more, t, |plan.owners|)
  {
    var x: nat := |plan.owners|;
    assert StrayAt(plan, Stray(t, x));
    forall b | b in more.bonds
      ensures b.resource != x
    {
      assert BondAt(plan, b);
    }
  }

  /** Chains, transitions and bonds are as before; only places were added. */
  lemma SameParts(s: Incidence, r: Incidence, plan: Plan, more: Plan)
    requires Wired(s, plan) && Sized(r, more) && plan.owners <= more.owners
    requires plan.(owners := more.owners) == more
    requires forall p: nat :: OwnerAt(r, more, p)
    ensures PartsOk(r, more)
  {
    forall t: nat
      ensures KindAt(more, t) && LengthAt(more, t)
    {
      assert KindAt(plan, t) && LengthAt(plan, t);
    }
    forall n: nat, i: nat
      ensures ChainAt(more, n, i)
    {
      assert ChainAt(plan, n, i);
    }
    forall b: Bond
      ensures BondAt(more, b)
    {
      assert BondAt(plan, b);
    }
    forall x: Stray
      ensures StrayAt(more, x)
    {
      assert StrayAt(plan, x);
    }
  }

  /** A transition outside the chains, without arcs yet. */
  lemma TransitionWired(s: Incidence, plan: Plan, transition: Transition)
    requires Wired(s, plan) && transition.interval.Valid()
    ensures Wired(TransitionAdded(s, transition), plan.(kinds := plan.kinds + [Outer]))
  {
    var r, more := TransitionAdded(s, transition), plan.(kinds := plan.kinds + [Outer]);
    TransitionShape(s, transition);
    PlanGrows(plan, more);
    assert Sized(r, more);
    forall p: nat
      ensures OwnerAt(r, more, p)
    {
      assert OwnerAt(s, plan, p);
    }
    forall t: nat, p: nat
      ensures ArcsAt(r, more, t, p) && UnitOk(r, p, t)
    {
      assert ArcsAt(s, plan, t, p) && UnitOk(s, p, t) && StrayAt(plan, Stray(t, p));
    }
    forall t: nat
      ensures KindAt(more, t) && LengthAt(more, t)
    {
      assert KindAt(plan, t) && LengthAt(plan, t);
    }
    forall n: nat, i: nat
      ensures ChainAt(more, n, i)
    {
      assert ChainAt(plan, n, i);
    }
    forall b: Bond
      ensures BondAt(more, b)
    {
      assert BondAt(plan, b);
    }
    forall x: Stray
      ensures StrayAt(more, x)
    {
      assert StrayAt(plan, x);
    }
  }

  /** Arcs at unguarded places are free. */
  lemma LooseArcsWired(s: Incidence, r: Incidence, plan: Plan)
    requires Wired(s, plan) && Shaped(r) && r.places == s.places && r.transitions == s.transitions
    requires forall p: nat, t: nat :: UnitOk(r, p, t)
    requires forall p: nat :: p < |s.places| ==> r.initial[p] >= 0
    requires forall p: nat, t: nat :: Guarded(plan, p) && t < |s.transitions| && p < |s.places| ==>
      r.pre[p][t] == s.pre[p][t] && r.post[t][p] == s.post[t][p] && r.initial[p] == s.initial[p]
    requires forall p: nat :: Guarded(plan, p) && p < |s.places| ==> r.initial[p] == s.initial[p]
    ensures Wired(r, plan)
  {
    forall p: nat
      ensures OwnerAt(r, plan, p)
    {
      assert OwnerAt(s, plan, p);
    }
    SameParts(s, r, plan, plan);
    forall t: nat, p: nat
      ensures ArcsAt(r, plan, t, p)
    {
      assert ArcsAt(s, plan, t, p);
    }
  }

  lemma LoosePreWired(s: Incidence, plan: Plan, p: nat, t: nat)
    requires Wired(s, plan) && p < |s.places| && t < |s.transitions| && !Guarded(plan, p)
    ensures Wired(PreArcSet(s, p, t, 1), plan)
  {
    var r := PreArcSet(s, p, t, 1);
    PreShape(s, p, t, 1);
    forall q: nat, u: nat
      ensures UnitOk(r, q, u)
    {
      assert UnitOk(s, q, u);
    }
    LooseArcsWired(s, r, plan);
  }

  lemma LoosePostWired(s: Incidence, plan: Plan, t: nat, p: nat)
    requires Wired(s, plan) && p < |s.places| && t < |s.transitions| && !Guarded(plan, p)
    ensures Wired(PostArcSet(s, t, p, 1), plan)
  {
    var r := PostArcSet(s, t, p, 1);
    PostShape(s, t, p, 1);
    forall q: nat, u: nat
      ensures UnitOk(r, q, u)
    {
      assert UnitOk(s, q, u);
    }
    LooseArcsWired(s, r, plan);
  }

  lemma LooseTokensWired(s: Incidence, plan: Plan, p: nat, tokens: int)
    requires Wired(s, plan) && p < |s.places| && tokens >= 0 && !Guarded(plan, p)
    ensures Wired(s.(initial := s.initial[p := tokens]), plan)
  {
    var r := s.(initial := s.initial[p := tokens]);
    forall q: nat, u: nat
      ensures UnitOk(r, q, u)
    {
      assert UnitOk(s, q, u);
    }
    LooseArcsWired(s, r, plan);
  }

  /** A transition outside the chains may take from any place before there are
      resources, by mistake. */
  lemma StrayWired(s: Incidence, plan: Plan, p: nat, t: nat)
    requires Wired(s, plan) && p < |s.places| && t < |s.transitions| && plan.kinds[t].Outer?
    requires !plan.owners[p].Resource? && forall x :: x in plan.strays ==> x.transition != t
    ensures Wired(PreArcSet(s, p, t, 1), plan.(strays := plan.strays + {Stray(t, p)}))
  {
    var r, more := PreArcSet(s, p, t, 1), plan.(strays := plan.strays + {Stray(t, p)});
    PreShape(s, p, t, 1);
    BindsSame(plan, more);
    assert Sized(r, more);
    forall q: nat
      ensures OwnerAt(r, more, q)
    {
      assert OwnerAt(s, plan, q);
    }
    forall u: nat, q: nat
      ensures ArcsAt(r, more, u, q) && UnitOk(r, q, u)
    {
      assert ArcsAt(s, plan, u, q) && UnitOk(s, q, u);
    }
    forall u: nat
      ensures KindAt(more, u) && LengthAt(more, u)
    {
      assert KindAt(plan, u) && LengthAt(plan, u);
    }
    forall n: nat, i: nat
      ensures ChainAt(more, n, i)
    {
      assert ChainAt(plan, n, i);
    }
    forall b: Bond
      ensures BondAt(more, b)
    {
      assert BondAt(plan, b);
    }
    forall x: Stray
      ensures StrayAt(more, x)
    {
      assert StrayAt(plan, x);
    }
  }

  /** Wiring does not depend on whether a transition can be suspended. */
  lemma SuspendableWired(s: Incidence, plan: Plan, t: nat)
    requires Wired(s, plan) && t < |s.transitions|
    ensures Wired(s.(transitions := s.transitions[t := s.transitions[t].(suspendable := true)]), plan)
  {
    var r := s.(transitions := s.transitions[t := s.transitions[t].(suspendable := true)]);
    forall p: nat
      ensures OwnerAt(r, plan, p)
    {
      assert OwnerAt(s, plan, p);
    }
    SameParts(s, r, plan, plan);
    forall u: nat, p: nat
      ensures ArcsAt(r, plan, u, p) && UnitOk(r, p, u)
    {
      assert ArcsAt(s, plan, u, p) && UnitOk(s, p, u);
    }
  }

  // ------------------------------------------------------------------------- chains

  /** There are no resources and nothing preempts yet. */
  ghost predicate Early(plan: Plan) {
    && plan.bonds == {} && (forall t: nat :: t < |plan.kinds| ==> !plan.kinds[t].Preempting?)
    && forall p: nat :: p < |plan.owners| ==> !plan.owners[p].Resource?
  }

  ghost function Last(plan: Plan, n: nat): nat
    requires n < |plan.chains| && plan.chains[n] != []
  {
    plan.chains[n][|plan.chains[n]| - 1]
  }

  /** The last place of a chain under construction has an arc from the step before
      it, and no other. */
  ghost predicate TailAt(s: Incidence, plan: Plan, n: nat, t: nat)
    requires Sized(s, plan) && n < |plan.chains| && plan.chains[n] != [] && Last(plan, n) < |s.places|
  {
    var length := |plan.chains[n]|;
    t < |s.transitions| ==>
      && s.pre[Last(plan, n)][t] == 0
      && s.post[t][Last(plan, n)] == if length > 1 && plan.kinds[t] == ChainStep(n, length - 2) then 1 else 0
  }

  ghost predicate Tail(s: Incidence, plan: Plan, n: nat)
    requires Sized(s, plan)
  {
    && n < |plan.chains| && plan.chains[n] != [] && Last(plan, n) < |s.places| && s.initial[Last(plan, n)] == 0
    && forall t: nat :: TailAt(s, plan, n, t)
  }

  ghost function ChainStarted(plan: Plan, n: nat): Plan
    requires n < |plan.chains|
  {
    plan.(owners := plan.owners + [OnChain(n, 0)], chains := plan.chains[n := [|plan.owners|]])
  }

  /** The entry place of a chain. */
  lemma ChainStartWired(s: Incidence, plan: Plan, n: nat, place: Place)
    requires Wired(s, plan) && Early(plan) && n < |plan.chains| && plan.chains[n] == []
    requires plan.strays == {} && 1 <= plan.room && Le(Fin(plan.room), place.capacity)
    ensures Wired(PlaceAdded(s, place), ChainStarted(plan, n))
    ensures Early(ChainStarted(plan, n)) && Tail(PlaceAdded(s, place), ChainStarted(plan, n), n)
  {
    var r, more, x := PlaceAdded(s, place), ChainStarted(plan, n), |s.places|;
    PlaceShape(s, place);
    BindsSame(plan, more);
    assert Sized(r, more);
    forall p: nat
      ensures OwnerAt(r, more, p) && (Guarded(more, p) ==> p < |s.places| && Guarded(plan, p))
    {
      assert OwnerAt(s, plan, p);
    }
    forall t: nat, p: nat
      ensures ArcsAt(r, more, t, p) && UnitOk(r, p, t)
    {
      assert ArcsAt(s, plan, t, p) && UnitOk(s, p, t);
    }
    forall m: nat, i: nat
      ensures ChainAt(more, m, i)
    {
      assert ChainAt(plan, m, i);
    }
    forall t: nat
      ensures KindAt(more, t) && LengthAt(more, t) && TailAt(r, more, n, t)
    {
      assert KindAt(plan, t) && LengthAt(plan, t);
    }
    forall b: Bond
      ensures BondAt(more, b)
    {
    }
    forall x: Stray
      ensures StrayAt(more, x)
    {
      assert StrayAt(plan, x);
    }
  }

  /** One more transition and place at the end of a chain. */
  function Extended(s: Incidence, last: nat, transition: Transition, place: Place): Incidence
    requires Shaped(s) && last < |s.places|
  {
    TransitionShape(s, transition);
    PlaceShape(TransitionAdded(s, transition), place);
    var wide := PlaceAdded(TransitionAdded(s, transition), place);
    PreShape(wide, last, |s.transitions|, 1);
    PostArcSet(PreArcSet(wide, last, |s.transitions|, 1), |s.transitions|, |s.places|, 1)
  }

  lemma ExtendedShape(s: Incidence, last: nat, transition: Transition, place: Place)
    requires Shaped(s) && last < |s.places|
    ensures
      var r := Extended(s, last, transition, place);
      && Shaped(r) && |r.places| == |s.places| + 1 && |r.transitions| == |s.transitions| + 1
      && r.transitions == s.transitions + [transition] && r.places == s.places + [place] && r.initial == s.initial + [0]
      && (forall p: nat, t: nat :: p < |s.places| && t < |s.transitions| ==>
            r.pre[p][t] == s.pre[p][t] && r.post[t][p] == s.post[t][p])
      && (forall t: nat :: t < |s.transitions| ==> r.pre[|s.places|][t] == 0 && r.post[t][|s.places|] == 0)
      && (forall p: nat :: p <= |s.places| ==>
            && r.pre[p][|s.transitions|] == (if p == last then 1 else 0)
            && r.post[|s.transitions|][p] == if p == |s.places| then 1 else 0)
  {
    TransitionShape(s, transition);
    PlaceShape(TransitionAdded(s, transition), place);
    var wide := PlaceAdded(TransitionAdded(s, transition), place);
    PreShape(wide, last, |s.transitions|, 1);
    PostShape(PreArcSet(wide, last, |s.transitions|, 1), |s.transitions|, |s.places|, 1);
  }

  ghost function ChainExtended(plan: Plan, n: nat): Plan
    requires n < |plan.chains|
  {
    var length := |plan.chains[n]|;
    Plan(plan.owners + [OnChain(n, length + 1)], plan.kinds + [ChainStep(n, length)],
         plan.chains[n := plan.chains[n] + [|plan.kinds|, |plan.owners|]], plan.bonds, plan.strays, plan.room)
  }

  lemma ExtendGuards(s: Incidence, plan: Plan, n: nat, p: nat)
    requires Wired(s, plan) && n < |plan.chains| && plan.chains[n] != []
    ensures Guarded(ChainExtended(plan, n), p) <==> Guarded(plan, p) || (p == Last(plan, n) && |plan.chains[n]| > 1)
  {
    assert OwnerAt(s, plan, p) && LengthAt(plan, n) && ChainAt(plan, n, |plan.chains[n]| - 1);
  }

  lemma ExtendArcs(s: Incidence, plan: Plan, n: nat, transition: Transition, place: Place, t: nat, p: nat)
    requires Wired(s, plan) && Early(plan) && plan.strays == {} && Tail(s, plan, n)
    ensures
      var r, more := Extended(s, Last(plan, n), transition, place), ChainExtended(plan, n);
      Sized(r, more) && ArcsAt(r, more, t, p) && UnitOk(r, p, t)
  {
    var last := Last(plan, n);
    ExtendedShape(s, last, transition, place);
    ExtendGuards(s, plan, n, p);
    assert LengthAt(plan, n) && ChainAt(plan, n, |plan.chains[n]| - 1);
    assert ArcsAt(s, plan, t, p) && UnitOk(s, p, t) && TailAt(s, plan, n, t) && KindAt(plan, t) && OwnerAt(s, plan, p);
  }

  lemma ChainExtendWired(s: Incidence, plan: Plan, n: nat, transition: Transition, place: Place)
    requires Wired(s, plan) && Early(plan) && plan.strays == {} && Tail(s, plan, n)
    requires transition.interval.Valid() && 1 <= plan.room && Le(Fin(plan.room), place.capacity)
    ensures
      var r, more := Extended(s, Last(plan, n), transition, place), ChainExtended(plan, n);
      Wired(r, more) && Early(more) && Tail(r, more, n)
  {
    var last, length := Last(plan, n), |plan.chains[n]|;
    var r, more := Extended(s, last, transition, place), ChainExtended(plan, n);
    var x, y: nat := |s.places|, |s.transitions|;
    ExtendedShape(s, last, transition, place);
    assert Sized(r, more) && LengthAt(plan, n) && ChainAt(plan, n, length - 1);
    forall p: nat
      ensures OwnerAt(r, more, p)
    {
      ExtendGuards(s, plan, n, p);
      assert OwnerAt(s, plan, p);
    }
    forall t: nat, p: nat
      ensures ArcsAt(r, more, t, p) && UnitOk(r, p, t)
    {
      ExtendArcs(s, plan, n, transition, place, t, p);
    }
    forall m: nat, i: nat
      ensures ChainAt(more, m, i)
    {
      assert ChainAt(plan, m, i);
    }
    forall t: nat
      ensures KindAt(more, t) && LengthAt(more, t) && TailAt(r, more, n, t)
    {
      assert KindAt(plan, t) && LengthAt(plan, t);
    }
    forall b: Bond
      ensures BondAt(more, b)
    {
    }
    forall x: Stray
      ensures StrayAt(more, x)
    {
      assert StrayAt(plan, x);
    }
  }

  // --------------------------------------------------------------------- resources

  ghost predicate CanBind(plan: Plan, b: Bond) {
    && b.resource < |plan.owners| && plan.owners[b.resource].Resource?
    && b.node < |plan.chains| && b.acquire < |plan.chains[b.node]| && b.release < |plan.chains[b.node]|
    && b.acquire % 2 == 1 && b.release % 2 == 1
  }

  ghost function Bound(s: Incidence, plan: Plan, b: Bond): Incidence
    requires Wired(s, plan) && CanBind(plan, b)
  {
    assert ChainAt(plan, b.node, b.acquire) && ChainAt(plan, b.node, b.release);
    var chain := plan.chains[b.node];
    PostArcSet(PreArcSet(s, b.resource, chain[b.acquire], 1), chain[b.release], b.resource, 1)
  }

  lemma BindsMore(plan: Plan, b: Bond, n: nat, acquire: bool, i: nat, p: nat)
    ensures
      var more := plan.(bonds := plan.bonds + {b});
      Binds(more, n, acquire, i, p) <==>
        || Binds(plan, n, acquire, i, p)
        || (b.node == n && b.resource == p && i == if acquire then b.acquire else b.release)
  {
    var more := plan.(bonds := plan.bonds + {b});
    if Binds(plan, n, acquire, i, p) {
      var c :| c in plan.bonds && c.node == n && c.resource == p && i == if acquire then c.acquire else c.release;
      assert c in more.bonds;
    }
    assert b in more.bonds;
  }

  lemma BondArcs(s: Incidence, plan: Plan, b: Bond, t: nat, p: nat)
    requires Wired(s, plan) && CanBind(plan, b)
    ensures
      var r, more := Bound(s, plan, b), plan.(bonds := plan.bonds + {b});
      Sized(r, more) && ArcsAt(r, more, t, p) && UnitOk(r, p, t)
  {
    var chain := plan.chains[b.node];
    assert ChainAt(plan, b.node, b.acquire) && ChainAt(plan, b.node, b.release);
    PreShape(s, b.resource, chain[b.acquire], 1);
    PostShape(PreArcSet(s, b.resource, chain[b.acquire], 1), chain[b.release], b.resource, 1);
    assert ArcsAt(s, plan, t, p) && UnitOk(s, p, t) && KindAt(plan, t) && OwnerAt(s, plan, p);
    if t < |s.transitions| && plan.kinds[t].ChainStep? {
      BindsMore(plan, b, plan.kinds[t].node, true, plan.kinds[t].pos, p);
      BindsMore(plan, b, plan.kinds[t].node, false, plan.kinds[t].pos, p);
    }
  }

  /** Binding a resource to a task. */
  lemma BondWired(s: Incidence, plan: Plan, b: Bond)
    requires Wired(s, plan) && CanBind(plan, b)
    ensures Wired(Bound(s, plan, b), plan.(bonds := plan.bonds + {b}))
  {
    var r, more := Bound(s, plan, b), plan.(bonds := plan.bonds + {b});
    var chain := plan.chains[b.node];
    assert ChainAt(plan, b.node, b.acquire) && ChainAt(plan, b.node, b.release);
    PreShape(s, b.resource, chain[b.acquire], 1);
    PostShape(PreArcSet(s, b.resource, chain[b.acquire], 1), chain[b.release], b.resource, 1);
    assert Sized(r, more);
    forall p: nat
      ensures OwnerAt(r, more, p)
    {
      assert OwnerAt(s, plan, p);
    }
    forall t: nat, p: nat
      ensures ArcsAt(r, more, t, p) && UnitOk(r, p, t)
    {
      BondArcs(s, plan, b, t, p);
    }
    forall t: nat
      ensures KindAt(more, t) && LengthAt(more, t)
    {
      assert KindAt(plan, t) && LengthAt(plan, t);
    }
    forall n: nat, i: nat
      ensures ChainAt(more, n, i)
    {
      assert ChainAt(plan, n, i);
    }
    forall c: Bond
      ensures BondAt(more, c)
    {
      assert BondAt(plan, c);
    }
    forall x: Stray
      ensures StrayAt(more, x)
    {
      assert StrayAt(plan, x);
    }
  }

  // --------------------------------------------------------------------- preemption

  ghost predicate CanPreempt(plan: Plan, high: nat, low: nat, pos: nat) {
    && high < |plan.chains| && low < |plan.chains| && 3 < |plan.chains[high]|
    && 0 < pos && pos + 1 < |plan.chains[low]| && pos % 2 == 0
  }

  /** A new transition from a and b to c and d. */
  function Crossing(s: Incidence, transition: Transition, a: nat, b: nat, c: nat, d: nat): Incidence
    requires Shaped(s) && a < |s.places| && b < |s.places| && c < |s.places| && d < |s.places|
  {
    var t := |s.transitions|;
    TransitionShape(s, transition);
    var r := TransitionAdded(s, transition);
    PreShape(r, a, t, 1);
    PreShape(PreArcSet(r, a, t, 1), b, t, 1);
    var taken := PreArcSet(PreArcSet(r, a, t, 1), b, t, 1);
    PostShape(taken, t, c, 1);
    PostArcSet(PostArcSet(taken, t, c, 1), t, d, 1)
  }

  lemma CrossingShape(s: Incidence, transition: Transition, a: nat, b: nat, c: nat, d: nat)
    requires Shaped(s) && a < |s.places| && b < |s.places| && c < |s.places| && d < |s.places|
    ensures
      var r := Crossing(s, transition, a, b, c, d);
      && Shaped(r) && r.transitions == s.transitions + [transition] && r.places == s.places && r.initial == s.initial
      && (forall p: nat, t: nat :: p < |s.places| && t < |s.transitions| ==>
            r.pre[p][t] == s.pre[p][t] && r.post[t][p] == s.post[t][p])
      && (forall p: nat :: p < |s.places| ==>
            && r.pre[p][|s.transitions|] == (if p == a || p == b then 1 else 0)
            && r.post[|s.transitions|][p] == if p == c || p == d then 1 else 0)
  {
    var t := |s.transitions|;
    TransitionShape(s, transition);
    var r := TransitionAdded(s, transition);
    PreShape(r, a, t, 1);
    PreShape(PreArcSet(r, a, t, 1), b, t, 1);
    var taken := PreArcSet(PreArcSet(r, a, t, 1), b, t, 1);
    PostShape(taken, t, c, 1);
    PostShape(PostArcSet(taken, t, c, 1), t, d, 1);
  }

  /** high enters, low goes back from position pos to its entry. */
  ghost function Preempted(s: Incidence, plan: Plan, high: nat, low: nat, pos: nat, transition: Transition): Incidence
    requires Wired(s, plan) && CanPreempt(plan, high, low, pos)
  {
    assert ChainAt(plan, high, 0) && ChainAt(plan, high, 2) && ChainAt(plan, low, 0) && ChainAt(plan, low, pos);
    var h, l := plan.chains[high], plan.chains[low];
    Crossing(s, transition, h[0], l[pos], h[2], l[0])
  }

  lemma PreemptWired(s: Incidence, plan: Plan, high: nat, low: nat, pos: nat, transition: Transition)
    requires Wired(s, plan) && CanPreempt(plan, high, low, pos) && transition.interval.Valid()
    ensures Wired(Preempted(s, plan, high, low, pos, transition),
      plan.(kinds := plan.kinds + [Preempting(high, low, pos)]))
  {
    var r, more := Preempted(s, plan, high, low, pos, transition),
      plan.(kinds := plan.kinds + [Preempting(high, low, pos)]);
    var h, l := plan.chains[high], plan.chains[low];
    assert ChainAt(plan, high, 0) && ChainAt(plan, high, 2) && ChainAt(plan, low, 0) && ChainAt(plan, low, pos);
    CrossingShape(s, transition, h[0], l[pos], h[2], l[0]);
    PlanGrows(plan, more);
    assert Sized(r, more) && LengthAt(plan, high) && LengthAt(plan, low);
    forall p: nat
      ensures OwnerAt(r, more, p)
    {
      assert OwnerAt(s, plan, p);
    }
    forall t: nat, p: nat
      ensures ArcsAt(r, more, t, p) && UnitOk(r, p, t)
    {
      assert ArcsAt(s, plan, t, p) && UnitOk(s, p, t) && OwnerAt(s, plan, p);
    }
    forall t: nat
      ensures KindAt(more, t) && LengthAt(more, t)
    {
      assert KindAt(plan, t) && LengthAt(plan, t);
    }
    forall n: nat, i: nat
      ensures ChainAt(more, n, i)
    {
      assert ChainAt(plan, n, i);
    }
    forall b: Bond
      ensures BondAt(more, b)
    {
      assert BondAt(plan, b);
    }
    forall x: Stray
      ensures StrayAt(more, x)
    {
      assert StrayAt(plan, x);
    }
  }

  // ------------------------------------------------------------------ one token only

  /** The resource, and the places between taking it and giving it back. */
  ghost function Section(plan: Plan, resource: nat): (r: set<nat>)
    ensures forall p: nat {:trigger p in r} :: p in r <==> p < |plan.owners| && InSection(plan, resource, p)
  {
    set p: nat | p < |plan.owners| && InSection(plan, resource, p)
  }

  ghost predicate InSection(plan: Plan, resource: nat, p: nat)
    requires p < |plan.owners|
  {
    p == resource || (plan.owners[p].OnChain? && Holds(plan, resource, plan.owners[p].node, plan.owners[p].pos))
  }

  /** Position i of task n lies between taking the resource and giving it back. */
  ghost predicate Holds(plan: Plan, resource: nat, n: nat, i: nat) {
    exists b :: b in plan.bonds && b.resource == resource && b.node == n && b.acquire < i < b.release
  }

  /** At most one bond a task, taken before it is given back. */
  ghost predicate WellBound(plan: Plan, resource: nat) {
    && (forall b :: b in plan.bonds && b.resource == resource ==> b.acquire < b.release)
    && (forall b, c ::
          b in plan.bonds && c in plan.bonds && b.resource == c.resource == resource && b.node == c.node ==> b == c)
  }

  /** Preemption moves the token between two tasks that both hold the resource. */
  ghost predicate PreemptsWithin(plan: Plan, resource: nat, t: nat) {
    t < |plan.kinds| && plan.kinds[t].Preempting? ==>
      var k := plan.kinds[t];
      Holds(plan, resource, k.low, k.pos) <==> Holds(plan, resource, k.high, 2)
  }

  /** Preemption brings no token: if high enters the section then low leaves it. */
  ghost predicate PreemptsOut(plan: Plan, resource: nat, t: nat) {
    t < |plan.kinds| && plan.kinds[t].Preempting? ==>
      var k := plan.kinds[t];
      Holds(plan, resource, k.high, 2) ==> Holds(plan, resource, k.low, k.pos)
  }

  /** No stray takes from the section by way of t. */
  ghost predicate StraysPast(plan: Plan, resource: nat, t: nat) {
    forall x :: x in plan.strays && x.transition == t ==> x.place !in Section(plan, resource)
  }

  /** Sections lie strictly inside chains. */
  lemma SectionGuarded(s: Incidence, plan: Plan, resource: nat, p: nat)
    requires Wired(s, plan) && resource < |plan.owners| && plan.owners[resource].Resource?
    requires p in Section(plan, resource)
    ensures Guarded(plan, p)
  {
    assert OwnerAt(s, plan, p);
    if p != resource {
      var n, i := plan.owners[p].node, plan.owners[p].pos;
      var b :| b in plan.bonds && b.resource == resource && b.node == n && b.acquire < i < b.release;
      assert BondAt(plan, b) && LengthAt(plan, n);
    }
  }

  /** Their arcs are the planned ones. */
  lemma SectionArcs(s: Incidence, plan: Plan, resource: nat, t: nat, p: nat)
    requires Wired(s, plan) && resource < |plan.owners| && plan.owners[resource].Resource?
    requires t < |s.transitions| && p in Section(plan, resource)
    ensures p in In(s, t) <==> Takes(plan, t, p)
    ensures p in Out(s, t) <==> Puts(plan, t, p)
  {
    SectionGuarded(s, plan, resource, p);
    assert ArcsAt(s, plan, t, p);
  }

  /** What a chain step does to a section: the bond of its task decides. */
  lemma StepInSection(s: Incidence, plan: Plan, resource: nat, t: nat, b: Bond, p: nat)
    requires Wired(s, plan) && resource < |plan.owners| && plan.owners[resource].Resource? && WellBound(plan, resource)
    requires t < |s.transitions| && plan.kinds[t].ChainStep? && p in Section(plan, resource)
    requires b in plan.bonds && b.resource == resource && b.node == plan.kinds[t].node
    ensures
      var i := plan.kinds[t].pos;
      && (p in In(s, t) <==>
            || (i == b.acquire && p == resource)
            || (b.acquire < i <= b.release && plan.owners[p] == OnChain(b.node, i - 1)))
      && (p in Out(s, t) <==>
            || (i == b.release && p == resource)
            || (b.acquire <= i < b.release && plan.owners[p] == OnChain(b.node, i + 1)))
  {
    SectionArcs(s, plan, resource, t, p);
    assert OwnerAt(s, plan, p) && KindAt(plan, t) && BondAt(plan, b);
    var n, i := plan.kinds[t].node, plan.kinds[t].pos;
    BindsOnly(s, plan, resource, n, b, true, i, p);
    BindsOnly(s, plan, resource, n, b, false, i, p);
  }

  lemma BindsOnly(s: Incidence, plan: Plan, resource: nat, n: nat, b: Bond, acquire: bool, i: nat, p: nat)
    requires Wired(s, plan) && WellBound(plan, resource) && p in Section(plan, resource)
    requires b in plan.bonds && b.resource == resource && b.node == n
    ensures Binds(plan, n, acquire, i, p) <==> p == resource && i == if acquire then b.acquire else b.release
  {
    if Binds(plan, n, acquire, i, p) {
      var c :| c in plan.bonds && c.node == n && c.resource == p && i == if acquire then c.acquire else c.release;
      assert BondAt(plan, c);
    }
  }

  lemma StepMovesWithin(s: Incidence, plan: Plan, resource: nat, t: nat, b: Bond)
    requires Wired(s, plan) && resource < |plan.owners| && plan.owners[resource].Resource? && WellBound(plan, resource)
    requires t < |s.transitions| && plan.kinds[t].ChainStep?
    requires b in plan.bonds && b.resource == resource && b.node == plan.kinds[t].node
    ensures MovesWithin(s, t, Section(plan, resource))
  {
    assert KindAt(plan, t) && BondAt(plan, b);
    var within, i, chain := Section(plan, resource), plan.kinds[t].pos, plan.chains[b.node];
    forall p: nat | p in within
      ensures
        && (p in In(s, t) <==>
              || (i == b.acquire && p == resource)
              || (b.acquire < i <= b.release && plan.owners[p] == OnChain(b.node, i - 1)))
        && (p in Out(s, t) <==>
              || (i == b.release && p == resource)
              || (b.acquire <= i < b.release && plan.owners[p] == OnChain(b.node, i + 1)))
      ensures OwnerAt(s, plan, p)
    {
      StepInSection(s, plan, resource, t, b, p);
    }
    if b.acquire <= i <= b.release {
      var p := if i == b.acquire then resource else chain[i - 1];
      var q := if i == b.release then resource else chain[i + 1];
      if i > b.acquire {
        assert ChainAt(plan, b.node, i - 1) && Holds(plan, resource, b.node, i - 1);
      }
      if i < b.release {
        assert ChainAt(plan, b.node, i + 1) && Holds(plan, resource, b.node, i + 1);
      }
      assert p in within && q in within;
      assert In(s, t) * within == {p} && Out(s, t) * within == {q};
      assert MovesFromTo(s, t, within, p, q);
    } else {
      assert In(s, t) * within == {} && Out(s, t) * within == {};
    }
  }

  /** The arcs of a transition that binds nothing here: a stray takes, and a
      preemption has one out of the place that low leaves and one into the place that
      high enters. */
  lemma OtherInSection(s: Incidence, plan: Plan, resource: nat, t: nat, p: nat)
    requires Wired(s, plan) && resource < |plan.owners| && plan.owners[resource].Resource?
    requires t < |s.transitions| && p in Section(plan, resource)
    requires plan.kinds[t].ChainStep? ==>
      forall b :: b in plan.bonds && b.resource == resource ==> b.node != plan.kinds[t].node
    ensures
      var k := plan.kinds[t];
      && (p in In(s, t) <==>
            Stray(t, p) in plan.strays || (k.Preempting? && plan.owners[p] == OnChain(k.low, k.pos)))
      && (p in Out(s, t) <==> k.Preempting? && plan.owners[p] == OnChain(k.high, 2))
  {
    var k := plan.kinds[t];
    assert KindAt(plan, t) && StrayAt(plan, Stray(t, p));
    SectionArcs(s, plan, resource, t, p);
    assert OwnerAt(s, plan, p);
    if k.ChainStep? && p == resource {
      assert !Binds(plan, k.node, true, k.pos, p) && !Binds(plan, k.node, false, k.pos, p);
    }
    if k.ChainStep? && p != resource {
      NoBindsOnChain(s, plan, k.node, true, k.pos, p);
      NoBindsOnChain(s, plan, k.node, false, k.pos, p);
    }
  }

  /** What a preemption takes out of a section and puts into it. */
  lemma PreemptionInSection(s: Incidence, plan: Plan, resource: nat, t: nat)
    requires Wired(s, plan) && resource < |plan.owners| && plan.owners[resource].Resource?
    requires t < |s.transitions| && plan.kinds[t].Preempting?
    ensures
      var within, k := Section(plan, resource), plan.kinds[t];
      && (if Holds(plan, resource, k.low, k.pos)
          then k.low < |plan.chains| && k.pos < |plan.chains[k.low]| && In(s, t) * within == {plan.chains[k.low][k.pos]}
          else In(s, t) * within == {})
      && (if Holds(plan, resource, k.high, 2)
          then k.high < |plan.chains| && 2 < |plan.chains[k.high]| && Out(s, t) * within == {plan.chains[k.high][2]}
          else Out(s, t) * within == {})
  {
    var within, k := Section(plan, resource), plan.kinds[t];
    assert KindAt(plan, t) && ChainAt(plan, k.low, k.pos) && ChainAt(plan, k.high, 2);
    var p, q := plan.chains[k.low][k.pos], plan.chains[k.high][2];
    forall x: nat | x in within
      ensures x in In(s, t) <==> Holds(plan, resource, k.low, k.pos) && x == p
      ensures x in Out(s, t) <==> Holds(plan, resource, k.high, 2) && x == q
    {
      OtherInSection(s, plan, resource, t, x);
      assert OwnerAt(s, plan, x) && StrayAt(plan, Stray(t, x));
    }
    assert Holds(plan, resource, k.low, k.pos) ==> p in within;
    assert Holds(plan, resource, k.high, 2) ==> q in within;
  }

  /** What a stray takes out of a section. */
  lemma StrayInSection(s: Incidence, plan: Plan, resource: nat, x: Stray)
    requires Wired(s, plan) && resource < |plan.owners| && plan.owners[resource].Resource?
    requires x in plan.strays && x.place in Section(plan, resource)
    ensures x.transition < |s.transitions| && Loses(s, x.transition, Section(plan, resource), x.place)
  {
    var within, t := Section(plan, resource), x.transition;
    assert StrayAt(plan, x);
    forall p: nat | p in within
      ensures (p in In(s, t) <==> p == x.place) && p !in Out(s, t)
    {
      OtherInSection(s, plan, resource, t, p);
      assert Stray(t, p) in plan.strays ==> Stray(t, p) == x;
    }
  }

  /** Other transitions leave the section alone or move its token between tasks, or
      lose it. */
  lemma OtherMoves(s: Incidence, plan: Plan, resource: nat, t: nat)
    requires Wired(s, plan) && resource < |plan.owners| && plan.owners[resource].Resource?
    requires t < |s.transitions| && PreemptsOut(plan, resource, t)
    requires plan.kinds[t].ChainStep? ==>
      forall b :: b in plan.bonds && b.resource == resource ==> b.node != plan.kinds[t].node
    ensures MovesOrLoses(s, t, Section(plan, resource))
    ensures PreemptsWithin(plan, resource, t) && StraysPast(plan, resource, t) ==>
      MovesWithin(s, t, Section(plan, resource))
  {
    var within, k := Section(plan, resource), plan.kinds[t];
    if k.Preempting? {
      PreemptionInSection(s, plan, resource, t);
      if Holds(plan, resource, k.low, k.pos) {
        var p := plan.chains[k.low][k.pos];
        if Holds(plan, resource, k.high, 2) {
          assert MovesFromTo(s, t, within, p, plan.chains[k.high][2]);
        } else {
          assert Loses(s, t, within, p);
        }
      }
    } else if x :| x in plan.strays && x.transition == t && x.place in within {
      StrayInSection(s, plan, resource, x);
    } else {
      forall p: nat | p in within
        ensures p !in In(s, t) && p !in Out(s, t)
      {
        OtherInSection(s, plan, resource, t, p);
      }
      assert In(s, t) * within == {} && Out(s, t) * within == {};
    }
  }

  lemma NoBindsOnChain(s: Incidence, plan: Plan, n: nat, acquire: bool, i: nat, p: nat)
    requires Wired(s, plan) && p < |plan.owners| && plan.owners[p].OnChain?
    ensures !Binds(plan, n, acquire, i, p)
  {
    forall c | c in plan.bonds
      ensures c.resource != p
    {
      assert BondAt(plan, c);
    }
  }

  /** The tokens of a resource. */
  ghost predicate Holding(plan: Plan, resource: nat, k: int) {
    resource < |plan.owners| && plan.owners[resource] == Resource(k)
  }

  lemma SectionRoomy(s: Incidence, plan: Plan, resource: nat, k: int)
    requires Wired(s, plan) && Holding(plan, resource, k)
    ensures UnitArcs(s) && forall p: nat :: p in Section(plan, resource) ==> p < |s.places|
    ensures k <= plan.room ==> Roomy(s, Section(plan, resource), k)
  {
    forall p: nat | p in Section(plan, resource)
      ensures p < |s.places| && (k <= plan.room ==> Le(Fin(k), s.places[p].capacity))
    {
      assert OwnerAt(s, plan, p);
    }
    forall p: nat, t: nat | p < |s.places| && t < |s.transitions|
      ensures UnitAt(s, p, t)
    {
      assert UnitOk(s, p, t);
    }
  }

  /** A resource that is bound once a task and that preemptions bring no token to:
      neither does anything else. */
  lemma SectionDrains(s: Incidence, plan: Plan, resource: nat, k: int)
    requires Wired(s, plan) && Holding(plan, resource, k)
    requires WellBound(plan, resource) && forall t: nat :: PreemptsOut(plan, resource, t)
    ensures Draining(s, Section(plan, resource))
    ensures TokensIn(s.initial, Section(plan, resource), |s.initial|) == k
    ensures forall t: nat ::
      t < |s.transitions| && PreemptsWithin(plan, resource, t) && StraysPast(plan, resource, t) ==>
      MovesWithin(s, t, Section(plan, resource))
  {
    var within := Section(plan, resource);
    SectionRoomy(s, plan, resource, k);
    forall t: nat | t < |s.transitions|
      ensures MovesOrLoses(s, t, within)
      ensures PreemptsWithin(plan, resource, t) && StraysPast(plan, resource, t) ==> MovesWithin(s, t, within)
    {
      var kind := plan.kinds[t];
      if kind.ChainStep? && exists b :: b in plan.bonds && b.resource == resource && b.node == kind.node {
        var b :| b in plan.bonds && b.resource == resource && b.node == plan.kinds[t].node;
        StepMovesWithin(s, plan, resource, t, b);
      } else {
        OtherMoves(s, plan, resource, t);
      }
    }
    InitialInSection(s, plan, resource, k, |s.places|);
  }

  /** A resource that is bound once a task and preempted only within its sections,
      with chains that have room for its tokens: the resource and all its sections
      keep them. */
  lemma SectionConserves(s: Incidence, plan: Plan, resource: nat, k: int)
    requires Wired(s, plan) && Holding(plan, resource, k) && k <= plan.room
    requires WellBound(plan, resource)
    requires forall t: nat :: PreemptsWithin(plan, resource, t) && StraysPast(plan, resource, t)
    ensures Conserving(s, Section(plan, resource), k)
    ensures TokensIn(s.initial, Section(plan, resource), |s.initial|) == k
  {
    forall t: nat
      ensures PreemptsOut(plan, resource, t)
    {
      assert PreemptsWithin(plan, resource, t);
    }
    SectionDrains(s, plan, resource, k);
    SectionRoomy(s, plan, resource, k);
    forall t: nat | t < |s.transitions|
      ensures MovesWithin(s, t, Section(plan, resource))
    {
      assert PreemptsWithin(plan, resource, t) && StraysPast(plan, resource, t);
    }
  }

  lemma {:induction false} InitialInSection(s: Incidence, plan: Plan, resource: nat, k: int, n: nat)
    requires Wired(s, plan) && Holding(plan, resource, k)
    requires WellBound(plan, resource) && n <= |s.places|
    ensures TokensIn(s.initial, Section(plan, resource), n) == if resource < n then k else 0
  {
    if n > 0 {
      InitialInSection(s, plan, resource, k, n - 1);
      var p: nat := n - 1;
      assert OwnerAt(s, plan, p);
      if p in Section(plan, resource) && p != resource {
        var m, i := plan.owners[p].node, plan.owners[p].pos;
        var b :| b in plan.bonds && b.resource == resource && b.node == m && b.acquire < i < b.release;
        assert BondAt(plan, b) && LengthAt(plan, m);
      }
    }
  }
}
