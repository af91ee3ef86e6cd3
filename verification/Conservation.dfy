/** What runs keep: the tokens of sets of places, and places that are full. */
module Conservation {
  import opened Bounds
  import opened PetriNet
  import opened Semantics
  import opened Coverage
  import opened Ptpn

  /** Places that t takes from, and puts into. */
  ghost function In(s: Incidence, t: nat): (r: set<nat>)
    requires Shaped(s) && t < |s.transitions|
    ensures forall p: nat {:trigger p in r} :: p in r <==> p < |s.places| && s.pre[p][t] > 0
  {
    set p: nat | p < |s.places| && s.pre[p][t] > 0
  }

  ghost function Out(s: Incidence, t: nat): (r: set<nat>)
    requires Shaped(s) && t < |s.transitions|
    ensures forall p: nat {:trigger p in r} :: p in r <==> p < |s.places| && s.post[t][p] > 0
  {
    set p: nat | p < |s.places| && s.post[t][p] > 0
  }

  /** All arcs have weight 1. */
  ghost predicate UnitArcs(s: Incidence) {
    && Shaped(s)
    && (forall p: nat, t: nat :: p < |s.places| && t < |s.transitions| ==> UnitAt(s, p, t))
  }

  ghost predicate UnitAt(s: Incidence, p: nat, t: nat)
    requires Shaped(s) && p < |s.places| && t < |s.transitions|
  {
    0 <= s.pre[p][t] <= 1 && 0 <= s.post[t][p] <= 1
  }

  /** t moves one token within the set, or does not touch it. */
  ghost predicate MovesWithin(s: Incidence, t: nat, within: set<nat>)
    requires Shaped(s) && t < |s.transitions|
  {
    || (In(s, t) * within == {} && Out(s, t) * within == {})
    || exists p: nat, q: nat :: MovesFromTo(s, t, within, p, q)
  }

  ghost predicate MovesFromTo(s: Incidence, t: nat, within: set<nat>, p: nat, q: nat)
    requires Shaped(s) && t < |s.transitions|
  {
    In(s, t) * within == {p} && Out(s, t) * within == {q}
  }

  /** t takes a token out of p, in the set, and puts none into the set. */
  ghost predicate Loses(s: Incidence, t: nat, within: set<nat>, p: nat)
    requires Shaped(s) && t < |s.transitions|
  {
    In(s, t) * within == {p} && Out(s, t) * within == {}
  }

  ghost predicate MovesOrLoses(s: Incidence, t: nat, within: set<nat>)
    requires Shaped(s) && t < |s.transitions|
  {
    MovesWithin(s, t, within) || exists p: nat :: Loses(s, t, within, p)
  }

  /** The places of the set can hold k tokens. */
  ghost predicate Roomy(s: Incidence, within: set<nat>, k: int) {
    UnitArcs(s) && forall p: nat :: p in within ==> p < |s.places| && Le(Fin(k), s.places[p].capacity)
  }

  /** Every transition moves one token within the set or none. */
  ghost predicate Conserving(s: Incidence, within: set<nat>, k: int) {
    Roomy(s, within, k) && forall t: nat :: t < |s.transitions| ==> MovesWithin(s, t, within)
  }

  /** No transition brings a token into the set. */
  ghost predicate Draining(s: Incidence, within: set<nat>) {
    && UnitArcs(s) && (forall p: nat :: p in within ==> p < |s.places|)
    && forall t: nat :: t < |s.transitions| ==> MovesOrLoses(s, t, within)
  }

  /** The tokens of the first n places that belong to the set. */
  ghost function TokensIn(m: Marking, within: set<nat>, n: nat): int
    requires n <= |m|
  {
    if n == 0 then 0 else TokensIn(m, within, n - 1) + if n - 1 in within then m[n - 1] else 0
  }

  lemma {:induction false} SameTokens(m: Marking, r: Marking, within: set<nat>, n: nat)
    requires n <= |m| == |r| && forall p: nat :: p < n && p in within ==> m[p] == r[p]
    ensures TokensIn(m, within, n) == TokensIn(r, within, n)
  {
    if n > 0 {
      SameTokens(m, r, within, n - 1);
    }
  }

  lemma {:induction false} TokensChange(m: Marking, within: set<nat>, p: nat, x: int, n: nat)
    requires n <= |m| && p < |m|
    ensures TokensIn(m[p := x], within, n) == TokensIn(m, within, n) + if p < n && p in within then x - m[p] else 0
  {
    if n > 0 {
      TokensChange(m, within, p, x, n - 1);
    }
  }

  lemma {:induction false} TokensAtLeast(m: Marking, within: set<nat>, p: nat, n: nat)
    requires n <= |m| && p < n && p in within && forall q: nat :: q < n ==> m[q] >= 0
    ensures TokensIn(m, within, n) >= m[p]
    ensures TokensIn(m, within, n) == m[p] ==> forall q: nat :: q < n && q in within && q != p ==> m[q] == 0
  {
    if n > 0 {
      if p == n - 1 {
        TokensNonNegative(m, within, n - 1);
      } else {
        TokensAtLeast(m, within, p, n - 1);
      }
    }
  }

  lemma {:induction false} TokensNonNegative(m: Marking, within: set<nat>, n: nat)
    requires n <= |m| && forall q: nat :: q < n ==> m[q] >= 0
    ensures TokensIn(m, within, n) >= 0
    ensures TokensIn(m, within, n) == 0 ==> forall q: nat :: q < n && q in within ==> m[q] == 0
  {
    if n > 0 {
      TokensNonNegative(m, within, n - 1);
    }
  }

  ghost predicate HoldsOne(m: Marking, within: set<nat>) {
    TokensIn(m, within, |m|) == 1
  }

  /** The net has these contents. */
  ghost predicate Realizes(net: Net, s: Incidence) {
    && Shaped(s) && net.places == s.places && net.transitions == s.transitions && net.initial == s.initial
    && SparseOk(s, net.preArcs, net.postArcs)
  }

  lemma FiringArcs(net: Net, s: Incidence, t: nat, p: nat)
    requires Realizes(net, s) && UnitArcs(s) && t < |s.transitions| && p < |s.places|
    ensures Weight(net.preArcs[t], p) == (if p in In(s, t) then 1 else 0)
    ensures Weight(net.postArcs[t], p) == (if p in Out(s, t) then 1 else 0)
  {
    assert SparseAt(s, net.preArcs, net.postArcs, t) && UnitAt(s, p, t);
    SparseExact(Column(s, t));
    SparseExact(s.post[t]);
  }

  /** A firing keeps the tokens of a conserving set whose places can hold them all,
      saturation or not. */
  lemma FiringConserves(net: Net, s: Incidence, within: set<nat>, k: int, m: Marking, t: nat)
    requires Realizes(net, s) && Roomy(s, within, k) && ValidNet(net) && ValidMarking(net, m) && Enabled(net, m, t)
    requires MovesWithin(s, t, within) && TokensIn(m, within, |m|) <= k
    ensures TokensIn(FireMarking(net, m, t), within, |m|) == TokensIn(m, within, |m|)
  {
    var r, n := FireMarking(net, m, t), |m|;
    if p: nat, q: nat :| MovesFromTo(s, t, within, p, q) {
      assert p in In(s, t) * within && q in Out(s, t) * within;
      EnabledTakes(net, s, m, t, p);
      FitsIn(m, within, p, q, n);
      MovedTokens(m, within, p, q, n);
      forall x: nat | x < n && x in within
        ensures Moved(m, p, q)[x] == r[x]
      {
        FiringArcs(net, s, t, x);
        assert x in In(s, t) ==> x in In(s, t) * within;
        assert x in Out(s, t) ==> x in Out(s, t) * within;
      }
      SameTokens(Moved(m, p, q), r, within, n);
    } else {
      UntouchedTokens(net, s, within, m, t);
    }
  }

  lemma UntouchedTokens(net: Net, s: Incidence, within: set<nat>, m: Marking, t: nat)
    requires Realizes(net, s) && UnitArcs(s) && |m| == |net.places| && t < |s.transitions|
    requires t < |net.preArcs| && t < |net.postArcs|
    requires In(s, t) * within == {} && Out(s, t) * within == {}
    ensures TokensIn(FireMarking(net, m, t), within, |m|) == TokensIn(m, within, |m|)
  {
    forall p: nat | p < |m| && p in within
      ensures m[p] == FireMarking(net, m, t)[p]
    {
      FiringArcs(net, s, t, p);
      assert p !in In(s, t) * within && p !in Out(s, t) * within;
    }
    SameTokens(m, FireMarking(net, m, t), within, |m|);
  }

  /** One token moved from p to q. */
  ghost function Moved(m: Marking, p: nat, q: nat): (r: Marking)
    requires p < |m| && q < |m|
    ensures |r| == |m|
  {
    var taken := m[p := m[p] - 1];
    taken[q := taken[q] + 1]
  }

  lemma MovedTokens(m: Marking, within: set<nat>, p: nat, q: nat, n: nat)
    requires n == |m| && p < n && q < n && p in within && q in within
    ensures TokensIn(Moved(m, p, q), within, n) == TokensIn(m, within, n)
  {
    var taken := m[p := m[p] - 1];
    TokensChange(m, within, p, m[p] - 1, n);
    TokensChange(taken, within, q, taken[q] + 1, n);
  }

  /** A token that leaves p fits into q if all tokens together do. */
  lemma FitsIn(m: Marking, within: set<nat>, p: nat, q: nat, n: nat)
    requires n == |m| && p < n && q < n && p in within && q in within && m[p] >= 1
    requires forall x: nat :: x < n ==> m[x] >= 0
    ensures Moved(m, p, q)[q] <= TokensIn(m, within, n)
  {
    var r := Moved(m, p, q);
    MovedTokens(m, within, p, q, n);
    TokensAtLeast(r, within, q, n);
  }

  /** A set that nothing is brought into never has more tokens than before. */
  lemma FiringDrains(net: Net, s: Incidence, within: set<nat>, m: Marking, t: nat)
    requires Realizes(net, s) && Draining(s, within) && ValidNet(net) && ValidMarking(net, m) && Enabled(net, m, t)
    ensures TokensIn(FireMarking(net, m, t), within, |m|) <= TokensIn(m, within, |m|)
    ensures (exists p: nat :: Loses(s, t, within, p)) ==>
      TokensIn(FireMarking(net, m, t), within, |m|) < TokensIn(m, within, |m|)
  {
    var r, n := FireMarking(net, m, t), |m|;
    assert MovesOrLoses(s, t, within);
    if p: nat :| Loses(s, t, within, p) {
      assert p in In(s, t) * within;
      TokensChange(m, within, p, m[p] - 1, n);
      forall x: nat | x < n && x in within
        ensures r[x] <= m[p := m[p] - 1][x]
      {
        FiringArcs(net, s, t, x);
        assert x !in Out(s, t) * within && (x in In(s, t) <==> x in In(s, t) * within);
      }
      FewerTokens(r, m[p := m[p] - 1], within, n);
    } else if p: nat, q: nat :| MovesFromTo(s, t, within, p, q) {
      assert p in In(s, t) * within && q in Out(s, t) * within;
      MovedTokens(m, within, p, q, n);
      forall x: nat | x < n && x in within
        ensures r[x] <= Moved(m, p, q)[x]
      {
        FiringArcs(net, s, t, x);
        assert x in In(s, t) <==> x in In(s, t) * within;
        assert x in Out(s, t) <==> x in Out(s, t) * within;
      }
      FewerTokens(r, Moved(m, p, q), within, n);
    } else {
      UntouchedTokens(net, s, within, m, t);
    }
  }

  lemma {:induction false} FewerTokens(m: Marking, r: Marking, within: set<nat>, n: nat)
    requires n <= |m| && n <= |r| && forall p: nat :: p < n && p in within ==> m[p] <= r[p]
    ensures TokensIn(m, within, n) <= TokensIn(r, within, n)
  {
    if n > 0 {
      FewerTokens(m, r, within, n - 1);
    }
  }

  lemma {:induction false} NoTokens(m: Marking, within: set<nat>, n: nat)
    requires n <= |m| && forall p: nat :: p < n && p in within ==> m[p] == 0
    ensures TokensIn(m, within, n) == 0
  {
    if n > 0 {
      NoTokens(m, within, n - 1);
    }
  }

  lemma EnabledTakes(net: Net, s: Incidence, m: Marking, t: nat, p: nat)
    requires Realizes(net, s) && UnitArcs(s) && ValidNet(net) && ValidMarking(net, m) && Enabled(net, m, t)
    requires p in In(s, t)
    ensures m[p] >= 1
  {
    FiringArcs(net, s, t, p);
    WeightAt(net.preArcs[t], |net.places|, p);
  }

  /** With unit arcs, enabled means a token in every input place. */
  lemma EnabledIff(net: Net, s: Incidence, m: Marking, t: nat)
    requires Realizes(net, s) && UnitArcs(s) && ValidNet(net) && ValidMarking(net, m) && t < |s.transitions|
    ensures Enabled(net, m, t) <==> forall p: nat :: p in In(s, t) ==> m[p] >= 1
  {
    var arcs := net.preArcs[t];
    forall p: nat | p in In(s, t)
      ensures exists k :: 0 <= k < |arcs| && arcs[k].place == p && arcs[k].weight == 1
    {
      FiringArcs(net, s, t, p);
      WeightAt(arcs, |net.places|, p);
    }
    forall k | 0 <= k < |arcs|
      ensures arcs[k].place in In(s, t) && arcs[k].weight == 1
    {
      FiringArcs(net, s, t, arcs[k].place);
      WeightAt(arcs, |net.places|, arcs[k].place);
    }
  }

  /** Along every run a conserving set keeps the tokens that it starts with. */
  lemma {:induction false} RunConserves(net: Net, s: Incidence, within: set<nat>, k: int,
                                        configs: seq<Config>, steps: seq<Step>)
    requires ValidNet(net) && Realizes(net, s) && Conserving(s, within, k) && IsInitialRun(net, configs, steps)
    requires TokensIn(s.initial, within, |s.initial|) <= k
    ensures |configs[|steps|].marking| == |s.initial|
    ensures TokensIn(configs[|steps|].marking, within, |s.initial|) == TokensIn(s.initial, within, |s.initial|)
    decreases |steps|
  {
    if steps != [] {
      var n := |steps| - 1;
      RunPrefix(net, configs, steps);
      RunConserves(net, s, within, k, configs[..|steps|], steps[..n]);
      assert Steps(net, configs[n], steps[n], configs[n + 1]);
      FiringConserves(net, s, within, k, configs[n].marking, steps[n].transition);
    }
  }

  /** Along any run, from any marking, a draining set never gets more tokens. */
  lemma {:induction false} RunDrains(net: Net, s: Incidence, within: set<nat>, configs: seq<Config>, steps: seq<Step>)
    requires ValidNet(net) && Realizes(net, s) && Draining(s, within) && IsRun(net, configs, steps)
    requires |configs[0].marking| == |net.places|
    ensures |configs[|steps|].marking| == |net.places|
    ensures
      TokensIn(configs[|steps|].marking, within, |net.places|) <= TokensIn(configs[0].marking, within, |net.places|)
    decreases |steps|
  {
    if steps != [] {
      var n := |steps| - 1;
      RunPrefix(net, configs, steps);
      RunDrains(net, s, within, configs[..|steps|], steps[..n]);
      assert Steps(net, configs[n], steps[n], configs[n + 1]);
      FiringDrains(net, s, within, configs[n].marking, steps[n].transition);
    }
  }

  lemma ReachableConserves(net: Net, s: Incidence, within: set<nat>, k: int, m: Marking)
    requires ValidNet(net) && Realizes(net, s) && Conserving(s, within, k) && Reachable(net, m)
    requires TokensIn(s.initial, within, |s.initial|) <= k
    ensures |m| == |s.initial| && TokensIn(m, within, |m|) == TokensIn(s.initial, within, |s.initial|)
  {
    var configs: seq<Config>, steps: seq<Step> :| IsInitialRun(net, configs, steps) && configs[|steps|].marking == m;
    RunConserves(net, s, within, k, configs, steps);
  }

  lemma RunIsValid(net: Net, configs: seq<Config>, steps: seq<Step>)
    requires ValidNet(net) && IsRun(net, configs, steps) && ValidMarking(net, configs[0].marking)
    ensures ValidMarking(net, configs[|steps|].marking)
  {
    if steps != [] {
      var n := |steps| - 1;
      assert Steps(net, configs[n], steps[n], configs[n + 1]);
    }
  }

  lemma ReachableIsValid(net: Net, m: Marking)
    requires ValidNet(net) && Reachable(net, m)
    ensures ValidMarking(net, m)
  {
    var configs: seq<Config>, steps: seq<Step> :| IsInitialRun(net, configs, steps) && configs[|steps|].marking == m;
    RunIsValid(net, configs, steps);
  }

  /** t gives place p at least what it takes there. */
  ghost predicate Generous(net: Net, t: nat, p: nat)
    requires t < |net.preArcs| && t < |net.postArcs|
  {
    exists u: int, w: int :: Carries(net.preArcs[t], p, u) && Carries(net.postArcs[t], p, w) && u <= w
  }

  /** A full place stays full along every run of transitions that give it at least
      what they take: overflow costs only the tokens that do not fit. */
  lemma {:induction false} StaysFull(net: Net, configs: seq<Config>, steps: seq<Step>, p: nat)
    requires ValidNet(net) && IsRun(net, configs, steps) && p < |net.places|
    requires |configs[0].marking| == |net.places| && Fin(configs[0].marking[p]) == net.places[p].capacity
    requires forall i :: 0 <= i < |steps| && steps[i].transition < |net.transitions| ==>
      Generous(net, steps[i].transition, p)
    ensures |configs[|steps|].marking| == |net.places| && Fin(configs[|steps|].marking[p]) == net.places[p].capacity
    decreases |steps|
  {
    if steps != [] {
      var n := |steps| - 1;
      RunPrefix(net, configs, steps);
      StaysFull(net, configs[..|steps|], steps[..n], p);
      assert Steps(net, configs[n], steps[n], configs[n + 1]);
      var m, t := configs[n].marking, steps[n].transition;
      assert Generous(net, t, p);
      var u: int, w: int :| Carries(net.preArcs[t], p, u) && Carries(net.postArcs[t], p, w) && u <= w;
      FullStaysFull(net, m, t, p, u, w);
    }
  }

  /** Exactly one place of the set is marked, with one token. */
  ghost predicate OneMarked(m: Marking, within: set<nat>, p: nat) {
    p in within && p < |m| && m[p] == 1 && forall q: nat :: q in within && q < |m| && q != p ==> m[q] == 0
  }

  lemma {:induction false} SomeMarked(m: Marking, within: set<nat>, n: nat) returns (p: nat)
    requires n <= |m| && TokensIn(m, within, n) > 0
    ensures p in within && p < n && m[p] > 0
  {
    if n - 1 in within && m[n - 1] > 0 {
      p := n - 1;
    } else {
      p := SomeMarked(m, within, n - 1);
    }
  }

  lemma HoldsOneMeans(m: Marking, within: set<nat>)
    requires HoldsOne(m, within) && forall q: nat :: q < |m| ==> m[q] >= 0
    ensures exists p: nat :: OneMarked(m, within, p)
  {
    var p := SomeMarked(m, within, |m|);
    TokensAtLeast(m, within, p, |m|);
    assert OneMarked(m, within, p);
  }
}
