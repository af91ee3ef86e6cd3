/** The scheduler-facing sets of a marking. */
module Scheduling {
  import opened PetriNet

  /** Transition sets are kept as strictly increasing sequences. */
  ghost predicate Increasing(s: seq<nat>) {
    forall i, j :: 0 <= i < j < |s| ==> s[i] < s[j]
  }

  /** The indices below n that satisfy p, in order. */
  ghost function Those(n: nat, p: nat -> bool): (s: seq<nat>)
    ensures Increasing(s)
    ensures forall t: nat {:trigger t in s} :: t in s <==> t < n && p(t)
  {
    if n == 0 then []
    else
      var init := Those(n - 1, p);
      AppendIncreasing(init, n - 1);
      init + if p(n - 1) then [n - 1] else []
  }

  lemma AppendIncreasing(s: seq<nat>, t: nat)
    requires Increasing(s) && forall u: nat :: u in s ==> u < t
    ensures Increasing(s + [t])
  {
    forall i, j | 0 <= i < j < |s + [t]|
      ensures (s + [t])[i] < (s + [t])[j]
    {
      assert (s + [t])[i] == s[i] && s[i] in s;
    }
  }

  lemma {:induction false} IncreasingUnique(a: seq<nat>, b: seq<nat>)
    requires Increasing(a) && Increasing(b)
    requires forall t: nat :: t in a <==> t in b
    ensures a == b
  {
    if a == [] {
      assert forall i :: 0 <= i < |b| ==> b[i] in a;
    } else {
      assert a[0] in b;
      assert b[0] in a;
      assert a[0] == b[0];
      forall t: nat
        ensures t in a[1..] <==> t in b[1..]
      {
        if t in a[1..] {
          assert t in a && t != a[0];
        }
        if t in b[1..] {
          assert t in b && t != b[0];
        }
      }
      IncreasingUnique(a[1..], b[1..]);
      assert a == [a[0]] + a[1..] && b == [b[0]] + b[1..];
    }
  }

  // --------------------------------------------------------------- definitions

  /** E_struct(M). */
  ghost function StructEnabled(net: Net, m: Marking): (s: seq<nat>)
    ensures Increasing(s) && forall t: nat {:trigger t in s} :: t in s <==> Enabled(net, m, t)
  {
    Those(|net.transitions|, (t: nat) => Enabled(net, m, t))
  }

  ghost predicate SameCore(net: Net, t: nat, u: nat) {
    t < |net.transitions| && u < |net.transitions| && net.transitions[t].core == net.transitions[u].core
  }

  /** The order in which a bounded core serves transitions. */
  predicate Before(net: Net, t: nat, u: nat)
    requires t < |net.transitions| && u < |net.transitions|
  {
    || net.transitions[t].priority > net.transitions[u].priority
    || (net.transitions[t].priority == net.transitions[u].priority && t < u)
  }

  /** The enabled competitors that a bounded core serves before t. */
  ghost function Ahead(net: Net, m: Marking, t: nat): set<nat>
    requires t < |net.transitions|
  {
    set u: nat | u in StructEnabled(net, m) && SameCore(net, u, t) && Before(net, u, t)
  }

  /** t is among the K first on a core bounded to K, and of maximal priority on
      an unbounded one. */
  ghost predicate Active(net: Net, m: Marking, t: nat) {
    && Enabled(net, m, t)
    && var bound := Parallelism(net, net.transitions[t].core);
       if bound <= 0
       then forall u: nat {:trigger SameCore(net, u, t)} :: Enabled(net, m, u) && SameCore(net, u, t) ==>
         net.transitions[u].priority <= net.transitions[t].priority
       else |Ahead(net, m, t)| < bound
  }

  /** E_pri(M). */
  ghost function PriorityEnabled(net: Net, m: Marking): (s: seq<nat>)
    ensures Increasing(s) && forall t: nat {:trigger t in s} :: t in s <==> Active(net, m, t)
  {
    Those(|net.transitions|, (t: nat) => Active(net, m, t))
  }

  /** Enabled, filtered out, and allowed to be suspended. */
  ghost predicate IsSuspended(net: Net, m: Marking, t: nat) {
    Enabled(net, m, t) && !Active(net, m, t) && net.transitions[t].suspendable
  }

  ghost function Suspended(net: Net, m: Marking): (s: seq<nat>)
    ensures Increasing(s) && forall t: nat {:trigger t in s} :: t in s <==> IsSuspended(net, m, t)
  {
    Those(|net.transitions|, (t: nat) => IsSuspended(net, m, t))
  }

  // ---------------------------------------------------------------- properties

  lemma BeforeMeansAhead(net: Net, m: Marking, t: nat, u: nat)
    requires Enabled(net, m, t) && Enabled(net, m, u) && SameCore(net, t, u) && Before(net, t, u)
    ensures |Ahead(net, m, u)| > 0
  {
    assert t in Ahead(net, m, u);
  }

  /** On a core bounded to one transition, one at most is active. */
  lemma OneOnCore(net: Net, m: Marking, t: nat, u: nat)
    requires Active(net, m, t) && Active(net, m, u) && SameCore(net, t, u)
    requires Parallelism(net, net.transitions[t].core) == 1
    ensures t == u
  {
    if Before(net, t, u) {
      BeforeMeansAhead(net, m, t, u);
    } else if Before(net, u, t) {
      BeforeMeansAhead(net, m, u, t);
    }
  }

  /** No core with work is left idle. */
  lemma {:induction false} SomeActive(net: Net, m: Marking, t: nat) returns (u: nat)
    requires Enabled(net, m, t)
    ensures Active(net, m, u) && SameCore(net, u, t)
    decreases |Ahead(net, m, t)|
  {
    if Active(net, m, t) {
      return t;
    }
    var w: nat := t;
    if Parallelism(net, net.transitions[t].core) <= 0 {
      w :| Enabled(net, m, w) && SameCore(net, w, t) && net.transitions[w].priority > net.transitions[t].priority;
    } else {
      assert Ahead(net, m, t) != {};
      w :| w in Ahead(net, m, t);
    }
    assert Ahead(net, m, w) < Ahead(net, m, t) by {
      assert w in Ahead(net, m, t) && w !in Ahead(net, m, w);
    }
    Smaller(Ahead(net, m, w), Ahead(net, m, t));
    u := SomeActive(net, m, w);
  }

  lemma {:induction false} Smaller(a: set<nat>, b: set<nat>)
    requires a < b
    ensures |a| < |b|
  {
    var x :| x in b && x !in a;
    SmallerOrEqual(a, b - {x});
  }

  lemma {:induction false} SmallerOrEqual(a: set<nat>, b: set<nat>)
    requires a <= b
    ensures |a| <= |b|
  {
    if a != {} {
      var x :| x in a;
      SmallerOrEqual(a - {x}, b - {x});
    }
  }

  /** A bounded core never runs more transitions than its bound. */
  lemma AtMostBound(net: Net, m: Marking, core: int, s: set<nat>)
    requires Parallelism(net, core) > 0
    requires forall t: nat :: t in s ==> Active(net, m, t) && net.transitions[t].core == core
    ensures |s| <= Parallelism(net, core)
  {
    if s != {} {
      var last := LastOf(net, s);
      SmallerOrEqual(s - {last}, Ahead(net, m, last));
    }
  }

  lemma {:induction false} LastOf(net: Net, s: set<nat>) returns (last: nat)
    requires s != {} && forall t: nat :: t in s ==> t < |net.transitions|
    ensures last in s && forall t: nat :: t in s && t != last ==> Before(net, t, last)
  {
    last :| last in s;
    if s != {last} {
      var other := LastOf(net, s - {last});
      if Before(net, last, other) {
        last := other;
      }
      assert forall t: nat :: t in s ==> t == last || t == other || t in s - {last};
    }
  }

  lemma {:induction false} FirstOf(net: Net, s: set<nat>) returns (first: nat)
    requires s != {} && forall t: nat :: t in s ==> t < |net.transitions|
    ensures first in s && forall t: nat :: t in s && t != first ==> Before(net, first, t)
  {
    first :| first in s;
    if s != {first} {
      var other := FirstOf(net, s - {first});
      if Before(net, other, first) {
        first := other;
      }
      assert forall t: nat :: t in s ==> t == first || t == other || t in s - {first};
    }
  }

  /** Who runs, by the fields of the transitions alone: on every core an active
      transition has a higher priority than an enabled one that is filtered out, or,
      on a bounded core, the same one and a lower index. */
  ghost predicate Precedes(net: Net, t: nat, u: nat)
    requires t < |net.transitions| && u < |net.transitions|
  {
    var a, b := net.transitions[t], net.transitions[u];
    a.priority > b.priority || (a.priority == b.priority && t < u && Parallelism(net, a.core) > 0)
  }

  lemma FilteredOut(net: Net, m: Marking, t: nat, u: nat)
    requires Active(net, m, t) && Enabled(net, m, u) && !Active(net, m, u) && SameCore(net, t, u)
    ensures Precedes(net, t, u)
  {
    if Parallelism(net, net.transitions[t].core) <= 0 {
      var w: nat :| Enabled(net, m, w) && SameCore(net, w, u)
        && net.transitions[w].priority > net.transitions[u].priority;
      assert SameCore(net, w, t);
    } else if !Before(net, t, u) {
      SmallerOrEqual(Ahead(net, m, u), Ahead(net, m, t));
    }
  }

  /** The active transitions of a core. */
  ghost function ActiveOn(net: Net, m: Marking, core: int): (s: set<nat>)
    ensures forall t: nat {:trigger t in s} :: t in s <==> Active(net, m, t) && net.transitions[t].core == core
  {
    set t | t in PriorityEnabled(net, m) && net.transitions[t].core == core
  }

  /** A bounded core that filters something out is fully used. */
  lemma FullyUsed(net: Net, m: Marking, u: nat)
    requires Enabled(net, m, u) && !Active(net, m, u) && Parallelism(net, net.transitions[u].core) > 0
    ensures u < |net.transitions|
    ensures |ActiveOn(net, m, net.transitions[u].core)| == Parallelism(net, net.transitions[u].core)
  {
    assert u < |net.transitions|;
    hide Active, Enabled;
    var core := net.transitions[u].core;
    var active := ActiveOn(net, m, core);
    AtMostBound(net, m, core, active);
    var out := set t | t in StructEnabled(net, m) && net.transitions[t].core == core && t !in active;
    assert u in out;
    var first := FirstOf(net, out);
    forall w: nat | w in Ahead(net, m, first)
      ensures w in active
    {
      assert w in out ==> Before(net, first, w);
    }
    SmallerOrEqual(Ahead(net, m, first), active);
    LateInactive(net, m, first);
  }

  lemma LateInactive(net: Net, m: Marking, t: nat)
    requires Enabled(net, m, t) && !Active(net, m, t) && Parallelism(net, net.transitions[t].core) > 0
    ensures |Ahead(net, m, t)| >= Parallelism(net, net.transitions[t].core)
  {
  }

  // -------------------------------------------------------------- computations

  method ComputeStructEnabled(net: Net, m: Marking) returns (s: seq<nat>)
    requires ValidNet(net) && ValidMarking(net, m)
    ensures s == StructEnabled(net, m)
  {
    s := [];
    for t := 0 to |net.transitions|
      invariant Increasing(s) && forall u: nat :: u in s <==> u < t && Enabled(net, m, u)
    {
      var enabled := IsEnabled(net, m, t);
      if enabled {
        AppendIncreasing(s, t);
        s := s + [t];
      }
    }
    IncreasingUnique(s, StructEnabled(net, m));
  }

  ghost predicate StrictOrder(less: (nat, nat) -> bool, s: seq<nat>) {
    && (forall a, b :: a in s && b in s && a != b ==> less(a, b) || less(b, a))
    && (forall a, b, c :: a in s && b in s && c in s && less(a, b) && less(b, c) ==> less(a, c))
  }

  ghost predicate Distinct(s: seq<nat>) {
    forall i, j :: 0 <= i < j < |s| ==> s[i] != s[j]
  }

  ghost predicate SortedBy(less: (nat, nat) -> bool, s: seq<nat>) {
    forall i, j :: 0 <= i < j < |s| ==> less(s[i], s[j])
  }

  lemma InsertSorted(s: seq<nat>, r: seq<nat>, less: (nat, nat) -> bool, k: nat, i: nat)
    requires StrictOrder(less, s) && Distinct(s) && k < |s| && i <= |r|
    requires SortedBy(less, r) && Distinct(r)
    requires forall t: nat :: t in r <==> t in s[..k]
    requires forall j :: 0 <= j < i ==> less(r[j], s[k])
    requires i < |r| ==> !less(r[i], s[k])
    ensures SortedBy(less, r[..i] + [s[k]] + r[i..]) && Distinct(r[..i] + [s[k]] + r[i..])
    ensures forall t: nat :: t in r[..i] + [s[k]] + r[i..] <==> t in s[..k + 1]
  {
    var x := s[k];
    assert x !in s[..k];
    forall j | i <= j < |r|
      ensures less(x, r[j])
    {
      assert r[i] in r && r[j] in r && r[i] in s && r[j] in s && x in s;
      assert i < j ==> less(r[i], r[j]);
    }
    assert s[..k + 1] == s[..k] + [x];
    assert r == r[..i] + r[i..];
    forall j | 0 <= j < |r|
      ensures r[j] != x
    {
      assert r[j] in r;
    }
  }

  /** The library sort, as an insertion sort. */
  method Sort(s: seq<nat>, less: (nat, nat) -> bool) returns (r: seq<nat>)
    requires StrictOrder(less, s) && Distinct(s)
    ensures SortedBy(less, r) && Distinct(r) && |r| == |s|
    ensures forall t: nat :: t in r <==> t in s
  {
    r := [];
    for k := 0 to |s|
      invariant SortedBy(less, r) && Distinct(r) && |r| == k
      invariant forall t: nat :: t in r <==> t in s[..k]
    {
      var x := s[k];
      assert x !in s[..k];
      var i := 0;
      while i < |r| && less(r[i], x)
        invariant 0 <= i <= |r|
        invariant forall j :: 0 <= j < i ==> less(r[j], x)
      {
        i := i + 1;
      }
      InsertSorted(s, r, less, k, i);
      r := r[..i] + [x] + r[i..];
    }
    assert s[..|s|] == s;
  }

  /** The first n positions of an ordered group are those with fewer than n
      members before them. */
  lemma RankIsPosition(net: Net, m: Marking, group: seq<nat>, i: nat)
    requires i < |group| && Distinct(group)
    requires forall t: nat :: t in group <==> t in StructEnabled(net, m) && SameCore(net, t, group[i])
    requires forall j, k :: 0 <= j < k < |group| ==>
      SameCore(net, group[j], group[k]) && Before(net, group[j], group[k])
    ensures group[i] < |net.transitions| && |Ahead(net, m, group[i])| == i
  {
    assert group[i] in group;
    var ahead := Ahead(net, m, group[i]);
    forall u: nat
      ensures u in ahead <==> u in group[..i]
    {
      if u in ahead {
        var k :| 0 <= k < |group| && group[k] == u;
      }
      if u in group[..i] {
        var k :| 0 <= k < i && group[k] == u;
        assert SameCore(net, group[k], group[i]) && Before(net, group[k], group[i]);
        assert group[k] in group;
      }
    }
    DistinctCount(group[..i], ahead);
  }

  lemma {:induction false} DistinctCount(s: seq<nat>, elements: set<nat>)
    requires Distinct(s) && forall u: nat :: u in elements <==> u in s
    ensures |elements| == |s|
  {
    if s == [] {
      assert elements == {};
    } else {
      var last := s[|s| - 1];
      forall u: nat
        ensures u in elements - {last} <==> u in s[..|s| - 1]
      {
      }
      DistinctCount(s[..|s| - 1], elements - {last});
    }
  }

  /** group holds the enabled transitions of one core, in order. */
  ghost predicate CoreGroup(net: Net, m: Marking, core: int, group: seq<nat>) {
    && group != [] && Distinct(group)
    && (forall t: nat :: t in group <==> Enabled(net, m, t) && net.transitions[t].core == core)
    && (forall k :: 0 <= k < |group| ==> group[k] < |net.transitions| && net.transitions[group[k]].core == core)
  }

  /** Unbounded cores keep every transition of the highest priority. */
  method KeepHighest(net: Net, group: seq<nat>, core: int, ghost m: Marking) returns (kept: seq<nat>)
    requires CoreGroup(net, m, core, group) && Parallelism(net, core) <= 0
    ensures Distinct(kept) && forall t: nat :: t in kept <==> t in group && Active(net, m, t)
  {
    var maxPriority := net.transitions[group[0]].priority;
    ghost var top: nat := group[0];
    for k := 0 to |group|
      invariant top in group && net.transitions[top].priority == maxPriority
      invariant forall j :: 0 <= j < k ==> net.transitions[group[j]].priority <= maxPriority
    {
      if maxPriority < net.transitions[group[k]].priority {
        maxPriority := net.transitions[group[k]].priority;
        top := group[k];
      }
    }
    kept := [];
    for k := 0 to |group|
      invariant Distinct(kept)
      invariant forall t: nat :: t in kept <==> t in group[..k] && net.transitions[t].priority == maxPriority
    {
      assert group[k] !in group[..k] && group[..k + 1] == group[..k] + [group[k]];
      if net.transitions[group[k]].priority == maxPriority {
        kept := kept + [group[k]];
      }
    }
    assert group[..|group|] == group;
    forall t: nat | t in group
      ensures Active(net, m, t) <==> net.transitions[t].priority == maxPriority
    {
      assert SameCore(net, top, t);
    }
  }

  /** Bounded cores keep the first ones in (priority, index) order. */
  method KeepFirst(net: Net, group: seq<nat>, core: int, ghost m: Marking) returns (kept: seq<nat>)
    requires CoreGroup(net, m, core, group) && Parallelism(net, core) > 0
    ensures Distinct(kept) && forall t: nat :: t in kept <==> t in group && Active(net, m, t)
  {
    var capacity := Parallelism(net, core);
    var less := (a: nat, b: nat) => a < |net.transitions| && b < |net.transitions| && Before(net, a, b);
    var sorted := Sort(group, less);
    forall i | 0 <= i < |sorted|
      ensures Active(net, m, sorted[i]) <==> i < capacity
    {
      assert forall j :: 0 <= j < |sorted| ==> sorted[j] in group;
      RankIsPosition(net, m, sorted, i);
    }
    var keep := if capacity < |sorted| then capacity else |sorted|;
    kept := sorted[..keep];
  }

  ghost predicate OnCore(net: Net, t: nat, core: int) {
    t < |net.transitions| && net.transitions[t].core == core
  }

  /** group lists the members of seen that belong to core. */
  ghost predicate GroupOf(net: Net, seen: seq<nat>, core: int, group: seq<nat>) {
    && group != [] && Distinct(group)
    && (forall t: nat :: t in group <==> t in seen && OnCore(net, t, core))
  }

  /** The transitions seen so far, grouped by core. */
  ghost predicate Grouped(net: Net, seen: seq<nat>, perCore: map<int, seq<nat>>) {
    && (forall t: nat :: t in seen ==> t < |net.transitions| && net.transitions[t].core in perCore)
    && (forall core :: core in perCore ==> GroupOf(net, seen, core, perCore[core]))
  }

  lemma GroupedStep(net: Net, seen: seq<nat>, perCore: map<int, seq<nat>>, t: nat)
    requires Grouped(net, seen, perCore) && t < |net.transitions| && t !in seen
    ensures
      var core := net.transitions[t].core;
      var group := if core in perCore then perCore[core] + [t] else [t];
      Grouped(net, seen + [t], perCore[core := group])
  {
    var core := net.transitions[t].core;
    var group := if core in perCore then perCore[core] + [t] else [t];
    assert GroupOf(net, seen + [t], core, group) by {
      if core in perCore {
        assert GroupOf(net, seen, core, perCore[core]);
      }
    }
    forall c | c in perCore && c != core
      ensures GroupOf(net, seen + [t], c, perCore[c])
    {
      assert GroupOf(net, seen, c, perCore[c]);
    }
  }

  /** cores lists the keys of the groups once each. */
  method GroupByCore(net: Net, structEnabled: seq<nat>, ghost m: Marking)
    returns (perCore: map<int, seq<nat>>, cores: seq<int>)
    requires structEnabled == StructEnabled(net, m)
    ensures Grouped(net, structEnabled, perCore)
    ensures forall c :: c in cores <==> c in perCore
    ensures forall i, j :: 0 <= i < j < |cores| ==> cores[i] != cores[j]
  {
    perCore, cores := map[], [];
    for k := 0 to |structEnabled|
      invariant Grouped(net, structEnabled[..k], perCore)
      invariant forall c :: c in cores <==> c in perCore
      invariant forall i, j :: 0 <= i < j < |cores| ==> cores[i] != cores[j]
    {
      var t := structEnabled[k];
      assert t in structEnabled && t !in structEnabled[..k];
      GroupedStep(net, structEnabled[..k], perCore, t);
      assert structEnabled[..k + 1] == structEnabled[..k] + [t];
      var core := net.transitions[t].core;
      if core in perCore {
        perCore := perCore[core := perCore[core] + [t]];
      } else {
        assert forall i :: 0 <= i < |cores| ==> cores[i] in cores;
        perCore := perCore[core := [t]];
        cores := cores + [core];
      }
    }
    assert structEnabled[..|structEnabled|] == structEnabled;
  }

  lemma GroupIsCoreGroup(net: Net, m: Marking, perCore: map<int, seq<nat>>, core: int)
    requires Grouped(net, StructEnabled(net, m), perCore) && core in perCore
    ensures CoreGroup(net, m, core, perCore[core])
  {
    var group := perCore[core];
    assert GroupOf(net, StructEnabled(net, m), core, group);
    forall k | 0 <= k < |group|
      ensures group[k] < |net.transitions| && net.transitions[group[k]].core == core
    {
      assert group[k] in group;
    }
  }

  /** The per-core priority filter. */
  method FilterPriorityPerCore(net: Net, structEnabled: seq<nat>, ghost m: Marking) returns (active: seq<nat>)
    requires structEnabled == StructEnabled(net, m)
    ensures active == PriorityEnabled(net, m)
    ensures forall t: nat, u: nat :: t in active && u in structEnabled && u !in active && SameCore(net, t, u) ==>
      Precedes(net, t, u)
  {
    var perCore, cores := GroupByCore(net, structEnabled, m);
    active := [];
    for k := 0 to |cores|
      invariant Distinct(active)
      invariant forall t: nat :: t in active <==> Active(net, m, t) && net.transitions[t].core in cores[..k]
    {
      var core := cores[k];
      assert core in cores && core !in cores[..k] && cores[..k + 1] == cores[..k] + [core];
      GroupIsCoreGroup(net, m, perCore, core);
      var kept: seq<nat>;
      if Parallelism(net, core) <= 0 {
        kept := KeepHighest(net, perCore[core], core, m);
      } else {
        kept := KeepFirst(net, perCore[core], core, m);
      }
      DistinctAppend(active, kept);
      active := active + kept;
    }
    assert cores[..|cores|] == cores;
    forall t: nat | Active(net, m, t)
      ensures net.transitions[t].core in perCore
    {
      assert t in structEnabled;
    }
    active := Sort(active, (a: nat, b: nat) => a < b);
    IncreasingUnique(active, PriorityEnabled(net, m));
    forall t: nat, u: nat | t in active && u in structEnabled && u !in active && SameCore(net, t, u)
      ensures Precedes(net, t, u)
    {
      FilteredOut(net, m, t, u);
    }
  }

  lemma DistinctAppend(a: seq<nat>, b: seq<nat>)
    requires Distinct(a) && Distinct(b) && forall t: nat :: t in b ==> t !in a
    ensures Distinct(a + b)
  {
    forall i, j | 0 <= i < j < |a + b|
      ensures (a + b)[i] != (a + b)[j]
    {
      if i < |a| <= j {
        assert a[i] in a && b[j - |a|] in b;
      }
    }
  }

  /** The enabled transitions that are filtered out and suspendable. */
  method ComputeSuspended(net: Net, structEnabled: seq<nat>, active: seq<nat>, ghost m: Marking)
    returns (suspended: seq<nat>)
    requires structEnabled == StructEnabled(net, m) && active == PriorityEnabled(net, m)
    ensures suspended == Suspended(net, m)
  {
    suspended := [];
    for k := 0 to |structEnabled|
      invariant Increasing(suspended)
      invariant forall t: nat :: t in suspended <==> t in structEnabled[..k] && IsSuspended(net, m, t)
    {
      var t := structEnabled[k];
      assert t in structEnabled && structEnabled[..k + 1] == structEnabled[..k] + [t];
      if t !in active && net.transitions[t].suspendable {
        forall u: nat | u in suspended
          ensures u < t
        {
        }
        AppendIncreasing(suspended, t);
        suspended := suspended + [t];
      }
    }
    assert structEnabled[..|structEnabled|] == structEnabled;
    IncreasingUnique(suspended, Suspended(net, m));
  }
}
