/** A net with a frozen clock: every finished state graph of it stores a marking that
    no run reaches. */
module FrozenGap {
  import opened Bounds
  import opened Zones
  import opened PetriNet
  import opened Scheduling
  import opened StateClasses
  import opened Semantics
  import opened Symbolic
  import opened Graph
  import opened Coverage

  // ----------------------------------------------------------------------- the net

  /** Transition t takes the token of place t.  Transition 0 gives it to place 1 and
      transition 3 to place 4; 1 and 3 run on one core, and 1 has priority there. */
  function Gives(t: nat, p: nat): int {
    if (t == 0 && p == 1) || (t == 3 && p == 4) then 1 else 0
  }

  function Low(t: nat): nat {
    match t
    case 0 => 0
    case 1 => 5
    case 2 => 10
    case _ => 7
  }

  function High(t: nat): nat {
    match t
    case 0 => 5
    case 1 => 5
    case 2 => 10
    case _ => 7
  }

  function TheTransition(t: nat): Transition {
    Transition(Interval(Low(t), Fin(High(t)), false, false), if t == 1 then 2 else if t == 3 then 1 else 0,
               if t == 1 || t == 3 then 0 else -1, false)
  }

  function TheNet(): Net {
    Net(seq(5, _ => Place(Fin(1), false)),
        [TheTransition(0), TheTransition(1), TheTransition(2), TheTransition(3)],
        [[Arc(0, 1)], [Arc(1, 1)], [Arc(2, 1)], [Arc(3, 1)]],
        [[Arc(1, 1)], [], [], [Arc(4, 1)]],
        [1, 0, 1, 1, 0], map[])
  }

  /** What there is to know about the net. */
  ghost predicate FactsAt(net: Net, m: Marking, t: nat) {
    ValidMarking(net, m) ==>
      && |m| == 5 && |net.transitions| == 4
      && (Enabled(net, m, t) <==> t < 4 && m[t] >= 1)
      && (Active(net, m, t) <==> t < 4 && m[t] >= 1 && (t == 3 ==> m[1] == 0))
      && !IsSuspended(net, m, t)
      && (t < 4 ==> Earliest(net, t) == Low(t) && Latest(net, t) == Fin(High(t)))
  }

  ghost predicate MovesAt(net: Net, m: Marking, t: nat, p: nat) {
    ValidMarking(net, m) && t < 4 && t < |net.preArcs| && t < |net.postArcs| && p < |m| ==>
      FireMarking(net, m, t)[p] ==
        var x := m[p] - (if p == t then 1 else 0) + Gives(t, p);
        if Gives(t, p) > 0 then Clamp(x, Fin(1)) else x
  }

  ghost predicate IsNet(net: Net) {
    && ValidNet(net) && net.initial == [1, 0, 1, 1, 0]
    && (forall m: Marking, t: nat :: FactsAt(net, m, t))
    && (forall m: Marking, t: nat, p: nat :: MovesAt(net, m, t, p))
  }

  lemma NetIsValid()
    ensures ValidNet(TheNet())
  {
  }

  lemma EnabledAt(m: Marking, t: nat)
    requires ValidMarking(TheNet(), m)
    ensures Enabled(TheNet(), m, t) <==> t < 4 && m[t] >= 1
  {
    if t < 4 {
      assert TheNet().preArcs[t] == [Arc(t, 1)];
      assert TheNet().preArcs[t][0] == Arc(t, 1);
    }
  }

  lemma Facts(m: Marking, t: nat)
    requires ValidMarking(TheNet(), m)
    ensures FactsAt(TheNet(), m, t)
  {
    NetIsValid();
    EnabledAt(m, t);
    EnabledAt(m, 1);
    forall u: nat
      ensures Enabled(TheNet(), m, u) <==> u < 4 && m[u] >= 1
    {
      EnabledAt(m, u);
    }
    assert t == 3 && m[1] >= 1 ==> SameCore(TheNet(), 1, t);
  }

  lemma Moves(m: Marking, t: nat, p: nat)
    requires ValidMarking(TheNet(), m) && t < 4 && p < 5
    ensures MovesAt(TheNet(), m, t, p)
  {
    NetIsValid();
    assert Weight([Arc(t, 1)], p) == if p == t then 1 else 0;
    assert Weight(TheNet().preArcs[t], p) == if p == t then 1 else 0;
    assert Weight([Arc(1, 1)], p) == (if p == 1 then 1 else 0) && Weight([Arc(4, 1)], p) == if p == 4 then 1 else 0;
    assert Weight(TheNet().postArcs[t], p) == Gives(t, p);
  }

  lemma TheNetIs()
    ensures IsNet(TheNet())
  {
    NetIsValid();
    forall m: Marking, t: nat
      ensures FactsAt(TheNet(), m, t)
    {
      if ValidMarking(TheNet(), m) {
        Facts(m, t);
      }
    }
    forall m: Marking, t: nat, p: nat
      ensures MovesAt(TheNet(), m, t, p)
    {
      if ValidMarking(TheNet(), m) && t < 4 && p < 5 {
        Moves(m, t, p);
      }
    }
  }

  // ----------------------------------------------------------------- no run gets there

  /** As long as place 2 is marked, place 3 is; and the clock of transition 2 is ahead
      of that of 3 by the time that transition 1 has run. */
  ghost predicate Ahead(net: Net, c: Config) {
    && ValidConfig(net, c) && |c.marking| == 5
    && (forall p: nat :: p < 5 ==> 0 <= c.marking[p] <= 1) && c.marking[0] + c.marking[1] <= 1
    && c.marking[3] + c.marking[4] == 1
    && (c.marking[2] == 1 ==>
          && c.marking[3] == 1 && Execution(2) in c.clocks && Execution(3) in c.clocks
          && (if c.marking[0] == 1 then
                Execution(0) in c.clocks && c.clocks[Execution(0)] == c.clocks[Execution(3)] == c.clocks[Execution(2)]
              else if c.marking[1] == 1 then
                && Execution(1) in c.clocks
                && c.clocks[Execution(2)] == c.clocks[Execution(3)] + c.clocks[Execution(1)]
              else c.clocks[Execution(2)] == c.clocks[Execution(3)] + 5))
  }

  lemma HasExecution(net: Net, c: Config, t: nat)
    requires IsNet(net) && ValidConfig(net, c)
    ensures Execution(t) in c.clocks <==> t < 4 && t < |c.marking| && c.marking[t] >= 1
  {
    assert FactsAt(net, c.marking, t);
    assert Execution(t) in Clocks(net, c.marking) <==> HasClock(net, c.marking, Execution(t));
  }

  lemma InitialIs(net: Net)
    requires IsNet(net)
    ensures ValidConfig(net, InitialConfig(net)) && InitialConfig(net).marking == [1, 0, 1, 1, 0]
    ensures forall x :: x in InitialConfig(net).clocks ==> InitialConfig(net).clocks[x] == 0
  {
  }

  lemma StartsAhead(net: Net)
    requires IsNet(net)
    ensures Ahead(net, InitialConfig(net))
  {
    hide IsNet;
    var c := InitialConfig(net);
    InitialIs(net);
    HasExecution(net, c, 0);
    HasExecution(net, c, 2);
    HasExecution(net, c, 3);
  }

  /** No active transition is past its latest time. */
  ghost predicate Bounded(net: Net, c: Config) {
    ValidConfig(net, c) && forall t: nat :: t < 4 && Active(net, c.marking, t) ==>
      Execution(t) in c.clocks && c.clocks[Execution(t)] <= High(t)
  }

  /** What a delay does to clock t. */
  ghost predicate DelayedAt(net: Net, c: Config, r: Config, d: int, t: nat)
    requires t < 4 && |c.marking| == 5
  {
    && (Active(net, c.marking, t) <==> c.marking[t] >= 1 && (t == 3 ==> c.marking[1] == 0))
    && (Execution(t) in c.clocks <==> c.marking[t] >= 1) && (Execution(t) in r.clocks <==> c.marking[t] >= 1)
    && (c.marking[t] >= 1 ==>
          r.clocks[Execution(t)] == c.clocks[Execution(t)] + if Active(net, c.marking, t) then d else 0)
    && (Active(net, c.marking, t) ==> c.marking[t] >= 1 && r.clocks[Execution(t)] <= High(t))
  }

  lemma Delayed(net: Net, c: Config, d: int, t: nat)
    requires IsNet(net) && ValidConfig(net, c) && |c.marking| == 5 && CanDelay(net, c, d) && t < 4
    ensures DelayedAt(net, c, Delay(net, c, d), d, t)
  {
    assert FactsAt(net, c.marking, t);
    HasExecution(net, c, t);
  }

  lemma DelayAhead(net: Net, c: Config, d: int)
    requires IsNet(net) && Ahead(net, c) && CanDelay(net, c, d)
    ensures Ahead(net, Delay(net, c, d)) && Bounded(net, Delay(net, c, d))
  {
    hide IsNet, CanDelay, Active, ValidConfig;
    var r := Delay(net, c, d);
    forall t: nat | t < 4
      ensures DelayedAt(net, c, r, d, t)
    {
      Delayed(net, c, d, t);
    }
    assert DelayedAt(net, c, r, d, 0) && DelayedAt(net, c, r, d, 1);
    assert DelayedAt(net, c, r, d, 2) && DelayedAt(net, c, r, d, 3);
  }

  /** What firing t does to place and clock u. */
  ghost predicate FiredAt(c: Config, r: Config, t: nat, u: nat)
    requires |c.marking| == |r.marking| == 5
  {
    && (u < 5 ==> var x := c.marking[u] - (if u == t then 1 else 0) + Gives(t, u);
                  r.marking[u] == if Gives(t, u) > 0 then Clamp(x, Fin(1)) else x)
    && (u < 4 ==>
          && (Execution(u) in c.clocks <==> c.marking[u] >= 1) && (Execution(u) in r.clocks <==> r.marking[u] >= 1)
          && (r.marking[u] >= 1 && c.marking[u] >= 1 && u != t ==> r.clocks[Execution(u)] == c.clocks[Execution(u)])
          && (r.marking[u] >= 1 && (c.marking[u] < 1 || u == t) ==> r.clocks[Execution(u)] == 0))
  }

  lemma Fired(net: Net, c: Config, t: nat, u: nat)
    requires IsNet(net) && ValidConfig(net, c) && |c.marking| == 5 && CanFire(net, c, t) && t < 4
    ensures FiredAt(c, FireConfig(net, c, t), t, u)
  {
    if u < 5 {
      assert MovesAt(net, c.marking, t, u);
    }
    HasExecution(net, c, u);
    HasExecution(net, FireConfig(net, c, t), u);
  }

  /** Transition 3 cannot fire before 2. */
  lemma ThreeWaits(net: Net, c: Config)
    requires IsNet(net) && Ahead(net, c) && Bounded(net, c) && CanFire(net, c, 3)
    ensures c.marking[2] == 0
  {
    assert FactsAt(net, c.marking, 0) && FactsAt(net, c.marking, 2) && FactsAt(net, c.marking, 3);
    HasExecution(net, c, 3);
  }

  lemma Fires(net: Net, c: Config, t: nat)
    requires IsNet(net) && ValidConfig(net, c) && CanFire(net, c, t)
    ensures t < 4 && |c.marking| == 5 && c.marking[t] >= 1 && Execution(t) in c.clocks
    ensures Low(t) <= c.clocks[Execution(t)] <= High(t)
  {
    assert FactsAt(net, c.marking, t);
    HasExecution(net, c, t);
  }

  lemma FireAhead(net: Net, c: Config, t: nat)
    requires IsNet(net) && Ahead(net, c) && Bounded(net, c) && CanFire(net, c, t)
    ensures Ahead(net, FireConfig(net, c, t))
  {
    var r := FireConfig(net, c, t);
    Fires(net, c, t);
    if t == 3 {
      ThreeWaits(net, c);
    }
    forall u: nat
      ensures FiredAt(c, r, t, u)
    {
      Fired(net, c, t, u);
    }
    StaysAhead(net, c, r, t);
  }

  lemma StaysAhead(net: Net, c: Config, r: Config, t: nat)
    requires Ahead(net, c) && ValidConfig(net, r) && |r.marking| == 5 && t < 4 && c.marking[t] >= 1
    requires Execution(t) in c.clocks && Low(t) <= c.clocks[Execution(t)] <= High(t)
    requires (t == 3 ==> c.marking[2] == 0) && forall u: nat :: FiredAt(c, r, t, u)
    ensures Ahead(net, r)
  {
    hide ValidConfig;
    assert FiredAt(c, r, t, 0) && FiredAt(c, r, t, 1) && FiredAt(c, r, t, 2);
    assert FiredAt(c, r, t, 3) && FiredAt(c, r, t, 4);
  }

  lemma {:induction false} RunAhead(net: Net, configs: seq<Config>, steps: seq<Step>)
    requires IsNet(net) && IsInitialRun(net, configs, steps)
    ensures Ahead(net, configs[|steps|])
    decreases |steps|
  {
    if steps == [] {
      StartsAhead(net);
    } else {
      var n := |steps| - 1;
      RunPrefix(net, configs, steps);
      RunAhead(net, configs[..|steps|], steps[..n]);
      assert Steps(net, configs[n], steps[n], configs[n + 1]);
      DelayAhead(net, configs[n], steps[n].delay);
      FireAhead(net, Delay(net, configs[n], steps[n].delay), steps[n].transition);
    }
  }

  /** Tokens in places 2 and 4 alone. */
  function Gap(): Marking {
    [0, 0, 1, 0, 1]
  }

  lemma GapIsUnreachable(net: Net)
    requires IsNet(net)
    ensures !Reachable(net, Gap())
  {
    if Reachable(net, Gap()) {
      var configs: seq<Config>, steps: seq<Step> :|
        IsInitialRun(net, configs, steps) && configs[|steps|].marking == Gap();
      RunAhead(net, configs, steps);
    }
  }

  // ------------------------------------------------------------ every graph stores it

  /** c has this marking, and the clock of each enabled transition t shows values[t]. */
  ghost predicate Shows(net: Net, c: Config, m: Marking, values: seq<int>) {
    && ValidConfig(net, c) && c.marking == m && |m| == 5 && |values| == 4
    && forall t: nat :: t < 4 && m[t] >= 1 ==> Execution(t) in c.clocks && c.clocks[Execution(t)] == values[t]
  }

  function Proceeds(m: Marking, t: nat): bool
    requires |m| == 5 && t < 4
  {
    m[t] >= 1 && (t == 3 ==> m[1] == 0)
  }

  function Later(m: Marking, values: seq<int>, d: int): (r: seq<int>)
    requires |m| == 5 && |values| == 4
    ensures |r| == 4 && forall t: nat :: t < 4 ==> r[t] == if Proceeds(m, t) then values[t] + d else values[t]
  {
    seq(4, t requires 0 <= t < 4 => if Proceeds(m, t) then values[t] + d else values[t])
  }

  lemma ActiveIs(net: Net, c: Config, t: nat)
    requires IsNet(net) && ValidConfig(net, c) && |c.marking| == 5
    ensures Active(net, c.marking, t) <==> t < 4 && Proceeds(c.marking, t)
    ensures t < 4 ==> t < |net.transitions| && Earliest(net, t) == Low(t) && Latest(net, t) == Fin(High(t))
  {
    assert FactsAt(net, c.marking, t);
  }

  lemma DelayShows(net: Net, c: Config, m: Marking, values: seq<int>, d: nat)
    requires IsNet(net) && Shows(net, c, m, values)
    requires forall t: nat :: t < 4 && Proceeds(m, t) ==> values[t] + d <= High(t)
    ensures CanDelay(net, c, d) && Shows(net, Delay(net, c, d), m, Later(m, values, d))
  {
    hide IsNet, Active, Enabled, Latest;
    forall t: nat
      ensures Active(net, m, t) <==> t < 4 && Proceeds(m, t)
      ensures t < 4 ==> t < |net.transitions| && Latest(net, t) == Fin(High(t))
    {
      ActiveIs(net, c, t);
    }
    var r := Delay(net, c, d);
    forall t: nat | t < 4 && m[t] >= 1
      ensures Execution(t) in r.clocks && r.clocks[Execution(t)] == Later(m, values, d)[t]
    {
      assert Execution(t) in c.clocks && Runs(net, m, Execution(t)) == Active(net, m, t);
    }
  }

  /** t may fire under marking and clock values, and these are the ones after it. */
  ghost predicate Turns(m: Marking, values: seq<int>, t: nat, after: Marking, zeroed: seq<int>) {
    && |m| == 5 && |values| == 4 && t < 4 && Proceeds(m, t) && Low(t) <= values[t] <= High(t)
    && |after| == 5 && |zeroed| == 4
    && (forall p: nat :: p < 5 ==> after[p] == m[p] - (if p == t then 1 else 0) + Gives(t, p) <= 1)
    && (forall u: nat :: u < 4 && after[u] >= 1 ==> zeroed[u] == if u != t && m[u] >= 1 then values[u] else 0)
  }

  lemma FireShows(net: Net, c: Config, m: Marking, values: seq<int>, t: nat, after: Marking, zeroed: seq<int>)
    requires IsNet(net) && Shows(net, c, m, values) && Turns(m, values, t, after, zeroed)
    ensures ValidNet(net) && CanFire(net, c, t) && Shows(net, FireConfig(net, c, t), after, zeroed)
  {
    ActiveIs(net, c, t);
    assert ValidNet(net);
    var r := FireConfig(net, c, t);
    FiresTo(net, c, t, r);
    hide IsNet, FireConfig;
    forall p: nat | p < 5
      ensures r.marking[p] == after[p]
    {
      assert FiredAt(c, r, t, p);
    }
    assert r.marking == after;
    forall u: nat | u < 4 && after[u] >= 1
      ensures Execution(u) in r.clocks && r.clocks[Execution(u)] == zeroed[u]
    {
      assert FiredAt(c, r, t, u) && r.marking[u] >= 1;
      assert m[u] >= 1 ==> Execution(u) in c.clocks && c.clocks[Execution(u)] == values[u];
    }
  }

  lemma FiresTo(net: Net, c: Config, t: nat, r: Config)
    requires IsNet(net) && ValidConfig(net, c) && |c.marking| == 5 && CanFire(net, c, t) && t < 4
    requires r == FireConfig(net, c, t)
    ensures |r.marking| == 5 && forall u: nat :: FiredAt(c, r, t, u)
  {
    hide IsNet;
    forall u: nat
      ensures FiredAt(c, r, t, u)
    {
      Fired(net, c, t, u);
    }
  }

  function ValueOf(values: seq<int>, x: ClockVar): int
    requires |values| == 4
  {
    if x.Execution? && x.transition < 4 then values[x.transition] else 0
  }

  ghost predicate IsVariable(m: Marking, x: ClockVar)
    requires |m| == 5
  {
    x.Zero? || (x.Execution? && x.transition < 4 && m[x.transition] >= 1)
  }

  /** Variable i of the class is the reference or the clock of an enabled transition. */
  lemma VariableAt(net: Net, s: StateClass, c: Config, values: seq<int>, i: nat)
    requires IsNet(net) && IsClass(net, s) && Shows(net, c, s.marking, values) && i < |s.clockVars|
    ensures var x := s.clockVars[i];
      && |s.marking| == 5 && |values| == 4 && (i == 0 <==> x.Zero?) && IsVariable(s.marking, x)
      && (RunsAt(net, s, i) <==> x.Execution? && Proceeds(s.marking, x.transition))
      && Valuation(s.clockVars, c.clocks)[i] == ValueOf(values, x)
  {
    LayoutFacts(net, s.marking);
    var x := s.clockVars[i];
    assert x in s.clockVars;
    if !x.Zero? {
      assert FactsAt(net, s.marking, x.transition);
      ActiveIs(net, c, x.transition);
    }
  }

  lemma BlendValues(x: ClockVar, y: ClockVar)
    requires var m := [0, 1, 1, 1, 0]; IsVariable(m, x) && IsVariable(m, y)
    ensures
      var d := ValueOf([0, 5, 5, 5], x) - ValueOf([0, 5, 5, 5], y);
      || (x.Execution? && Proceeds([0, 1, 1, 1, 0], x.transition)
          && !(y.Execution? && Proceeds([0, 1, 1, 1, 0], y.transition)))
      || d == ValueOf([0, 0, 0, 0], x) - ValueOf([0, 0, 0, 0], y)
      || d <= ValueOf([0, 0, 5, 5], x) - ValueOf([0, 0, 5, 5], y)
    ensures y.Zero? && x.Execution? && Proceeds([0, 1, 1, 1, 0], x.transition) ==>
      Within(ValueOf([0, 5, 5, 5], x) - ValueOf([0, 5, 5, 5], y), Fin(High(x.transition)))
  {
  }

  lemma RelaxedHolds(net: Net, s: StateClass, u: seq<int>, v: seq<int>, w: seq<int>, i: nat, j: nat)
    requires IsClass(net, s) && i < |s.zone| && j < |s.zone| && |u| == |v| == |w| == |s.zone|
    requires Holds(s.zone, u, i, j) && Holds(s.zone, v, i, j)
    requires (RunsAt(net, s, i) && !RunsAt(net, s, j)) || w[i] - w[j] == u[i] - u[j] || w[i] - w[j] <= v[i] - v[j]
    requires j == 0 && s.clockVars[i].Execution? && Active(net, s.marking, s.clockVars[i].transition) ==>
      Within(w[i] - w[j], Latest(net, s.clockVars[i].transition))
    ensures Holds(RelaxedZone(net, s), w, i, j)
  {
    hide IsClass, Active, RunsAt, Latest;
  }

  /** With the clocks of 1, 2 and 3 at 0, 0, 0 and at 0, 5, 5, the elapsed class
      also has them at 5, 5, 5: there the bounds between 2 and 3 are forgotten. */
  lemma Blends(net: Net, s: StateClass, a: Config, b: Config, w: Config, i: nat, j: nat)
    requires IsNet(net) && GoodClass(net, s) && InZone(net, s, a) && InZone(net, s, b)
    requires s.marking == [0, 1, 1, 1, 0]
    requires Shows(net, a, s.marking, [0, 0, 0, 0]) && Shows(net, b, s.marking, [0, 0, 5, 5])
    requires Shows(net, w, s.marking, [0, 5, 5, 5]) && i < |s.zone| && j < |s.zone|
    ensures Holds(RelaxedZone(net, s), Valuation(s.clockVars, w.clocks), i, j)
  {
    hide *;
    InClass(net, s, a, i, j);
    InClass(net, s, b, i, j);
    VariableAt(net, s, a, [0, 0, 0, 0], i);
    VariableAt(net, s, a, [0, 0, 0, 0], j);
    VariableAt(net, s, b, [0, 0, 5, 5], i);
    VariableAt(net, s, b, [0, 0, 5, 5], j);
    VariableAt(net, s, w, [0, 5, 5, 5], i);
    VariableAt(net, s, w, [0, 5, 5, 5], j);
    BlendValues(s.clockVars[i], s.clockVars[j]);
    if i > 0 {
      CapAt(net, s, w, [0, 5, 5, 5], s.clockVars[i].transition);
    }
    RelaxedHolds(net, s, Valuation(s.clockVars, a.clocks), Valuation(s.clockVars, b.clocks),
                 Valuation(s.clockVars, w.clocks), i, j);
  }

  lemma InClass(net: Net, s: StateClass, c: Config, i: nat, j: nat)
    requires GoodClass(net, s) && InZone(net, s, c) && i < |s.zone| && j < |s.zone|
    ensures IsClass(net, s) && |s.zone| == |s.clockVars| && Holds(s.zone, Valuation(s.clockVars, c.clocks), i, j)
  {
  }

  lemma CapAt(net: Net, s: StateClass, c: Config, values: seq<int>, t: nat)
    requires IsNet(net) && IsClass(net, s) && Shows(net, c, s.marking, values) && t < 4
    ensures t < |net.transitions| && Latest(net, t) == Fin(High(t))
    ensures |s.marking| == 5 && (Active(net, s.marking, t) <==> Proceeds(s.marking, t))
  {
    ActiveIs(net, c, t);
  }

  lemma BlendsIn(net: Net, s: StateClass, a: Config, b: Config, w: Config)
    requires IsNet(net) && GoodClass(net, s) && InZone(net, s, a) && InZone(net, s, b)
    requires s.marking == [0, 1, 1, 1, 0]
    requires Shows(net, a, s.marking, [0, 0, 0, 0]) && Shows(net, b, s.marking, [0, 0, 5, 5])
    requires Shows(net, w, s.marking, [0, 5, 5, 5])
    ensures InZone(net, Elapse(net, s), w)
  {
    hide IsNet, Shows, Holds;
    RelaxedFacts(net, s);
    var v := Valuation(s.clockVars, w.clocks);
    forall i: nat, j: nat | i < |s.zone| && j < |s.zone|
      ensures Holds(RelaxedZone(net, s), v, i, j)
    {
      Blends(net, s, a, b, w, i, j);
    }
    assert Sat(RelaxedZone(net, s), v);
    IsValid(net, w, s.marking, [0, 5, 5, 5]);
  }

  lemma IsValid(net: Net, c: Config, m: Marking, values: seq<int>)
    requires Shows(net, c, m, values)
    ensures ValidConfig(net, c) && c.marking == m
  {
  }

  // -------------------------------------------------------------------- the way there

  lemma StartShows(net: Net)
    requires IsNet(net)
    ensures Shows(net, InitialConfig(net), [1, 0, 1, 1, 0], [0, 0, 0, 0])
  {
    InitialIs(net);
    forall t: nat | t < 4 && InitialConfig(net).marking[t] >= 1
      ensures Execution(t) in InitialConfig(net).clocks
    {
      HasExecution(net, InitialConfig(net), t);
    }
  }

  lemma DelayIn(net: Net, s: StateClass, c: Config, m: Marking, values: seq<int>, d: nat, later: seq<int>)
    returns (late: Config)
    requires IsNet(net) && GoodClass(net, s) && InZone(net, s, c) && Shows(net, c, m, values)
    requires forall t: nat :: t < 4 && Proceeds(m, t) ==> values[t] + d <= High(t)
    requires later == Later(m, values, d)
    ensures InZone(net, Elapse(net, s), late) && Shows(net, late, m, later)
  {
    DelayShows(net, c, m, values, d);
    DelayInElapse(net, s, c, d);
    late := Delay(net, c, d);
  }

  lemma FireAlong(g: Setting, vertices: seq<StateClass>, edges: seq<GraphEdge>, birth: seq<nat>, k: nat, late: Config,
                  m: Marking, values: seq<int>, after: Marking, zeroed: seq<int>) returns (next: Config)
    requires IsNet(g.net) && Complete(g, vertices, edges, birth) && k < |edges| && edges[k].source < |vertices|
    requires GoodClass(g.net, vertices[edges[k].source])
    requires InZone(g.net, Elapse(g.net, vertices[edges[k].source]), late) && Shows(g.net, late, m, values)
    requires var t := edges[k].firing.transition; Turns(m, values, t, after, zeroed)
    ensures edges[k].target < |vertices| && GoodClass(g.net, vertices[edges[k].target])
    ensures InZone(g.net, vertices[edges[k].target], next) && Shows(g.net, next, after, zeroed)
  {
    var t := edges[k].firing.transition;
    FireShows(g.net, late, m, values, t, after, zeroed);
    EdgeKeeps(g, vertices, edges, birth, k, late);
    next := FireConfig(g.net, late, t);
  }

  /** The edge that a shown configuration of the elapsed class of u asks for. */
  lemma EdgeShown(g: Setting, vertices: seq<StateClass>, edges: seq<GraphEdge>, birth: seq<nat>, u: nat,
                  late: Config, m: Marking, values: seq<int>, t: nat, after: Marking, zeroed: seq<int>) returns (k: nat)
    requires IsNet(g.net) && Complete(g, vertices, edges, birth) && u < |vertices| && GoodClass(g.net, vertices[u])
    requires InZone(g.net, Elapse(g.net, vertices[u]), late) && Shows(g.net, late, m, values)
    requires Turns(m, values, t, after, zeroed)
    ensures k < |edges| && edges[k].source == u && edges[k].firing.transition == t
  {
    FireShows(g.net, late, m, values, t, after, zeroed);
    k := EdgeThere(g, vertices, edges, birth, u, late, t);
  }

  /** A configuration like c with other values on its clocks. */
  lemma Revalued(net: Net, c: Config, m: Marking, values: seq<int>, other: seq<int>) returns (w: Config)
    requires Shows(net, c, m, values) && |other| == 4
    ensures Shows(net, w, m, other)
  {
    w := Config(m, map x | x in c.clocks :: ValueOf(other, x));
  }

  lemma StartLater(d: nat)
    requires d <= 5
    ensures Later([1, 0, 1, 1, 0], [0, 0, 0, 0], d) == [d, 0, d, d]
    ensures forall t: nat :: t < 4 && Proceeds([1, 0, 1, 1, 0], t) ==> [0, 0, 0, 0][t] + d <= High(t)
  {
  }

  /** What the elapsed start class contains. */
  lemma StartDelayed(g: Setting, vertices: seq<StateClass>, edges: seq<GraphEdge>, birth: seq<nat>)
    returns (early: Config, later: Config)
    requires IsNet(g.net) && Complete(g, vertices, edges, birth)
    ensures |vertices| > 0 && GoodClass(g.net, vertices[0])
    ensures InZone(g.net, Elapse(g.net, vertices[0]), early) && InZone(g.net, Elapse(g.net, vertices[0]), later)
    ensures Shows(g.net, early, [1, 0, 1, 1, 0], [0, 0, 0, 0]) && Shows(g.net, later, [1, 0, 1, 1, 0], [5, 0, 5, 5])
  {
    StartCovered(g, vertices, edges, birth);
    assert VertexAt(g, vertices, 0);
    hide IsNet, GoodClass, InZone, Shows, Complete, Proceeds, Later;
    StartShows(g.net);
    StartLater(0);
    StartLater(5);
    var c, m := InitialConfig(g.net), [1, 0, 1, 1, 0];
    early := DelayIn(g.net, vertices[0], c, m, [0, 0, 0, 0], 0, [0, 0, 0, 0]);
    later := DelayIn(g.net, vertices[0], c, m, [0, 0, 0, 0], 5, [5, 0, 5, 5]);
  }

  /** Transition 0 at once and after 5 lead along one edge, into a class whose
      elapse then allows 1 to fire while 3 is as far on as 2. */
  lemma Meets(g: Setting, vertices: seq<StateClass>, edges: seq<GraphEdge>, birth: seq<nat>)
    returns (u: nat, w: Config)
    requires IsNet(g.net) && Complete(g, vertices, edges, birth)
    ensures u < |vertices| && GoodClass(g.net, vertices[u])
    ensures InZone(g.net, Elapse(g.net, vertices[u]), w) && Shows(g.net, w, [0, 1, 1, 1, 0], [0, 5, 5, 5])
  {
    hide IsNet, GoodClass, InZone, Shows, Complete;
    var m, next := [1, 0, 1, 1, 0], [0, 1, 1, 1, 0];
    var early, later := StartDelayed(g, vertices, edges, birth);
    var k := EdgeShown(g, vertices, edges, birth, 0, early, m, [0, 0, 0, 0], 0, next, [0, 0, 0, 0]);
    var a := FireAlong(g, vertices, edges, birth, k, early, m, [0, 0, 0, 0], next, [0, 0, 0, 0]);
    var b := FireAlong(g, vertices, edges, birth, k, later, m, [5, 0, 5, 5], next, [0, 0, 5, 5]);
    u := edges[k].target;
    w := Revalued(g.net, a, next, [0, 0, 0, 0], [0, 5, 5, 5]);
    MarkedSo(g.net, vertices[u], a, next, [0, 0, 0, 0]);
    BlendsIn(g.net, vertices[u], a, b, w);
  }

  lemma MarkedSo(net: Net, s: StateClass, c: Config, m: Marking, values: seq<int>)
    requires InZone(net, s, c) && Shows(net, c, m, values)
    ensures s.marking == m
  {
  }

  /** Every finished graph of the net stores the marking, in every mode, with or
      without extrapolation. */
  lemma GapIsStored(g: Setting, vertices: seq<StateClass>, edges: seq<GraphEdge>, birth: seq<nat>) returns (v: nat)
    requires IsNet(g.net) && Complete(g, vertices, edges, birth)
    ensures v < |vertices| && vertices[v].marking == Gap()
  {
    hide IsNet, Complete, GoodClass, InZone, Shows;
    var u, w := Meets(g, vertices, edges, birth);
    var m, values := [0, 0, 1, 1, 0], [0, 0, 5, 5];
    var k := EdgeShown(g, vertices, edges, birth, u, w, [0, 1, 1, 1, 0], [0, 5, 5, 5], 1, m, values);
    var c := FireAlong(g, vertices, edges, birth, k, w, [0, 1, 1, 1, 0], [0, 5, 5, 5], m, values);
    u := edges[k].target;
    var late := DelayIn(g.net, vertices[u], c, m, values, 2, [0, 0, 7, 7]);
    k := EdgeShown(g, vertices, edges, birth, u, late, m, [0, 0, 7, 7], 3, Gap(), [0, 0, 7, 0]);
    var last := FireAlong(g, vertices, edges, birth, k, late, m, [0, 0, 7, 7], Gap(), [0, 0, 7, 0]);
    v := edges[k].target;
    MarkedSo(g.net, vertices[v], last, Gap(), [0, 0, 7, 0]);
  }

  /** So with frozen clocks the stored markings can be more than the reachable ones. */
  lemma FrozenStoresMore(g: Setting, vertices: seq<StateClass>, edges: seq<GraphEdge>, birth: seq<nat>)
    requires g.net == TheNet() && Complete(g, vertices, edges, birth)
    ensures !NeverFrozen(g, vertices)
    ensures exists v :: 0 <= v < |vertices| && !Reachable(g.net, vertices[v].marking)
  {
    TheNetIs();
    hide IsNet, Reachable, NeverFrozen, Complete;
    var v := GapIsStored(g, vertices, edges, birth);
    GapIsUnreachable(g.net);
    MarkingsOfGraph(g, vertices, edges, birth, Gap());
  }
}
