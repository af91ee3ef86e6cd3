/** One symbolic step on state classes, as value functions, and what it means
    for the concrete semantics. */
module Symbolic {
  import opened Bounds
  import opened Zones
  import opened PetriNet
  import opened Scheduling
  import opened StateClasses
  import opened Semantics

  // ------------------------------------------------- classes as configurations

  ghost function Valuation(vars: seq<ClockVar>, clocks: map<ClockVar, int>): (v: seq<int>)
    ensures |v| == |vars|
    ensures forall i {:trigger v[i]} :: 0 <= i < |vars| ==> v[i] == if vars[i] in clocks then clocks[vars[i]] else 0
  {
    seq(|vars|, i requires 0 <= i < |vars| => if vars[i] in clocks then clocks[vars[i]] else 0)
  }

  /** c is one of the configurations that s stands for. */
  ghost predicate InZone(net: Net, s: StateClass, c: Config) {
    && IsClass(net, s) && ValidConfig(net, c) && s.marking == c.marking
    && Sat(s.zone, Valuation(s.clockVars, c.clocks))
  }

  ghost function ConfigOf(net: Net, s: StateClass, v: seq<int>): (c: Config)
    requires IsClass(net, s) && |v| == |s.zone|
    ensures ValidConfig(net, c) && c.marking == s.marking
  {
    LayoutFacts(net, s.marking);
    Config(s.marking, map x | x in Clocks(net, s.marking) :: v[IndexOf(s.clockVars, x)])
  }

  lemma ConfigOfValuation(net: Net, s: StateClass, v: seq<int>)
    requires IsClass(net, s) && |v| == |s.zone| && v[0] == 0
    ensures Valuation(s.clockVars, ConfigOf(net, s, v).clocks) == v
  {
    LayoutFacts(net, s.marking);
    var c := ConfigOf(net, s, v);
    forall i | 0 <= i < |v|
      ensures Valuation(s.clockVars, c.clocks)[i] == v[i]
    {
      if i > 0 {
        assert s.clockVars[i] in s.clockVars && s.clockVars[i] in Clocks(net, s.marking);
      }
    }
  }

  lemma ConfigsAgree(net: Net, s: StateClass, a: Config, b: Config)
    requires IsClass(net, s) && ValidConfig(net, a) && ValidConfig(net, b) && a.marking == b.marking == s.marking
    requires Valuation(s.clockVars, a.clocks) == Valuation(s.clockVars, b.clocks)
    ensures a == b
  {
    LayoutFacts(net, s.marking);
    forall x | x in Clocks(net, s.marking)
      ensures a.clocks[x] == b.clocks[x]
    {
      var i := IndexOf(s.clockVars, x);
      assert Valuation(s.clockVars, a.clocks)[i] == Valuation(s.clockVars, b.clocks)[i];
    }
    assert a.clocks == b.clocks;
  }

  /** The value of an execution clock is its coordinate. */
  lemma RowValue(net: Net, s: StateClass, c: Config, t: nat)
    requires IsClass(net, s) && ValidConfig(net, c) && c.marking == s.marking && Enabled(net, s.marking, t)
    ensures Valuation(s.clockVars, c.clocks)[Row(net, s, t)] == c.clocks[Execution(t)]
    ensures Valuation(s.clockVars, c.clocks)[0] == 0
  {
    LayoutFacts(net, s.marking);
    assert Execution(t) in Clocks(net, s.marking);
  }

  /** Good classes are never empty. */
  lemma GoodClassInhabited(net: Net, s: StateClass) returns (c: Config)
    requires GoodClass(net, s)
    ensures InZone(net, s, c)
  {
    LayoutFacts(net, s.marking);
    var v := ClosedHasSolution(s.zone);
    ConfigOfValuation(net, s, v);
    c := ConfigOf(net, s, v);
  }

  // ----------------------------------------------------------------- time passes

  ghost predicate RunsAt(net: Net, s: StateClass, i: nat)
    requires i < |s.clockVars|
  {
    Runs(net, s.marking, s.clockVars[i])
  }

  /** Running clocks lose their upper bounds against stationary ones, and active
      execution clocks are capped at their latest bound. */
  ghost function RelaxedEntry(net: Net, s: StateClass, i: nat, j: nat): Bound
    requires IsClass(net, s) && i < |s.zone| && j < |s.zone|
  {
    var base := if RunsAt(net, s, i) && !RunsAt(net, s, j) then Inf else s.zone[i][j];
    if j == 0 && s.clockVars[i].Execution? && Active(net, s.marking, s.clockVars[i].transition)
    then Min(base, Latest(net, s.clockVars[i].transition))
    else base
  }

  ghost function RelaxedRow(net: Net, s: StateClass, i: nat): (r: seq<Bound>)
    requires IsClass(net, s) && i < |s.zone|
    ensures |r| == |s.zone| && forall j: nat {:trigger r[j]} :: j < |r| ==> r[j] == RelaxedEntry(net, s, i, j)
  {
    seq(|s.zone|, j requires 0 <= j < |s.zone| => RelaxedEntry(net, s, i, j))
  }

  ghost function RelaxedZone(net: Net, s: StateClass): (r: Matrix)
    requires IsClass(net, s)
    ensures |r| == |s.zone|
    ensures forall i: nat, j: nat {:trigger r[i][j]} :: i < |r| && j < |r| ==> r[i][j] == RelaxedEntry(net, s, i, j)
  {
    seq(|s.zone|, i requires 0 <= i < |s.zone| => RelaxedRow(net, s, i))
  }

  ghost function Elapse(net: Net, s: StateClass): (e: StateClass)
    requires IsClass(net, s)
    ensures IsClass(net, e) && e.marking == s.marking && e.clockVars == s.clockVars
  {
    MakeClass(net, s.marking, Close(RelaxedZone(net, s)))
  }

  lemma RelaxedFacts(net: Net, s: StateClass)
    requires GoodClass(net, s)
    ensures ZeroDiagonal(RelaxedZone(net, s)) && HasSolution(RelaxedZone(net, s))
    ensures Tighter(s.zone, RelaxedZone(net, s))
  {
    LayoutFacts(net, s.marking);
    var r := RelaxedZone(net, s);
    forall i: nat, j: nat | i < |r| && j < |r|
      ensures Le(s.zone[i][j], r[i][j])
    {
      assert ClockBounds(net, s, i);
    }
    var v := ClosedHasSolution(s.zone);
    TighterSat(s.zone, r, v);
  }

  lemma ElapseGood(net: Net, s: StateClass)
    requires GoodClass(net, s)
    ensures GoodClass(net, Elapse(net, s))
  {
    LayoutFacts(net, s.marking);
    RelaxedFacts(net, s);
    var e, r := Elapse(net, s), RelaxedZone(net, s);
    forall i: nat | i < |e.zone|
      ensures ClockBounds(net, e, i)
    {
      assert ClockBounds(net, s, i) && Le(e.zone[0][i], r[0][i]) && Le(e.zone[i][0], r[i][0]);
    }
  }

  lemma DelayValuation(net: Net, s: StateClass, c: Config, d: int, i: nat)
    requires IsClass(net, s) && ValidConfig(net, c) && c.marking == s.marking && i < |s.zone|
    ensures
      var v, w := Valuation(s.clockVars, c.clocks), Valuation(s.clockVars, Delay(net, c, d).clocks);
      w[i] == if RunsAt(net, s, i) then v[i] + d else v[i]
  {
    LayoutFacts(net, s.marking);
    assert s.clockVars[i] in s.clockVars;
    assert Delay(net, c, d).clocks.Keys == c.clocks.Keys;
  }

  /** Soundness of time elapse: every delay the semantics allows stays inside. */
  lemma DelayInElapse(net: Net, s: StateClass, c: Config, d: int)
    requires GoodClass(net, s) && InZone(net, s, c) && CanDelay(net, c, d)
    ensures InZone(net, Elapse(net, s), Delay(net, c, d))
  {
    LayoutFacts(net, s.marking);
    var v, w := Valuation(s.clockVars, c.clocks), Valuation(s.clockVars, Delay(net, c, d).clocks);
    var r := RelaxedZone(net, s);
    forall i: nat, j: nat | i < |r| && j < |r|
      ensures Holds(r, w, i, j)
    {
      DelayValuation(net, s, c, d, i);
      DelayValuation(net, s, c, d, j);
      assert Holds(s.zone, v, i, j);
      if j == 0 && s.clockVars[i].Execution? && Active(net, s.marking, s.clockVars[i].transition) {
        assert s.clockVars[i] in Clocks(net, s.marking);
      }
    }
    assert Sat(r, w);
  }

  /** No execution clock is frozen under this marking. */
  ghost predicate NothingFrozen(net: Net, m: Marking) {
    forall t: nat :: Enabled(net, m, t) ==> Active(net, m, t)
  }

  /** The largest delay that the upper bounds of the entry zone demand. */
  lemma DelayNeeded(z: Matrix, w: seq<int>) returns (d: int, at: nat)
    requires |w| == |z| > 0
    ensures d >= 0 && at < |z|
    ensures at == 0 ==> d == 0
    ensures at > 0 ==> z[at][0].Fin? && d == w[at] - z[at][0].v
    ensures forall i: nat :: 0 < i < |z| && z[i][0].Fin? ==> w[i] - z[i][0].v <= d
  {
    d, at := 0, 0;
    var i: nat := 1;
    while i < |z|
      invariant 1 <= i <= |z| && at < |z| && d >= 0
      invariant at == 0 ==> d == 0
      invariant at > 0 ==> z[at][0].Fin? && d == w[at] - z[at][0].v
      invariant forall j: nat :: 0 < j < i && z[j][0].Fin? ==> w[j] - z[j][0].v <= d
    {
      if z[i][0].Fin? && w[i] - z[i][0].v > d {
        d, at := w[i] - z[i][0].v, i;
      }
      i := i + 1;
    }
  }

  /** If r only relaxes the upper bounds of z, its solutions are solutions of z
      after a common delay of all clocks. */
  lemma UndoDelay(z: Matrix, r: Matrix, w: seq<int>) returns (v: seq<int>, d: int)
    requires Canonical(z) && |r| == |z| > 0 && Sat(r, w) && w[0] == 0
    requires forall i: nat, j: nat :: i < |z| && j < |z| && (j > 0 || i == 0) ==> Le(r[i][j], z[i][j])
    ensures d >= 0 && Sat(z, v) && v[0] == 0
    ensures forall i :: 0 < i < |z| ==> w[i] == v[i] + d
  {
    var at;
    d, at := DelayNeeded(z, w);
    v := seq(|z|, i requires 0 <= i < |z| => if i == 0 then 0 else w[i] - d);
    forall i: nat, j: nat | i < |z| && j < |z|
      ensures Holds(z, v, i, j)
    {
      assert Holds(r, w, i, j) && Holds(r, w, at, j) && Triangle(z, at, 0, j);
    }
  }

  /** However long the clocks of the class run, variables i and j differ by b at
      most. */
  ghost predicate Spreads(net: Net, s: StateClass, i: nat, j: nat, b: int)
    requires i < |s.clockVars| && j < |s.clockVars|
  {
    forall c: Config, d: nat :: InZone(net, s, c) ==> DiffersBy(net, s, c, d, i, j, b)
  }

  ghost predicate DiffersBy(net: Net, s: StateClass, c: Config, d: nat, i: nat, j: nat, b: int)
    requires ValidConfig(net, c) && i < |s.clockVars| && j < |s.clockVars|
  {
    var v := Valuation(s.clockVars, Delay(net, c, d).clocks);
    v[i] - v[j] <= b
  }

  /** No active transition is late. */
  ghost predicate NoneLate(net: Net, c: Config) {
    forall t: nat :: Active(net, c.marking, t) && Execution(t) in c.clocks ==>
      Within(c.clocks[Execution(t)], Latest(net, t))
  }

  /** What elapsing gives, frozen clocks or not: cut at the latest bounds of the
      active transitions, the least zone that contains all delayed configurations. */
  lemma ElapseTightest(net: Net, s: StateClass, w: Config)
    requires GoodClass(net, s) && ValidConfig(net, w) && w.marking == s.marking
    ensures InZone(net, Elapse(net, s), w) <==>
      && NoneLate(net, w)
      && forall i: nat, j: nat, b: int :: i < |s.clockVars| && j < |s.clockVars| && Spreads(net, s, i, j, b) ==>
           Valuation(s.clockVars, w.clocks)[i] - Valuation(s.clockVars, w.clocks)[j] <= b
  {
    var v, r := Valuation(s.clockVars, w.clocks), RelaxedZone(net, s);
    RelaxedFacts(net, s);
    assert InZone(net, Elapse(net, s), w) <==> Sat(r, v);
    if Sat(r, v) {
      RelaxedOnTime(net, s, w);
      forall i: nat, j: nat, b: int | i < |s.clockVars| && j < |s.clockVars| && Spreads(net, s, i, j, b)
        ensures v[i] - v[j] <= b
      {
        assert Holds(r, v, i, j);
        SpreadAtLeast(net, s, i, j, b);
      }
    }
    if NoneLate(net, w) && forall i: nat, j: nat, b: int ::
      i < |s.clockVars| && j < |s.clockVars| && Spreads(net, s, i, j, b) ==> v[i] - v[j] <= b
    {
      forall i: nat, j: nat | i < |r| && j < |r|
        ensures Holds(r, v, i, j)
      {
        if s.zone[i][j].Fin? && !(RunsAt(net, s, i) && !RunsAt(net, s, j)) {
          SpreadAtMost(net, s, i, j, s.zone[i][j].v);
        }
        CapHolds(net, s, w, i);
      }
    }
  }

  lemma CapHolds(net: Net, s: StateClass, w: Config, i: nat)
    requires GoodClass(net, s) && ValidConfig(net, w) && w.marking == s.marking && NoneLate(net, w)
    requires i < |s.clockVars|
    ensures s.clockVars[i].Execution? && Active(net, s.marking, s.clockVars[i].transition) ==>
      Within(Valuation(s.clockVars, w.clocks)[i], Latest(net, s.clockVars[i].transition))
    ensures Valuation(s.clockVars, w.clocks)[0] == 0
  {
    LayoutFacts(net, s.marking);
    assert s.clockVars[i] in s.clockVars;
  }

  lemma RelaxedOnTime(net: Net, s: StateClass, w: Config)
    requires GoodClass(net, s) && ValidConfig(net, w) && w.marking == s.marking
    requires Sat(RelaxedZone(net, s), Valuation(s.clockVars, w.clocks))
    ensures NoneLate(net, w)
  {
    forall t: nat | Active(net, w.marking, t) && Execution(t) in w.clocks
      ensures Within(w.clocks[Execution(t)], Latest(net, t))
    {
      RowValue(net, s, w, t);
      assert Holds(RelaxedZone(net, s), Valuation(s.clockVars, w.clocks), Row(net, s, t), 0);
    }
  }

  /** The bounds of the entry zone hold however long the clocks run, except those
      of a running clock against a stationary one. */
  lemma SpreadAtMost(net: Net, s: StateClass, i: nat, j: nat, b: int)
    requires GoodClass(net, s) && i < |s.zone| && j < |s.zone| && s.zone[i][j] == Fin(b)
    requires !(RunsAt(net, s, i) && !RunsAt(net, s, j))
    ensures Spreads(net, s, i, j, b)
  {
    forall c: Config, d: nat | InZone(net, s, c)
      ensures DiffersBy(net, s, c, d, i, j, b)
    {
      DelayValuation(net, s, c, d, i);
      DelayValuation(net, s, c, d, j);
      assert Holds(s.zone, Valuation(s.clockVars, c.clocks), i, j);
    }
  }

  /** No smaller bound holds, and none at all for those. */
  lemma SpreadAtLeast(net: Net, s: StateClass, i: nat, j: nat, b: int)
    requires GoodClass(net, s) && i < |s.zone| && j < |s.zone| && Spreads(net, s, i, j, b)
    ensures !(RunsAt(net, s, i) && !RunsAt(net, s, j)) && s.zone[i][j].Fin? && s.zone[i][j].v <= b
  {
    LayoutFacts(net, s.marking);
    var z := s.zone;
    var floor := if z[j][i].Fin? then -z[j][i].v else 0;
    if RunsAt(net, s, i) && !RunsAt(net, s, j) {
      var c := GoodClassInhabited(net, s);
      var v := Valuation(s.clockVars, c.clocks);
      var d := Max(0, b + 1 - v[i] + v[j]);
      assert DiffersBy(net, s, c, d, i, j, b);
      DelayValuation(net, s, c, d, i);
      DelayValuation(net, s, c, d, j);
      assert false;
    } else {
      assert Triangle(z, i, j, i) && Triangle(z, j, i, j) && z[i][i] == Fin(0);
      var x := if z[i][j].Fin? then z[i][j].v else Max(b + 1, floor);
      var c := DifferenceShown(net, s, i, j, x);
      DelayValuation(net, s, c, 0, i);
      DelayValuation(net, s, c, 0, j);
      assert DiffersBy(net, s, c, 0, i, j, b);
    }
  }

  lemma DifferenceShown(net: Net, s: StateClass, i: nat, j: nat, x: int) returns (c: Config)
    requires GoodClass(net, s) && i < |s.zone| && j < |s.zone| && Within(x, s.zone[i][j]) && Within(-x, s.zone[j][i])
    requires i == j ==> x == 0
    ensures InZone(net, s, c)
    ensures Valuation(s.clockVars, c.clocks)[i] - Valuation(s.clockVars, c.clocks)[j] == x
  {
    if i == j {
      c := GoodClassInhabited(net, s);
    } else {
      var v := Realize(s.zone, i, j, x);
      ConfigOfValuation(net, s, v);
      c := ConfigOf(net, s, v);
    }
  }

  /** Exactness of time elapse when every clock runs. */
  lemma ElapseExact(net: Net, s: StateClass, late: Config) returns (c: Config, d: int)
    requires GoodClass(net, s) && NothingFrozen(net, s.marking)
    requires InZone(net, Elapse(net, s), late)
    ensures InZone(net, s, c) && CanDelay(net, c, d) && Delay(net, c, d) == late
  {
    LayoutFacts(net, s.marking);
    var w := Valuation(s.clockVars, late.clocks);
    var v;
    v, d := ElapseExactValues(net, s, w);
    ConfigOfValuation(net, s, v);
    c := ConfigOf(net, s, v);
    DelayedBack(net, s, c, d, late);
    ElapseAllows(net, s, c, d, w);
  }

  /** A configuration is the delayed one if its valuation is. */
  lemma DelayedBack(net: Net, s: StateClass, c: Config, d: int, late: Config)
    requires IsClass(net, s) && ValidConfig(net, c) && ValidConfig(net, late) && c.marking == late.marking == s.marking
    requires |s.zone| == |s.clockVars|
    requires forall i: nat :: i < |s.clockVars| ==>
      Valuation(s.clockVars, late.clocks)[i]
        == (var x := Valuation(s.clockVars, c.clocks)[i]; if RunsAt(net, s, i) then x + d else x)
    ensures Delay(net, c, d) == late
  {
    var w, again := Valuation(s.clockVars, late.clocks), Delay(net, c, d);
    forall i: nat | i < |w|
      ensures Valuation(s.clockVars, again.clocks)[i] == w[i]
    {
      DelayValuation(net, s, c, d, i);
    }
    assert Valuation(s.clockVars, again.clocks) == w;
    ConfigsAgree(net, s, again, late);
  }

  /** A delay whose outcome lies in the elapsed class is allowed. */
  lemma ElapseAllows(net: Net, s: StateClass, c: Config, d: int, w: seq<int>)
    requires GoodClass(net, s) && ValidConfig(net, c) && c.marking == s.marking && d >= 0
    requires Sat(Elapse(net, s).zone, w) && w[0] == 0
    requires forall i: nat :: i < |w| ==>
      w[i] == (var x := Valuation(s.clockVars, c.clocks)[i]; if RunsAt(net, s, i) then x + d else x)
    ensures CanDelay(net, c, d)
  {
    forall t: nat | Active(net, s.marking, t)
      ensures Within(c.clocks[Execution(t)] + d, Latest(net, t))
    {
      ElapseCaps(net, s, w, t);
      RowValue(net, s, c, t);
    }
  }

  lemma ElapseExactValues(net: Net, s: StateClass, w: seq<int>) returns (v: seq<int>, d: int)
    requires GoodClass(net, s) && NothingFrozen(net, s.marking)
    requires Sat(Elapse(net, s).zone, w) && w[0] == 0
    ensures d >= 0 && Sat(s.zone, v) && v[0] == 0
    ensures forall i: nat :: i < |s.zone| ==> w[i] == if RunsAt(net, s, i) then v[i] + d else v[i]
  {
    LayoutFacts(net, s.marking);
    forall i: nat | 0 < i < |s.zone|
      ensures RunsAt(net, s, i)
    {
      assert s.clockVars[i] in s.clockVars;
    }
    assert Sat(RelaxedZone(net, s), w);
    v, d := UndoDelay(s.zone, RelaxedZone(net, s), w);
  }

  lemma ElapseCaps(net: Net, s: StateClass, w: seq<int>, t: nat)
    requires GoodClass(net, s) && Active(net, s.marking, t) && Sat(Elapse(net, s).zone, w)
    ensures Within(w[Row(net, s, t)] - w[0], Latest(net, t))
  {
    assert Sat(RelaxedZone(net, s), w);
    assert Holds(RelaxedZone(net, s), w, Row(net, s, t), 0);
  }

  // --------------------------------------------------------------------- firing

  /** t may fire: the largest feasible value of its clock reaches its earliest
      bound. */
  ghost predicate IsFirable(net: Net, e: StateClass, t: nat)
    requires IsClass(net, e)
  {
    Active(net, e.marking, t) && Within(Earliest(net, t), e.zone[Row(net, e, t)][0])
  }

  /** The zone cut to x_row >= low. */
  ghost function Fired(z: Matrix, row: nat, low: int): (r: Matrix)
    requires 0 < row < |z|
    ensures |r| == |z|
  {
    TightenMatrix(z, 0, row, -low)
  }

  /** Where each variable of the new layout comes from; 0 for fresh clocks. */
  ghost function SourceMap(vars: seq<ClockVar>, source: seq<ClockVar>, t: nat): (sigma: seq<nat>)
    requires |source| > 0
    ensures |sigma| == |vars| && IndicesInto(sigma, |source|)
    ensures forall i {:trigger sigma[i]} :: 0 <= i < |vars| ==>
      sigma[i] == if !vars[i].Zero? && vars[i].transition != t && vars[i] in source then IndexOf(source, vars[i]) else 0
  {
    seq(|vars|, i requires 0 <= i < |vars| =>
      if !vars[i].Zero? && vars[i].transition != t && vars[i] in source then IndexOf(source, vars[i]) else 0)
  }

  ghost function Successor(net: Net, e: StateClass, t: nat): (r: StateClass)
    requires ValidNet(net) && IsClass(net, e) && Enabled(net, e.marking, t)
    ensures IsClass(net, r) && r.marking == FireMarking(net, e.marking, t)
  {
    FireMarkingValid(net, e.marking, t);
    LayoutFacts(net, e.marking);
    var m := FireMarking(net, e.marking, t);
    MakeClass(net, m, Reindex(Fired(e.zone, Row(net, e, t), Earliest(net, t)),
      SourceMap(Layout(net, m), e.clockVars, t)))
  }

  lemma FiredCanonical(z: Matrix, row: nat, low: int)
    requires Canonical(z) && 0 < row < |z| && Within(low, z[row][0])
    ensures Canonical(Fired(z, row, low)) && Tighter(Fired(z, row, low), z)
  {
    var r := TightenMatrix(z, 0, row, -low);
    TightenClosed(z, 0, row, -low);
    var canonical, tighter := Canonical(r), Tighter(r, z);
    assert canonical && tighter && r == Fired(z, row, low);
  }

  lemma SuccessorClock(net: Net, e: StateClass, f: Matrix, t: nat, s: StateClass, i: nat)
    requires ValidNet(net) && IsClass(net, e) && IsClass(net, s) && i < |s.zone|
    requires Tighter(f, e.zone) && f[0][0] == Fin(0)
    requires
      var sigma := SourceMap(s.clockVars, e.clockVars, t);
      s.zone == Reindex(f, sigma) && ClockBounds(net, e, sigma[i])
    ensures ClockBounds(net, s, i)
  {
    LayoutFacts(net, s.marking);
    LayoutFacts(net, e.marking);
    var source := SourceMap(s.clockVars, e.clockVars, t)[i];
    assert Le(f[0][source], e.zone[0][source]) && Le(f[source][0], e.zone[source][0]);
    if s.clockVars[i].Execution? {
      assert s.clockVars[i] in s.clockVars;
      assert net.transitions[s.clockVars[i].transition].interval.Valid();
    }
  }

  lemma SuccessorGood(net: Net, e: StateClass, t: nat)
    requires ValidNet(net) && GoodClass(net, e) && IsFirable(net, e, t)
    ensures GoodClass(net, Successor(net, e, t))
  {
    var s := Successor(net, e, t);
    var f, sigma := Fired(e.zone, Row(net, e, t), Earliest(net, t)), SourceMap(s.clockVars, e.clockVars, t);
    LayoutFacts(net, e.marking);
    LayoutFacts(net, s.marking);
    FiredCanonical(e.zone, Row(net, e, t), Earliest(net, t));
    assert s.zone == Reindex(f, sigma);
    ReindexCanonical(f, sigma);
    forall i: nat | i < |s.zone|
      ensures ClockBounds(net, s, i)
    {
      assert ClockBounds(net, e, sigma[i]);
      SuccessorClock(net, e, f, t, s, i);
    }
    assert Canonical(s.zone);
    assert GoodClass(net, s);
  }

  lemma FireValuation(net: Net, e: StateClass, c: Config, t: nat)
    requires ValidNet(net) && IsClass(net, e) && ValidConfig(net, c) && c.marking == e.marking && CanFire(net, c, t)
    ensures
      var s := Successor(net, e, t);
      var sigma := SourceMap(s.clockVars, e.clockVars, t);
      && IndicesInto(sigma, |e.clockVars|)
      && Pick(Valuation(e.clockVars, c.clocks), sigma) == Valuation(s.clockVars, FireConfig(net, c, t).clocks)
  {
    var s, next := Successor(net, e, t), FireConfig(net, c, t);
    var sigma := SourceMap(s.clockVars, e.clockVars, t);
    var v := Valuation(e.clockVars, c.clocks);
    LayoutFacts(net, e.marking);
    LayoutFacts(net, s.marking);
    forall i | 0 <= i < |sigma|
      ensures Pick(v, sigma)[i] == Valuation(s.clockVars, next.clocks)[i]
    {
      var x := s.clockVars[i];
      assert x in s.clockVars;
      if !x.Zero? {
        assert x in Clocks(net, s.marking);
        assert x in e.clockVars <==> x in Clocks(net, e.marking);
      }
    }
  }

  lemma TightenedPick(z: Matrix, row: nat, low: int, sigma: seq<nat>, v: seq<int>)
    requires Canonical(z) && 0 < row < |z| && IndicesInto(sigma, |z|)
    requires Sat(z, v) && low <= v[row] - v[0]
    ensures Within(low, z[row][0])
    ensures Sat(Reindex(Fired(z, row, low), sigma), Pick(v, sigma))
  {
    assert Holds(z, v, row, 0);
    TightenSat(z, 0, row, -low, v);
    PickSat(TightenMatrix(z, 0, row, -low), sigma, v);
  }

  lemma TightenedUnpick(z: Matrix, row: nat, low: int, sigma: seq<nat>, w: seq<int>) returns (v: seq<int>)
    requires Canonical(z) && 0 < row < |z| && IndicesInto(sigma, |z|) && Within(low, z[row][0])
    requires Sat(Reindex(Fired(z, row, low), sigma), w)
    ensures Sat(z, v) && low <= v[row] - v[0] && Pick(v, sigma) == w
  {
    TightenClosed(z, 0, row, -low);
    v := ReindexExact(TightenMatrix(z, 0, row, -low), sigma, w);
    TightenSat(z, 0, row, -low, v);
  }

  lemma FiredValues(net: Net, e: StateClass, t: nat, v: seq<int>)
    requires ValidNet(net) && IsClass(net, e) && Canonical(e.zone) && Enabled(net, e.marking, t)
    requires Sat(e.zone, v) && Earliest(net, t) <= v[Row(net, e, t)] - v[0]
    ensures Within(Earliest(net, t), e.zone[Row(net, e, t)][0])
    ensures
      var s := Successor(net, e, t);
      var sigma := SourceMap(s.clockVars, e.clockVars, t);
      IndicesInto(sigma, |e.clockVars|) && Sat(s.zone, Pick(v, sigma))
  {
    var s, row := Successor(net, e, t), Row(net, e, t);
    var sigma := SourceMap(s.clockVars, e.clockVars, t);
    TightenedPick(e.zone, row, Earliest(net, t), sigma, v);
    assert s.zone == Reindex(Fired(e.zone, row, Earliest(net, t)), sigma);
    assert Sat(s.zone, Pick(v, sigma));
  }

  /** Soundness of firing: whatever the semantics can fire is firable, and lands
      in the successor class. */
  lemma FireInSuccessor(net: Net, e: StateClass, c: Config, t: nat)
    requires ValidNet(net) && GoodClass(net, e) && InZone(net, e, c) && CanFire(net, c, t)
    ensures IsFirable(net, e, t) && InZone(net, Successor(net, e, t), FireConfig(net, c, t))
  {
    RowValue(net, e, c, t);
    FireValuation(net, e, c, t);
    FiredValues(net, e, t, Valuation(e.clockVars, c.clocks));
    var s, next := Successor(net, e, t), FireConfig(net, c, t);
    assert Sat(s.zone, Valuation(s.clockVars, next.clocks));
    assert InZone(net, s, next);
  }

  /** Exactness of firing: every configuration of the successor class is the
      result of firing t in some configuration of the source. */
  lemma FireExact(net: Net, e: StateClass, t: nat, next: Config) returns (c: Config)
    requires ValidNet(net) && GoodClass(net, e) && IsFirable(net, e, t)
    requires InZone(net, Successor(net, e, t), next)
    ensures InZone(net, e, c) && CanFire(net, c, t) && FireConfig(net, c, t) == next
  {
    var s := Successor(net, e, t);
    LayoutFacts(net, s.marking);
    var w := Valuation(s.clockVars, next.clocks);
    var v := FireExactValues(net, e, t, w);
    ConfigOfValuation(net, e, v);
    c := ConfigOf(net, e, v);
    assert InZone(net, e, c);
    RowValue(net, e, c, t);
    assert CanFire(net, c, t);
    FireValuation(net, e, c, t);
    var again := FireConfig(net, c, t);
    assert Valuation(s.clockVars, again.clocks) == w;
    ConfigsAgree(net, s, again, next);
  }

  lemma FireExactValues(net: Net, e: StateClass, t: nat, w: seq<int>) returns (v: seq<int>)
    requires ValidNet(net) && GoodClass(net, e) && IsFirable(net, e, t)
    requires Sat(Successor(net, e, t).zone, w) && w[0] == 0
    ensures Sat(e.zone, v) && v[0] == 0
    ensures Earliest(net, t) <= v[Row(net, e, t)] && Within(v[Row(net, e, t)], Latest(net, t))
    ensures
      var sigma := SourceMap(Successor(net, e, t).clockVars, e.clockVars, t);
      IndicesInto(sigma, |e.zone|) && Pick(v, sigma) == w
  {
    var s, row := Successor(net, e, t), Row(net, e, t);
    LayoutFacts(net, e.marking);
    LayoutFacts(net, s.marking);
    var sigma := SourceMap(s.clockVars, e.clockVars, t);
    assert s.zone == Reindex(Fired(e.zone, row, Earliest(net, t)), sigma);
    v := TightenedUnpick(e.zone, row, Earliest(net, t), sigma, w);
    assert Pick(v, sigma)[0] == v[sigma[0]];
    assert Holds(e.zone, v, row, 0) && ClockBounds(net, e, row);
  }

  // ------------------------------------------------------------------ timelocks

  /** How long t may still run; Inf when it has no deadline. */
  ghost function Room(net: Net, c: Config, t: nat): Bound
    requires ValidConfig(net, c)
  {
    if Active(net, c.marking, t) && Latest(net, t).Fin? then Fin(Latest(net, t).v - c.clocks[Execution(t)]) else Inf
  }

  lemma {:induction false} FirstDeadline(net: Net, c: Config, n: nat) returns (first: nat)
    requires ValidConfig(net, c) && n > 0
    ensures first < n && forall t: nat :: t < n ==> Le(Room(net, c, first), Room(net, c, t))
  {
    first := 0;
    if n > 1 {
      first := FirstDeadline(net, c, n - 1);
      if Lt(Room(net, c, n - 1), Room(net, c, first)) {
        first := n - 1;
      }
    }
  }

  /** Waiting for the first deadline, or for the earliest bound without one, is
      allowed. */
  lemma CanWait(net: Net, c: Config, first: nat, d: int)
    requires ValidConfig(net, c) && first < |net.transitions| && d >= 0
    requires forall t: nat :: t < |net.transitions| ==> Le(Room(net, c, first), Room(net, c, t))
    requires Room(net, c, first).Fin? ==> d <= Room(net, c, first).v
    ensures CanDelay(net, c, d)
  {
    forall t: nat | Active(net, c.marking, t)
      ensures Within(c.clocks[Execution(t)] + d, Latest(net, t))
    {
      assert Le(Room(net, c, first), Room(net, c, t));
    }
  }

  /** Some active transition reaches its earliest bound in time. */
  lemma FirstToFire(net: Net, s: StateClass, c: Config, t: nat) returns (u: nat, d: int)
    requires ValidNet(net) && GoodClass(net, s) && InZone(net, s, c) && Enabled(net, s.marking, t)
    ensures Active(net, s.marking, u) && CanDelay(net, c, d) && Earliest(net, u) <= c.clocks[Execution(u)] + d
  {
    var first := FirstDeadline(net, c, |net.transitions|);
    if Room(net, c, first).Fin? {
      u, d := first, Room(net, c, first).v;
      var row := Row(net, s, u);
      RowValue(net, s, c, u);
      assert Holds(s.zone, Valuation(s.clockVars, c.clocks), row, 0);
      assert ClockBounds(net, s, row);
      assert net.transitions[u].interval.Valid();
    } else {
      u := SomeActive(net, s.marking, t);
      d := Max(0, Earliest(net, u) - c.clocks[Execution(u)]);
    }
    CanWait(net, c, first, d);
  }

  /** Time never gets stuck: if anything is enabled, some active transition is
      firable after time elapse. */
  lemma NoTimelock(net: Net, s: StateClass, t: nat) returns (u: nat)
    requires ValidNet(net) && GoodClass(net, s) && Enabled(net, s.marking, t)
    ensures IsFirable(net, Elapse(net, s), u)
  {
    var c := GoodClassInhabited(net, s);
    var d;
    u, d := FirstToFire(net, s, c, t);
    DelayInElapse(net, s, c, d);
    var e, late := Elapse(net, s), Delay(net, c, d);
    ElapseGood(net, s);
    assert Runs(net, s.marking, Execution(u)) && Execution(u) in Clocks(net, s.marking);
    RowValue(net, e, late, u);
    assert Holds(e.zone, Valuation(e.clockVars, late.clocks), Row(net, e, u), 0);
  }

  // -------------------------------------------------------------- extrapolation

  /** k is at least every finite endpoint of a static interval. */
  ghost predicate CoversNet(net: Net, k: int) {
    k >= 0 && forall t: nat :: t < |net.transitions| ==>
      Earliest(net, t) <= k && (Latest(net, t).Fin? ==> Latest(net, t).v <= k)
  }

  datatype Extrapolation = Off | UpTo(k: int)

  ghost predicate ValidExtrapolation(net: Net, x: Extrapolation) {
    x.UpTo? ==> CoversNet(net, x.k)
  }

  ghost function Extrapolated(net: Net, x: Extrapolation, s: StateClass): (r: StateClass)
    requires IsClass(net, s)
    ensures IsClass(net, r) && r.marking == s.marking
  {
    match x
    case Off => s
    case UpTo(k) => MakeClass(net, s.marking, ExtrapolateMatrix(s.zone, k, {}))
  }

  /** Extrapolation keeps the class invariant and loses no configuration. */
  lemma ExtrapolatedGood(net: Net, x: Extrapolation, s: StateClass)
    requires ValidNet(net) && GoodClass(net, s) && ValidExtrapolation(net, x)
    ensures GoodClass(net, Extrapolated(net, x, s))
    ensures forall c :: InZone(net, s, c) ==> InZone(net, Extrapolated(net, x, s), c)
  {
    if x.UpTo? {
      hide GoodClass, InZone, ClockBounds;
      UpToGood(net, x.k, s);
      forall c | InZone(net, s, c)
        ensures InZone(net, Extrapolated(net, x, s), c)
      {
        UpToKeeps(net, x.k, s, c);
      }
    }
  }

  lemma UpToGood(net: Net, k: int, s: StateClass)
    requires ValidNet(net) && GoodClass(net, s) && CoversNet(net, k)
    ensures GoodClass(net, Extrapolated(net, UpTo(k), s))
  {
    var r := Extrapolated(net, UpTo(k), s);
    LayoutFacts(net, s.marking);
    ExtrapolateCorrect(s.zone, k, {});
    forall i: nat | i < |r.zone|
      ensures ClockBounds(net, r, i)
    {
      assert ClockBounds(net, s, i);
      if s.clockVars[i].Execution? {
        assert net.transitions[s.clockVars[i].transition].interval.Valid();
      }
    }
  }

  lemma UpToKeeps(net: Net, k: int, s: StateClass, c: Config)
    requires ValidNet(net) && GoodClass(net, s) && k >= 0 && InZone(net, s, c)
    ensures InZone(net, Extrapolated(net, UpTo(k), s), c)
  {
    ExtrapolateCorrect(s.zone, k, {});
    TighterSat(s.zone, Extrapolated(net, UpTo(k), s).zone, Valuation(s.clockVars, c.clocks));
  }

  // ------------------------------------------------------ the whole step, edges

  ghost function InitialClass(net: Net): (s: StateClass)
    requires ValidNet(net)
    ensures IsClass(net, s) && s.marking == net.initial
  {
    LayoutFacts(net, net.initial);
    MakeClass(net, net.initial, ZeroMatrix(|Layout(net, net.initial)|))
  }

  /** All variables equal. */
  function ZeroMatrix(n: nat): (r: Matrix)
    ensures |r| == n && forall i: nat, j: nat {:trigger r[i][j]} :: i < n && j < n ==> r[i][j] == Fin(0)
  {
    seq(n, i requires 0 <= i < n => seq(n, j requires 0 <= j < n => Fin(0)))
  }

  lemma InitialClassGood(net: Net)
    requires ValidNet(net)
    ensures GoodClass(net, InitialClass(net))
  {
    var s := InitialClass(net);
    LayoutFacts(net, s.marking);
    forall i: nat | i < |s.zone|
      ensures ClockBounds(net, s, i)
    {
      if s.clockVars[i].Execution? {
        assert s.clockVars[i] in s.clockVars;
        assert net.transitions[s.clockVars[i].transition].interval.Valid();
      }
    }
  }

  /** Solutions of a zero zone have all variables equal. */
  lemma ZeroSat(n: nat, v: seq<int>)
    requires |v| == n
    ensures Sat(ZeroMatrix(n), v) <==> forall i, j :: 0 <= i < n && 0 <= j < n ==> v[i] == v[j]
  {
    var z := ZeroMatrix(n);
    if Sat(z, v) {
      forall i: nat, j: nat | i < n && j < n
        ensures v[i] == v[j]
      {
        assert Holds(z, v, i, j) && Holds(z, v, j, i);
      }
    }
  }

  /** The initial class stands for the initial configuration alone. */
  lemma InitialClassExact(net: Net, c: Config)
    requires ValidNet(net)
    ensures InZone(net, InitialClass(net), c) <==> c == InitialConfig(net)
  {
    var s, zero := InitialClass(net), InitialConfig(net);
    LayoutFacts(net, s.marking);
    var o := Valuation(s.clockVars, zero.clocks);
    assert forall i :: 0 <= i < |o| ==> o[i] == 0;
    ZeroSat(|o|, o);
    if InZone(net, s, c) {
      var v := Valuation(s.clockVars, c.clocks);
      ZeroSat(|v|, v);
      assert forall i :: 0 <= i < |v| ==> v[i] == v[0];
      assert v == o;
      ConfigsAgree(net, s, c, zero);
    }
  }

  /** The class that the analyser computes for firing t out of s. */
  ghost function Post(net: Net, x: Extrapolation, s: StateClass, t: nat): (r: StateClass)
    requires ValidNet(net) && IsClass(net, s) && Enabled(net, s.marking, t)
    ensures IsClass(net, r) && r.marking == FireMarking(net, s.marking, t)
  {
    Extrapolated(net, x, Successor(net, Elapse(net, s), t))
  }

  lemma PostGood(net: Net, x: Extrapolation, s: StateClass, t: nat)
    requires ValidNet(net) && GoodClass(net, s) && ValidExtrapolation(net, x) && IsFirable(net, Elapse(net, s), t)
    ensures GoodClass(net, Post(net, x, s, t))
  {
    ElapseGood(net, s);
    SuccessorGood(net, Elapse(net, s), t);
    ExtrapolatedGood(net, x, Successor(net, Elapse(net, s), t));
  }

  /** Firing from the elapsed class stays inside the class computed for that firing. */
  lemma FireInPost(net: Net, x: Extrapolation, s: StateClass, late: Config, t: nat)
    requires ValidNet(net) && GoodClass(net, s) && ValidExtrapolation(net, x)
    requires InZone(net, Elapse(net, s), late) && CanFire(net, late, t)
    ensures IsFirable(net, Elapse(net, s), t)
    ensures InZone(net, Post(net, x, s, t), FireConfig(net, late, t))
  {
    var e := Elapse(net, s);
    ElapseGood(net, s);
    FireInSuccessor(net, e, late, t);
    SuccessorGood(net, e, t);
    ExtrapolatedGood(net, x, Successor(net, e, t));
  }

  /** The simulation step: a delay followed by a firing stays inside the class
      computed for that firing. */
  lemma StepInPost(net: Net, x: Extrapolation, s: StateClass, c: Config, step: Step)
    requires ValidNet(net) && GoodClass(net, s) && ValidExtrapolation(net, x)
    requires InZone(net, s, c) && CanStep(net, c, step)
    ensures IsFirable(net, Elapse(net, s), step.transition)
    ensures InZone(net, Post(net, x, s, step.transition), DoStep(net, c, step))
  {
    DelayInElapse(net, s, c, step.delay);
    FireInPost(net, x, s, Delay(net, c, step.delay), step.transition);
  }

  /** The converse, when nothing is frozen and nothing is extrapolated. */
  lemma PostExact(net: Net, s: StateClass, t: nat, next: Config) returns (c: Config, step: Step)
    requires ValidNet(net) && GoodClass(net, s) && NothingFrozen(net, s.marking)
    requires IsFirable(net, Elapse(net, s), t) && InZone(net, Post(net, Off, s, t), next)
    ensures InZone(net, s, c) && CanStep(net, c, step) && DoStep(net, c, step) == next && step.transition == t
  {
    ElapseGood(net, s);
    var late := FireExact(net, Elapse(net, s), t, next);
    var d;
    c, d := ElapseExact(net, s, late);
    step := Step(d, t);
  }

  datatype FiringEdge = FiringEdge(transition: nat, firingMin: int, firingMax: Bound, dwellMin: int, dwellMax: Bound)

  function LowerOf(b: Bound): int {
    if b.Fin? then -b.v else 0
  }

  /** The firing window of h_t and the dwell window of the source class. */
  ghost function EdgeOf(net: Net, s: StateClass, t: nat): FiringEdge
    requires IsClass(net, s) && Enabled(net, s.marking, t)
  {
    var e, row := Elapse(net, s), Row(net, s, t);
    var fireMin := Max(Max(0, Earliest(net, t)), LowerOf(e.zone[0][row]));
    var fireMax := Min(e.zone[row][0], Latest(net, t));
    var dwellMin := if s.zone[row][0].Inf? then 0 else Max(0, fireMin - s.zone[row][0].v);
    var dwellMax := if fireMax.Inf? then Inf else Fin(Max(0, fireMax.v - LowerOf(s.zone[0][row])));
    FiringEdge(t, fireMin, fireMax, dwellMin, dwellMax)
  }

  /** The values that the clock of t shows in the configurations of a class. */
  ghost predicate ShowsIn(net: Net, s: StateClass, t: nat, x: int) {
    exists c :: InZone(net, s, c) && Execution(t) in c.clocks && c.clocks[Execution(t)] == x
  }

  /** The values at which t can fire from the configurations of a class. */
  ghost predicate FiresAt(net: Net, e: StateClass, t: nat, x: int) {
    exists c :: InZone(net, e, c) && CanFire(net, c, t) && Execution(t) in c.clocks && c.clocks[Execution(t)] == x
  }

  /** They are the integers between the two entries of its row. */
  lemma ShownValues(net: Net, s: StateClass, t: nat, x: int)
    requires GoodClass(net, s) && Enabled(net, s.marking, t)
    ensures ShowsIn(net, s, t, x) <==> Within(-x, s.zone[0][Row(net, s, t)]) && Within(x, s.zone[Row(net, s, t)][0])
  {
    var row := Row(net, s, t);
    if ShowsIn(net, s, t, x) {
      var c :| InZone(net, s, c) && Execution(t) in c.clocks && c.clocks[Execution(t)] == x;
      RowValue(net, s, c, t);
      var v := Valuation(s.clockVars, c.clocks);
      assert Holds(s.zone, v, 0, row) && Holds(s.zone, v, row, 0);
    } else if Within(-x, s.zone[0][row]) && Within(x, s.zone[row][0]) {
      var c := ClockShows(net, s, t, x);
      assert ShowsIn(net, s, t, x);
    }
  }

  lemma ClockShows(net: Net, s: StateClass, t: nat, x: int) returns (c: Config)
    requires GoodClass(net, s) && Enabled(net, s.marking, t)
    requires Within(-x, s.zone[0][Row(net, s, t)]) && Within(x, s.zone[Row(net, s, t)][0])
    ensures InZone(net, s, c) && Execution(t) in c.clocks && c.clocks[Execution(t)] == x
  {
    var row := Row(net, s, t);
    var v := Realize(s.zone, row, 0, x);
    ConfigOfValuation(net, s, v);
    c := ConfigOf(net, s, v);
    RowValue(net, s, c, t);
    assert Execution(t) in Clocks(net, s.marking);
  }

  /** The firing window is exact: t fires at precisely the integers in it. */
  lemma FiringExact(net: Net, s: StateClass, t: nat, x: int)
    requires ValidNet(net) && GoodClass(net, s) && IsFirable(net, Elapse(net, s), t)
    ensures var edge := EdgeOf(net, s, t);
      FiresAt(net, Elapse(net, s), t, x) <==> edge.firingMin <= x && Within(x, edge.firingMax)
  {
    var e := Elapse(net, s);
    ElapseGood(net, s);
    assert Row(net, e, t) == Row(net, s, t);
    ClockFloor(net, e, t);
    ShownValues(net, e, t, x);
    if FiresAt(net, e, t, x) {
      assert ShowsIn(net, e, t, x);
    }
  }

  /** The lower entry is finite and not above zero. */
  lemma ClockFloor(net: Net, s: StateClass, t: nat)
    requires GoodClass(net, s) && Enabled(net, s.marking, t)
    ensures s.zone[0][Row(net, s, t)].Fin? && s.zone[0][Row(net, s, t)].v <= 0
  {
    assert ClockBounds(net, s, Row(net, s, t));
  }

  ghost predicate IsLeast(net: Net, s: StateClass, t: nat, x: int) {
    ShowsIn(net, s, t, x) && forall y :: ShowsIn(net, s, t, y) ==> x <= y
  }

  ghost predicate IsGreatest(net: Net, s: StateClass, t: nat, x: int) {
    ShowsIn(net, s, t, x) && forall y :: ShowsIn(net, s, t, y) ==> y <= x
  }

  /** The dwell window: from the least to the greatest firing value, measured from
      the greatest and the least value of the clock on entry. */
  lemma DwellExact(net: Net, s: StateClass, t: nat) returns (low: int)
    requires ValidNet(net) && GoodClass(net, s) && IsFirable(net, Elapse(net, s), t)
    ensures IsLeast(net, s, t, low)
    ensures var edge := EdgeOf(net, s, t);
      edge.dwellMax == if edge.firingMax.Inf? then Inf else Fin(edge.firingMax.v - low)
    ensures var edge := EdgeOf(net, s, t);
      && (forall high :: IsGreatest(net, s, t, high) ==> edge.dwellMin == Max(0, edge.firingMin - high))
      && ((forall high :: !IsGreatest(net, s, t, high)) ==> edge.dwellMin == 0)
  {
    var e, row := Elapse(net, s), Row(net, s, t);
    var edge := EdgeOf(net, s, t);
    ElapseGood(net, s);
    ClockFloor(net, s, t);
    low := -s.zone[0][row].v;
    EntryValues(net, s, t);
    assert Within(low, edge.firingMax) by {
      EntryFires(net, s, t, low);
    }
  }

  /** Least and greatest values of the clock are its two entries. */
  lemma EntryValues(net: Net, s: StateClass, t: nat)
    requires GoodClass(net, s) && Enabled(net, s.marking, t) && s.zone[0][Row(net, s, t)].Fin?
    ensures var row := Row(net, s, t);
      && IsLeast(net, s, t, -s.zone[0][row].v)
      && (forall x :: IsGreatest(net, s, t, x) <==> s.zone[row][0] == Fin(x))
  {
    var row := Row(net, s, t);
    var z := s.zone;
    forall x
      ensures ShowsIn(net, s, t, x) <==> Within(-x, z[0][row]) && Within(x, z[row][0])
    {
      ShownValues(net, s, t, x);
    }
    assert Triangle(z, 0, row, 0) && z[0][0] == Fin(0);
    forall x | IsGreatest(net, s, t, x)
      ensures z[row][0] == Fin(x)
    {
      assert ShowsIn(net, s, t, x) && (Within(x + 1, z[row][0]) ==> ShowsIn(net, s, t, x + 1));
    }
  }

  /** A configuration of a class may stay as it is. */
  lemma MayStay(net: Net, s: StateClass, c: Config, t: nat)
    requires GoodClass(net, s) && InZone(net, s, c)
    ensures CanDelay(net, c, 0)
    ensures Execution(t) in c.clocks ==> Execution(t) in Delay(net, c, 0).clocks
    ensures Execution(t) in c.clocks ==> Delay(net, c, 0).clocks[Execution(t)] == c.clocks[Execution(t)]
    ensures Execution(t) in c.clocks ==> t < |net.transitions| && Within(c.clocks[Execution(t)], Latest(net, t))
  {
    forall u: nat | Enabled(net, s.marking, u)
      ensures u < |net.transitions| && Execution(u) in c.clocks && Within(c.clocks[Execution(u)], Latest(net, u))
    {
      RowValue(net, s, c, u);
      var row := Row(net, s, u);
      assert Execution(u) in Clocks(net, s.marking);
      assert ClockBounds(net, s, row) && Holds(s.zone, Valuation(s.clockVars, c.clocks), row, 0);
    }
    assert Execution(t) in c.clocks ==> HasClock(net, s.marking, Execution(t));
  }

  /** A value on entry is not above the firing window. */
  lemma EntryFires(net: Net, s: StateClass, t: nat, x: int)
    requires ValidNet(net) && GoodClass(net, s) && IsFirable(net, Elapse(net, s), t) && ShowsIn(net, s, t, x)
    ensures Within(x, EdgeOf(net, s, t).firingMax)
  {
    var c :| InZone(net, s, c) && Execution(t) in c.clocks && c.clocks[Execution(t)] == x;
    var e := Elapse(net, s);
    ElapseGood(net, s);
    MayStay(net, s, c, t);
    DelayInElapse(net, s, c, 0);
    assert Row(net, e, t) == Row(net, s, t);
    assert ShowsIn(net, e, t, x);
    ShownValues(net, e, t, x);
  }

  /** The windows contain the delay and the clock value of every concrete step. */
  lemma EdgeSound(net: Net, s: StateClass, c: Config, step: Step)
    requires ValidNet(net) && GoodClass(net, s) && InZone(net, s, c) && CanStep(net, c, step)
    ensures
      var edge := EdgeOf(net, s, step.transition);
      var fired := c.clocks[Execution(step.transition)] + step.delay;
      && edge.dwellMin <= step.delay && Within(step.delay, edge.dwellMax)
      && edge.firingMin <= fired && Within(fired, edge.firingMax)
  {
    var e, t := Elapse(net, s), step.transition;
    var row := Row(net, s, t);
    var late := Delay(net, c, step.delay);
    ElapseGood(net, s);
    DelayInElapse(net, s, c, step.delay);
    var v, w := Valuation(s.clockVars, c.clocks), Valuation(s.clockVars, late.clocks);
    RowValue(net, s, c, t);
    RowValue(net, s, late, t);
    assert Execution(t) in c.clocks && Runs(net, c.marking, Execution(t));
    assert Row(net, e, t) == row;
    assert Holds(s.zone, v, 0, row) && Holds(s.zone, v, row, 0);
    assert Holds(e.zone, w, 0, row) && Holds(e.zone, w, row, 0);
    assert ClockBounds(net, s, row) && ClockBounds(net, e, row);
    assert net.transitions[t].interval.Valid();
  }
}
