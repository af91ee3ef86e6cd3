/** Why extrapolation loses nothing: configurations whose clocks differ only where
    no interval can tell are indistinguishable. */
module Regions {
  import opened Bounds
  import opened Zones
  import opened PetriNet
  import opened Scheduling
  import opened StateClasses
  import opened Semantics
  import opened Symbolic

  // ------------------------------------------------------------------------- zones

  /** The clocks that v has below k, and the reference. */
  predicate Low(v: seq<int>, k: int, i: nat) {
    i < |v| && (i == 0 || v[i] < k)
  }

  ghost function LowOnes(v: seq<int>, k: int): (s: set<nat>)
    ensures forall i: nat {:trigger i in s} :: i in s <==> Low(v, k, i)
  {
    set i: nat | i < |v| && Low(v, k, i)
  }

  /** Seen from the low clocks, clock y may still reach k. */
  ghost predicate MayReach(m: Matrix, v: seq<int>, k: int, y: nat) {
    y < |m| == |v| && forall j: nat :: Low(v, k, j) ==> Le(Fin(k), Add(Fin(v[j]), m[y][j]))
  }

  /** v respects the zone between low clocks, and the others may reach k. */
  ghost predicate Roomy(m: Matrix, k: int, v: seq<int>) {
    && Canonical(m) && |m| == |v| && v != [] && v[0] == 0 && k >= 0
    && SatOn(m, v, LowOnes(v, k))
    && forall y: nat :: y < |m| && !Low(v, k, y) ==> MayReach(m, v, k, y)
  }

  /** No clock is below the reference. */
  ghost predicate Above(m: Matrix) {
    |m| > 0 && forall i: nat :: i < |m| ==> Le(m[0][i], Fin(0))
  }

  /** A solution of the relaxed zone leaves room in the zone itself. */
  lemma RelaxedRoomy(m: Matrix, k: int, v: seq<int>)
    requires Canonical(m) && Above(m) && k >= 0 && Sat(RelaxMatrix(m, k, {}), v) && v[0] == 0
    ensures Roomy(m, k, v)
  {
    var r := RelaxMatrix(m, k, {});
    forall i: nat | i < |m|
      ensures v[i] >= 0 && Le(Fin(0), m[i][0])
    {
      assert Holds(r, v, 0, i) && Triangle(m, i, 0, i) && Triangle(m, 0, i, 0);
    }
    forall i: nat, j: nat | Low(v, k, i) && Low(v, k, j)
      ensures Holds(m, v, i, j)
    {
      assert Holds(r, v, i, j);
    }
    forall y: nat, j: nat | y < |m| && !Low(v, k, y) && Low(v, k, j)
      ensures Le(Fin(k), Add(Fin(v[j]), m[y][j]))
    {
      assert Holds(r, v, y, j);
    }
  }

  lemma RoomAbove(m: Matrix, k: int, v: seq<int>, x: nat)
    requires Roomy(m, k, v) && x < |m| && !Low(v, k, x)
    ensures MayReach(m, v, k, x) && !Negative(Add(Fin(-k), m[x][0]))
  {
    assert Low(v, k, 0);
  }

  /** Pushing one high clock up to k keeps the room. */
  lemma PushOne(m: Matrix, k: int, v: seq<int>, x: nat)
    requires Roomy(m, k, v) && x < |m| && !Low(v, k, x)
    ensures Roomy(TightenMatrix(m, 0, x, -k), k, v)
  {
    hide SatOn, MayReach, TightenMatrix;
    var o: nat, c := 0, TightenMatrix(m, 0, x, -k);
    RoomAbove(m, k, v, x);
    TightenClosed(m, o, x, -k);
    PushedLow(m, k, v, x);
    forall y: nat | y < |m| && !Low(v, k, y)
      ensures MayReach(c, v, k, y)
    {
      assert MayReach(m, v, k, y);
      PushedReach(m, k, v, x, y);
    }
  }

  lemma PushedLow(m: Matrix, k: int, v: seq<int>, x: nat)
    requires |m| == |v| && v != [] && v[0] == 0 && SatOn(m, v, LowOnes(v, k)) && MayReach(m, v, k, x)
    ensures SatOn(TightenMatrix(m, 0, x, -k), v, LowOnes(v, k))
  {
    var o: nat, c := 0, TightenMatrix(m, 0, x, -k);
    forall i: nat, j: nat | Low(v, k, i) && Low(v, k, j)
      ensures Holds(c, v, i, j)
    {
      assert Low(v, k, o) && Holds(m, v, i, j) && Holds(m, v, i, o);
      assert Le(Fin(k), Add(Fin(v[j]), m[x][j]));
    }
  }

  lemma PushedReach(m: Matrix, k: int, v: seq<int>, x: nat, y: nat)
    requires MayReach(m, v, k, x) && MayReach(m, v, k, y) && v != [] && v[0] == 0
    ensures MayReach(TightenMatrix(m, 0, x, -k), v, k, y)
  {
    var o: nat := 0;
    assert Low(v, k, o);
    forall j: nat | Low(v, k, j)
      ensures Le(Fin(k), Add(Fin(v[j]), TightenMatrix(m, 0, x, -k)[y][j]))
    {
      assert Le(Fin(k), Add(Fin(v[j]), m[y][j])) && Le(Fin(k), Add(Fin(v[o]), m[y][o]));
      assert Le(Fin(k), Add(Fin(v[j]), m[x][j]));
    }
  }

  /** w has the high ones among the first n clocks at k or above. */
  ghost predicate Pushed(v: seq<int>, k: int, n: nat, w: seq<int>) {
    |w| == |v| && forall y: nat :: y < n && y < |v| && !Low(v, k, y) ==> w[y] - w[0] >= k
  }

  lemma {:induction false} PushUp(m: Matrix, k: int, v: seq<int>, n: nat) returns (c: Matrix)
    requires Roomy(m, k, v) && n <= |m| == |v|
    ensures |c| == |m| && Roomy(c, k, v)
    ensures forall w :: Sat(c, w) ==> Sat(m, w) && Pushed(v, k, n, w)
  {
    hide Roomy;
    c := m;
    if n > 0 {
      var d := PushUp(m, k, v, n - 1);
      c := d;
      if !Low(v, k, n - 1) {
        c := TightenMatrix(d, 0, n - 1, -k);
        PushOne(d, k, v, n - 1);
        PushedSat(d, k, v, n - 1);
      }
      forall w | Sat(c, w)
        ensures Sat(m, w) && Pushed(v, k, n, w)
      {
        assert Sat(d, w) && Pushed(v, k, n - 1, w);
      }
    }
  }

  lemma PushedSat(m: Matrix, k: int, v: seq<int>, x: nat)
    requires Roomy(m, k, v) && x < |m|
    ensures forall w :: Sat(TightenMatrix(m, 0, x, -k), w) <==> Sat(m, w) && w[x] - w[0] >= k
  {
    forall w
      ensures Sat(TightenMatrix(m, 0, x, -k), w) <==> Sat(m, w) && w[x] - w[0] >= k
    {
      TightenSat(m, 0, x, -k, w);
    }
  }

  /** Every solution of an extrapolated zone differs from one of the zone itself only
      in clocks that are k or above in both. */
  lemma RelaxedNear(m: Matrix, k: int, v: seq<int>) returns (w: seq<int>)
    requires Canonical(m) && Above(m) && k >= 0 && Sat(RelaxMatrix(m, k, {}), v) && v[0] == 0
    ensures Sat(m, w) && |w| == |v| && w[0] == 0
    ensures forall i: nat :: i < |v| ==> w[i] == v[i] || (v[i] >= k && w[i] >= k)
  {
    RelaxedRoomy(m, k, v);
    var c := PushUp(m, k, v, |m|);
    w := Extend(c, v, LowOnes(v, k));
    assert Low(v, k, 0) && Pushed(v, k, |m|, w);
  }

  // ---------------------------------------------------------------- configurations

  predicate Same(k: int, a: int, b: int) {
    a == b || (a >= k && b >= k)
  }

  /** Clocks differ only where both are k or above. */
  ghost predicate Alike(k: int, a: Config, b: Config) {
    && a.marking == b.marking && a.clocks.Keys == b.clocks.Keys
    && forall x: ClockVar :: x in a.clocks ==> Same(k, a.clocks[x], b.clocks[x])
  }

  /** No clock is past the latest bound of its transition. */
  ghost predicate Timely(net: Net, c: Config) {
    && ValidConfig(net, c)
    && forall t: nat :: Execution(t) in c.clocks ==>
         t < |net.transitions| && Within(c.clocks[Execution(t)], Latest(net, t))
  }

  /** What one can do the other can do as well, and they stay alike. */
  lemma StepAlike(net: Net, k: int, a: Config, b: Config, step: Step)
    requires ValidNet(net) && CoversNet(net, k) && Timely(net, a) && Timely(net, b) && Alike(k, a, b)
    requires CanStep(net, a, step)
    ensures CanStep(net, b, step) && Alike(k, DoStep(net, a, step), DoStep(net, b, step))
    ensures Timely(net, DoStep(net, b, step))
  {
    DelayAlike(net, k, a, b, step.delay);
    FireAlike(net, k, Delay(net, a, step.delay), Delay(net, b, step.delay), step.transition);
  }

  lemma HasExecution(net: Net, c: Config, t: nat)
    requires ValidConfig(net, c)
    ensures Execution(t) in c.clocks <==> Enabled(net, c.marking, t)
  {
    assert Execution(t) in Clocks(net, c.marking) <==> HasClock(net, c.marking, Execution(t));
  }

  lemma DelayAlike(net: Net, k: int, a: Config, b: Config, d: int)
    requires ValidNet(net) && CoversNet(net, k) && Timely(net, a) && Timely(net, b) && Alike(k, a, b)
    requires CanDelay(net, a, d)
    ensures CanDelay(net, b, d) && Alike(k, Delay(net, a, d), Delay(net, b, d)) && Timely(net, Delay(net, b, d))
  {
    forall t: nat | Active(net, b.marking, t)
      ensures Within(b.clocks[Execution(t)] + d, Latest(net, t))
    {
      HasExecution(net, a, t);
      assert Same(k, a.clocks[Execution(t)], b.clocks[Execution(t)]);
    }
    forall t: nat | Execution(t) in Delay(net, b, d).clocks
      ensures t < |net.transitions| && Within(Delay(net, b, d).clocks[Execution(t)], Latest(net, t))
    {
      HasExecution(net, b, t);
    }
  }

  lemma FireAlike(net: Net, k: int, a: Config, b: Config, t: nat)
    requires ValidNet(net) && CoversNet(net, k) && Timely(net, b) && Alike(k, a, b)
    requires ValidConfig(net, a) && CanFire(net, a, t)
    ensures CanFire(net, b, t) && Alike(k, FireConfig(net, a, t), FireConfig(net, b, t))
    ensures Timely(net, FireConfig(net, b, t))
  {
    HasExecution(net, a, t);
    assert Same(k, a.clocks[Execution(t)], b.clocks[Execution(t)]);
    var r := FireConfig(net, b, t);
    forall u: nat | Execution(u) in r.clocks
      ensures u < |net.transitions| && Within(r.clocks[Execution(u)], Latest(net, u))
    {
      HasExecution(net, r, u);
      assert net.transitions[u].interval.Valid();
    }
  }

  /** Configurations of good classes are timely. */
  lemma ClassTimely(net: Net, s: StateClass, c: Config)
    requires GoodClass(net, s) && InZone(net, s, c)
    ensures Timely(net, c)
  {
    LayoutFacts(net, s.marking);
    forall t: nat | Execution(t) in c.clocks
      ensures t < |net.transitions| && Within(c.clocks[Execution(t)], Latest(net, t))
    {
      HasExecution(net, c, t);
      RowValue(net, s, c, t);
      var row := Row(net, s, t);
      assert ClockBounds(net, s, row) && Holds(s.zone, Valuation(s.clockVars, c.clocks), row, 0);
    }
  }

  /** Every configuration of an extrapolated class is alike to one of the class. */
  lemma ExtrapolatedAlike(net: Net, k: int, s: StateClass, c: Config) returns (near: Config)
    requires ValidNet(net) && GoodClass(net, s) && CoversNet(net, k) && InZone(net, Extrapolated(net, UpTo(k), s), c)
    ensures InZone(net, s, near) && Alike(k, near, c)
  {
    LayoutFacts(net, s.marking);
    var v := Valuation(s.clockVars, c.clocks);
    forall i: nat | i < |s.zone|
      ensures Le(s.zone[0][i], Fin(0))
    {
      assert ClockBounds(net, s, i);
    }
    assert Sat(RelaxMatrix(s.zone, k, {}), v);
    var w := RelaxedNear(s.zone, k, v);
    ConfigOfValuation(net, s, w);
    near := ConfigOf(net, s, w);
    forall x: ClockVar | x in near.clocks
      ensures Same(k, near.clocks[x], c.clocks[x])
    {
      var i := IndexOf(s.clockVars, x);
      assert v[i] == c.clocks[x] && w[i] == near.clocks[x];
    }
  }
}
