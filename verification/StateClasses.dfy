/** Symbolic state classes and the layout of their clock variables. */
module StateClasses {
  import opened Bounds
  import opened Zones
  import opened PetriNet
  import opened Scheduling

  /** The variables of a zone: the reference variable, h_t and w_t. */
  datatype ClockVar = Zero | Execution(transition: nat) | Suspension(transition: nat)

  datatype StateClass = StateClass(
    marking: Marking,
    zone: Matrix,
    clockVars: seq<ClockVar>,
    execClock: seq<int>,
    suspClock: seq<int>,
    structEnabled: seq<nat>,
    priorityEnabled: seq<nat>,
    suspended: seq<nat>)

  /** The clocks that exist under a marking. */
  ghost predicate HasClock(net: Net, m: Marking, x: ClockVar) {
    match x
    case Zero => false
    case Execution(t) => Enabled(net, m, t)
    case Suspension(t) => IsSuspended(net, m, t)
  }

  /** Variables that advance with time. */
  ghost predicate Runs(net: Net, m: Marking, x: ClockVar) {
    match x
    case Zero => false
    case Execution(t) => Active(net, m, t)
    case Suspension(_) => true
  }

  // -------------------------------------------------------------------- layout

  function ClocksOf(t: nat, suspended: seq<nat>): seq<ClockVar> {
    if t in suspended then [Execution(t), Suspension(t)] else [Execution(t)]
  }

  function LayoutOf(enabled: seq<nat>, suspended: seq<nat>): (vars: seq<ClockVar>) {
    if enabled == [] then [Zero]
    else LayoutOf(enabled[..|enabled| - 1], suspended) + ClocksOf(enabled[|enabled| - 1], suspended)
  }

  /** The variable vector is a function of the marking. */
  ghost function Layout(net: Net, m: Marking): seq<ClockVar> {
    LayoutOf(StructEnabled(net, m), Suspended(net, m))
  }

  ghost predicate Injective(vars: seq<ClockVar>) {
    forall i, j :: 0 <= i < j < |vars| ==> vars[i] != vars[j]
  }

  lemma {:induction false} LayoutOfFacts(enabled: seq<nat>, suspended: seq<nat>)
    requires Increasing(enabled)
    ensures
      var vars := LayoutOf(enabled, suspended);
      && |vars| > 0 && vars[0] == Zero && Injective(vars)
      && forall x: ClockVar :: x in vars <==>
           x.Zero? || (x.Execution? && x.transition in enabled)
           || (x.Suspension? && x.transition in enabled && x.transition in suspended)
  {
    if enabled != [] {
      var init, t := enabled[..|enabled| - 1], enabled[|enabled| - 1];
      LayoutOfFacts(init, suspended);
      assert enabled == init + [t] && t !in init;
      var vars := LayoutOf(init, suspended);
      assert forall i :: 0 <= i < |vars| ==> vars[i] in vars;
    }
  }

  /** The order of variables: the reference, then by transition, and the execution
      clock of a transition before its suspension clock. */
  ghost predicate ComesBefore(x: ClockVar, y: ClockVar) {
    !y.Zero? && (x.Zero? || x.transition < y.transition
                 || (x.transition == y.transition && x.Execution? && y.Suspension?))
  }

  ghost predicate Ordered(vars: seq<ClockVar>) {
    forall i, j :: 0 <= i < j < |vars| ==> ComesBefore(vars[i], vars[j])
  }

  lemma {:induction false} LayoutOfOrdered(enabled: seq<nat>, suspended: seq<nat>)
    requires Increasing(enabled)
    ensures Ordered(LayoutOf(enabled, suspended))
  {
    if enabled != [] {
      var init, t := enabled[..|enabled| - 1], enabled[|enabled| - 1];
      LayoutOfOrdered(init, suspended);
      LayoutOfFacts(init, suspended);
      var before, vars := LayoutOf(init, suspended), LayoutOf(enabled, suspended);
      forall i | 0 <= i < |before|
        ensures before[i].Zero? || before[i].transition < t
      {
        assert before[i] in before;
      }
      forall i, j | 0 <= i < j < |vars|
        ensures ComesBefore(vars[i], vars[j])
      {
        if j < |before| {
          assert ComesBefore(before[i], before[j]);
        }
      }
    }
  }

  /** The variables of a marking are in this order. */
  lemma LayoutOrdered(net: Net, m: Marking)
    ensures Ordered(Layout(net, m))
  {
    LayoutOfOrdered(StructEnabled(net, m), Suspended(net, m));
  }

  lemma LayoutFacts(net: Net, m: Marking)
    ensures
      var vars := Layout(net, m);
      && |vars| > 0 && vars[0] == Zero && Injective(vars)
      && forall x: ClockVar {:trigger x in vars} :: x in vars <==> x.Zero? || HasClock(net, m, x)
  {
    LayoutOfFacts(StructEnabled(net, m), Suspended(net, m));
  }

  ghost function IndexOf(vars: seq<ClockVar>, x: ClockVar): (i: nat)
    requires x in vars
    ensures i < |vars| && vars[i] == x
  {
    var i: nat :| i < |vars| && vars[i] == x;
    i
  }

  function ClockOf(suspension: bool, t: nat): ClockVar {
    if suspension then Suspension(t) else Execution(t)
  }

  /** The index map of one clock kind: -1 where the clock does not exist. */
  ghost function IndexMap(vars: seq<ClockVar>, n: nat, suspension: bool): (r: seq<int>)
    ensures |r| == n
    ensures forall t: nat :: t < n ==>
      r[t] == if ClockOf(suspension, t) in vars then IndexOf(vars, ClockOf(suspension, t)) else -1
  {
    seq(n, t requires 0 <= t < n =>
      if ClockOf(suspension, t) in vars then IndexOf(vars, ClockOf(suspension, t)) else -1)
  }

  ghost function ExecIndex(net: Net, m: Marking): seq<int> {
    IndexMap(Layout(net, m), |net.transitions|, false)
  }

  ghost function SuspIndex(net: Net, m: Marking): seq<int> {
    IndexMap(Layout(net, m), |net.transitions|, true)
  }

  // ------------------------------------------------------------------- classes

  /** A class is determined by its marking and its zone. */
  ghost function MakeClass(net: Net, m: Marking, zone: Matrix): StateClass {
    StateClass(m, zone, Layout(net, m), ExecIndex(net, m), SuspIndex(net, m),
               StructEnabled(net, m), PriorityEnabled(net, m), Suspended(net, m))
  }

  ghost predicate IsClass(net: Net, s: StateClass) {
    && ValidMarking(net, s.marking)
    && s == MakeClass(net, s.marking, s.zone)
    && |s.zone| == |s.clockVars|
  }

  /** Variable i is at or above zero, and at or below its latest bound if it is
      an execution clock. */
  ghost predicate ClockBounds(net: Net, s: StateClass, i: nat)
    requires i < |s.zone| == |s.clockVars|
  {
    && Le(s.zone[0][i], Fin(0))
    && (s.clockVars[i].Execution? ==>
          && s.clockVars[i].transition < |net.transitions|
          && Le(s.zone[i][0], Latest(net, s.clockVars[i].transition)))
  }

  /** What holds of every class the analyser builds. */
  ghost predicate GoodClass(net: Net, s: StateClass) {
    && IsClass(net, s) && Canonical(s.zone)
    && (forall i: nat :: i < |s.zone| ==> ClockBounds(net, s, i))
  }

  /** The row of the execution clock of an enabled transition. */
  ghost function Row(net: Net, s: StateClass, t: nat): (i: nat)
    requires IsClass(net, s) && Enabled(net, s.marking, t)
    ensures 0 < i < |s.zone| && s.clockVars[i] == Execution(t) && s.execClock[t] == i
  {
    LayoutFacts(net, s.marking);
    IndexOf(s.clockVars, Execution(t))
  }

  // --------------------------------------------------------------- computation

  method BuildLayout(net: Net, m: Marking, structEnabled: seq<nat>, suspended: seq<nat>)
    returns (vars: seq<ClockVar>, exec: seq<int>, susp: seq<int>)
    requires structEnabled == StructEnabled(net, m) && suspended == Suspended(net, m)
    ensures vars == Layout(net, m) && exec == ExecIndex(net, m) && susp == SuspIndex(net, m)
  {
    assert forall i :: 0 <= i < |structEnabled| ==> structEnabled[i] in structEnabled;
    vars, exec, susp := LayOut(|net.transitions|, structEnabled, suspended);
    LayoutOfFacts(structEnabled, suspended);
    IndexMapUnique(vars, exec, false);
    IndexMapUnique(vars, susp, true);
  }

  method LayOut(n: nat, enabled: seq<nat>, suspended: seq<nat>)
    returns (vars: seq<ClockVar>, exec: seq<int>, susp: seq<int>)
    requires Increasing(enabled) && forall i :: 0 <= i < |enabled| ==> enabled[i] < n
    ensures vars == LayoutOf(enabled, suspended) && |exec| == |susp| == n
    ensures IndexMapFor(vars, exec, false) && IndexMapFor(vars, susp, true)
  {
    vars := [Zero];
    exec, susp := seq(n, _ => -1), seq(n, _ => -1);
    for k := 0 to |enabled|
      invariant vars == LayoutOf(enabled[..k], suspended)
      invariant |exec| == |susp| == n
      invariant IndexMapFor(vars, exec, false) && IndexMapFor(vars, susp, true)
    {
      var t := enabled[k];
      assert enabled[..k + 1][..k] == enabled[..k] && t !in enabled[..k];
      LayoutOfFacts(enabled[..k], suspended);
      IndexStep(vars, exec, susp, Execution(t));
      exec := exec[t := |vars|];
      vars := vars + [Execution(t)];
      if t in suspended {
        IndexStep(vars, exec, susp, Suspension(t));
        susp := susp[t := |vars|];
        vars := vars + [Suspension(t)];
      }
    }
    assert enabled[..|enabled|] == enabled;
  }

  /** r holds the positions of the clocks of one kind in vars. */
  ghost predicate IndexMapFor(vars: seq<ClockVar>, r: seq<int>, suspension: bool) {
    forall t: nat :: t < |r| ==>
      if ClockOf(suspension, t) in vars then 0 <= r[t] < |vars| && vars[r[t]] == ClockOf(suspension, t) else r[t] == -1
  }

  lemma IndexStep(vars: seq<ClockVar>, exec: seq<int>, susp: seq<int>, x: ClockVar)
    requires IndexMapFor(vars, exec, false) && IndexMapFor(vars, susp, true)
    requires !x.Zero? && x !in vars && x.transition < |exec| == |susp|
    ensures IndexMapFor(vars + [x], if x.Execution? then exec[x.transition := |vars|] else exec, false)
    ensures IndexMapFor(vars + [x], if x.Suspension? then susp[x.transition := |vars|] else susp, true)
  {
  }

  lemma IndexMapUnique(vars: seq<ClockVar>, r: seq<int>, suspension: bool)
    requires Injective(vars) && IndexMapFor(vars, r, suspension)
    ensures r == IndexMap(vars, |r|, suspension)
  {
  }
}
