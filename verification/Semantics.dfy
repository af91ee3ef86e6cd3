/** The concrete timed semantics the symbolic construction stands for.

    A configuration is a marking and one integer per existing clock.  Time may
    pass as long as no active transition overruns its latest bound; suspended
    and filtered-out execution clocks stand still.  Firing moves tokens, keeps
    the clocks that persist and starts the others at zero. */
module Semantics {
  import opened Bounds
  import opened PetriNet
  import opened Scheduling
  import opened StateClasses

  datatype Config = Config(marking: Marking, clocks: map<ClockVar, int>)

  ghost function Clocks(net: Net, m: Marking): (s: set<ClockVar>)
    ensures forall x: ClockVar {:trigger x in s} :: x in s <==> HasClock(net, m, x)
  {
    (set t | t in StructEnabled(net, m) :: Execution(t)) + (set t | t in Suspended(net, m) :: Suspension(t))
  }

  ghost predicate ValidConfig(net: Net, c: Config) {
    ValidMarking(net, c.marking) && c.clocks.Keys == Clocks(net, c.marking)
  }

  ghost function InitialConfig(net: Net): (c: Config) {
    Config(net.initial, map x | x in Clocks(net, net.initial) :: 0)
  }

  ghost predicate CanDelay(net: Net, c: Config, d: int)
    requires ValidConfig(net, c)
  {
    d >= 0 && forall t: nat :: Active(net, c.marking, t) ==> Within(c.clocks[Execution(t)] + d, Latest(net, t))
  }

  ghost function Delay(net: Net, c: Config, d: int): (r: Config)
    requires ValidConfig(net, c)
    ensures ValidConfig(net, r)
  {
    Config(c.marking, map x | x in c.clocks :: if Runs(net, c.marking, x) then c.clocks[x] + d else c.clocks[x])
  }

  /** What time does to the clocks of an enabled transition: that of its execution
      runs while it is active and stands still while it is filtered out, and then that
      of its suspension runs if it has one. */
  lemma DelayMeans(net: Net, c: Config, d: int, t: nat)
    requires ValidConfig(net, c) && Enabled(net, c.marking, t)
    ensures
      var r, active := Delay(net, c, d), Active(net, c.marking, t);
      && Execution(t) in c.clocks && Execution(t) in r.clocks
      && r.clocks[Execution(t)] == (if active then c.clocks[Execution(t)] + d else c.clocks[Execution(t)])
      && (Suspension(t) in c.clocks <==> !active && net.transitions[t].suspendable)
      && (Suspension(t) in c.clocks ==>
            Suspension(t) in r.clocks && r.clocks[Suspension(t)] == c.clocks[Suspension(t)] + d)
  {
    assert Execution(t) in Clocks(net, c.marking);
    assert Suspension(t) in Clocks(net, c.marking) <==> IsSuspended(net, c.marking, t);
  }

  ghost predicate CanFire(net: Net, c: Config, t: nat)
    requires ValidConfig(net, c)
  {
    && Active(net, c.marking, t)
    && Earliest(net, t) <= c.clocks[Execution(t)]
    && Within(c.clocks[Execution(t)], Latest(net, t))
  }

  /** Clocks of t itself restart; the others persist as long as they exist. */
  ghost function FireConfig(net: Net, c: Config, t: nat): (r: Config)
    requires ValidNet(net) && ValidConfig(net, c) && CanFire(net, c, t)
    ensures ValidConfig(net, r)
  {
    FireMarkingValid(net, c.marking, t);
    var m := FireMarking(net, c.marking, t);
    Config(m, map x | x in Clocks(net, m) :: if x in c.clocks && x.transition != t then c.clocks[x] else 0)
  }

  // ---------------------------------------------------------------------- runs

  datatype Step = Step(delay: int, transition: nat)

  ghost predicate CanStep(net: Net, c: Config, s: Step)
    requires ValidNet(net) && ValidConfig(net, c)
  {
    CanDelay(net, c, s.delay) && CanFire(net, Delay(net, c, s.delay), s.transition)
  }

  ghost function DoStep(net: Net, c: Config, s: Step): (r: Config)
    requires ValidNet(net) && ValidConfig(net, c) && CanStep(net, c, s)
    ensures ValidConfig(net, r)
  {
    FireConfig(net, Delay(net, c, s.delay), s.transition)
  }

  ghost predicate Steps(net: Net, c: Config, s: Step, next: Config)
    requires ValidNet(net)
  {
    ValidConfig(net, c) && CanStep(net, c, s) && next == DoStep(net, c, s)
  }

  /** What a step does to marking and clocks. */
  lemma TakeStep(net: Net, c: Config, s: Step) returns (next: Config)
    requires ValidNet(net) && ValidConfig(net, c) && CanStep(net, c, s)
    ensures Steps(net, c, s, next) && ValidConfig(net, next)
      && next.marking == FireMarking(net, c.marking, s.transition)
    ensures forall x: ClockVar :: x in next.clocks ==>
      next.clocks[x] ==
        if x in c.clocks && x.transition != s.transition then Delay(net, c, s.delay).clocks[x] else 0
  {
    next := DoStep(net, c, s);
  }

  /** configs[i] turns into configs[i + 1] by steps[i]. */
  ghost predicate IsRun(net: Net, configs: seq<Config>, steps: seq<Step>)
    requires ValidNet(net)
  {
    && |configs| == |steps| + 1
    && forall i :: 0 <= i < |steps| ==> Steps(net, configs[i], steps[i], configs[i + 1])
  }

  /** A run from the initial configuration. */
  ghost predicate IsInitialRun(net: Net, configs: seq<Config>, steps: seq<Step>)
    requires ValidNet(net)
  {
    IsRun(net, configs, steps) && configs[0] == InitialConfig(net)
  }
}
