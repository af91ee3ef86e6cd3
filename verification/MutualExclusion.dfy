/** What every run of a lowered net keeps: the tokens of each processor, at most one
    for each lock, and exactly one if the task graph is such that neither a restart
    nor a monitor of a fork or join can lose it. */
module MutualExclusion {
  import opened Blueprint
  import opened Conservation
  import opened Coverage
  import opened PetriNet
  import opened Ptpn
  import opened Scheduling
  import opened Semantics
  import opened TaskGraph
  import opened Wiring
  import L = Lowering

  /** The i-th lock of task n is this one. */
  predicate Asks(tdg: Tdg, lock: nat, n: nat, i: nat) {
    IsTask(tdg, n) && i < |tdg.nodes[n].task.locks| && tdg.nodes[n].task.locks[i].id == lock
  }

  /** Place p of task n lies between taking and giving back a lock. */
  ghost predicate InCriticalSection(l: L.Lowering, lock: nat, p: nat, n: nat, i: nat, j: nat)
    reads l
  {
    && Asks(l.tdg, lock, n, i) && n < |l.chains|
    && AcquirePos(i) < j < ReleasePos(|l.chains[n]|, i) && j % 2 == 0 && j < |l.chains[n]| && l.chains[n][j] == p
  }

  ghost predicate IsCritical(l: L.Lowering, lock: nat, p: nat)
    reads l
  {
    exists n: nat, i: nat, j: nat :: InCriticalSection(l, lock, p, n, i, j)
  }

  /** Place p of a task of this core lies between taking and giving back the
      processor. */
  ghost predicate InExecution(l: L.Lowering, core: int, p: nat, n: nat, j: nat)
    reads l
  {
    && IsTask(l.tdg, n) && n < |l.chains| && l.tdg.nodes[n].task.core == core
    && 1 < j < |l.chains[n]| - 2 && j % 2 == 0 && l.chains[n][j] == p
  }

  ghost predicate IsExecuting(l: L.Lowering, core: int, p: nat)
    reads l
  {
    exists n: nat, j: nat :: InExecution(l, core, p, n, j)
  }

  lemma NetIsValid(l: L.Lowering)
    requires l.Lowered()
    ensures ValidNet(l.net.ToNet(l.parallelism)) && Realizes(l.net.ToNet(l.parallelism), l.net.Contents())
    ensures UnitArcs(l.net.Contents())
  {
    var net, s := l.net.ToNet(l.parallelism), l.net.Contents();
    forall t | 0 <= t < |net.transitions|
      ensures ValidArcs(net.preArcs[t], |net.places|) && ValidArcs(net.postArcs[t], |net.places|)
    {
      assert SparseAt(s, net.preArcs, net.postArcs, t);
      SparseExact(Column(s, t));
      SparseExact(s.post[t]);
    }
    forall p: nat, t: nat | p < |s.places| && t < |s.transitions|
      ensures UnitAt(s, p, t)
    {
      assert UnitOk(s, p, t);
    }
  }

  lemma LockOfBond(l: L.Lowering, lock: nat, b: Bond)
    requires l.Lowered() && lock < |l.locksPlace| && b in l.plan.bonds && b.resource == l.locksPlace[lock]
    ensures IsTask(l.tdg, b.node) && exists i: nat :: l.IsLockBond(b, i) && l.tdg.nodes[b.node].task.locks[i].id == lock
  {
    assert l.MadeBond(b, l.CpuNodes(), |l.tdg.nodes|, 0);
  }

  /** A lock is taken before it is given back, and once a task if it is listed once. */
  lemma LockWellBound(l: L.Lowering, lock: nat)
    requires l.Lowered() && lock < |l.locksPlace|
    requires forall n: nat :: IsTask(l.tdg, n) ==> DistinctLocks(l.tdg.nodes[n].task)
    ensures WellBound(l.plan, l.locksPlace[lock])
  {
    forall b | b in l.plan.bonds && b.resource == l.locksPlace[lock]
      ensures b.acquire < b.release
    {
      LockOfBond(l, lock, b);
      l.TaskChains(b.node);
    }
    forall b, c | b in l.plan.bonds && c in l.plan.bonds && b.resource == c.resource == l.locksPlace[lock]
      && b.node == c.node
      ensures b == c
    {
      LockOfBond(l, lock, b);
      LockOfBond(l, lock, c);
      assert DistinctLocks(l.tdg.nodes[b.node].task);
    }
  }

  /** The lock-holding positions of a task. */
  lemma HoldsLock(l: L.Lowering, lock: nat, n: nat, j: nat)
    requires l.Lowered() && lock < l.tdg.lockCount
    ensures Holds(l.plan, l.locksPlace[lock], n, j) <==> exists i: nat :: HoldsFor(l, lock, n, i, j)
  {
    var r := l.locksPlace[lock];
    if Holds(l.plan, r, n, j) {
      var b :| b in l.plan.bonds && b.resource == r && b.node == n && b.acquire < j < b.release;
      LockOfBond(l, lock, b);
      var i: nat :| l.IsLockBond(b, i) && l.tdg.nodes[b.node].task.locks[i].id == lock;
      assert HoldsFor(l, lock, n, i, j);
    }
    if i: nat :| HoldsFor(l, lock, n, i, j) {
      var b := Bond(r, n, AcquirePos(i), ReleasePos(|l.chains[n]|, i));
      l.TaskChains(n);
      assert l.IsLockBond(b, i);
      assert l.MadeBond(b, l.CpuNodes(), |l.tdg.nodes|, 0);
    }
  }

  /** Position j of task n lies between taking and giving back its i-th lock. */
  ghost predicate HoldsFor(l: L.Lowering, lock: nat, n: nat, i: nat, j: nat)
    reads l
  {
    Asks(l.tdg, lock, n, i) && n < |l.chains| && AcquirePos(i) < j < ReleasePos(|l.chains[n]|, i)
  }

  /** The section of a lock is its place and its critical sections. */
  lemma LockSection(l: L.Lowering, lock: nat, p: nat)
    requires l.Lowered() && lock < |l.locksPlace|
    ensures p in Section(l.plan, l.locksPlace[lock]) <==> p == l.locksPlace[lock] || IsCritical(l, lock, p)
  {
    hide Wired;
    ResourceOwned(l, l.locksPlace[lock]);
    var r := l.locksPlace[lock];
    if p in Section(l.plan, r) && p != r {
      var n, j := l.plan.owners[p].node, l.plan.owners[p].pos;
      HoldsLock(l, lock, n, j);
      PlaceOfOwner(l, p);
      var i: nat :| HoldsFor(l, lock, n, i, j);
      assert InCriticalSection(l, lock, p, n, i, j);
    }
    if n: nat, i: nat, j: nat :| InCriticalSection(l, lock, p, n, i, j) {
      assert HoldsFor(l, lock, n, i, j);
      HoldsLock(l, lock, n, j);
      OwnerOfPlace(l, n, j);
    }
  }

  lemma PlaceOfOwner(l: L.Lowering, p: nat)
    requires l.Lowered() && p < |l.plan.owners| && l.plan.owners[p].OnChain?
    ensures
      var n, j := l.plan.owners[p].node, l.plan.owners[p].pos;
      n < |l.chains| && j < |l.chains[n]| && j % 2 == 0 && l.chains[n][j] == p
  {
    assert OwnerAt(l.net.Contents(), l.plan, p);
  }

  lemma OwnerOfPlace(l: L.Lowering, n: nat, j: nat)
    requires l.Lowered() && n < |l.chains| && j < |l.chains[n]| && j % 2 == 0
    ensures l.chains[n][j] < |l.plan.owners| && l.plan.owners[l.chains[n][j]] == OnChain(n, j)
  {
    assert ChainAt(l.plan, n, j);
  }

  lemma ResourceOwned(l: L.Lowering, r: nat)
    requires l.Lowered() && r in l.locksPlace
    ensures r < |l.plan.owners|
  {
  }

  /** Nothing is brought into the section of a lock: a task enters without locks. */
  lemma EntersWithout(l: L.Lowering, lock: nat, t: nat)
    requires l.Lowered() && lock < l.tdg.lockCount
    ensures PreemptsOut(l.plan, l.locksPlace[lock], t)
  {
    if t < |l.plan.kinds| && l.plan.kinds[t].Preempting? {
      HoldsLock(l, lock, l.plan.kinds[t].high, 2);
    }
  }

  lemma LockDrains(l: L.Lowering, lock: nat)
    requires l.Lowered() && lock < l.tdg.lockCount
    requires forall n: nat :: IsTask(l.tdg, n) ==> DistinctLocks(l.tdg.nodes[n].task)
    ensures Realizes(l.net.ToNet(l.parallelism), l.net.Contents()) && ValidNet(l.net.ToNet(l.parallelism))
    ensures Draining(l.net.Contents(), Section(l.plan, l.locksPlace[lock]))
    ensures Roomy(l.net.Contents(), Section(l.plan, l.locksPlace[lock]), 1)
    ensures HoldsOne(l.net.initial, Section(l.plan, l.locksPlace[lock]))
    ensures
      var r := l.locksPlace[lock];
      forall t: nat :: t < |l.net.transitions| && PreemptsWithin(l.plan, r, t) && StraysPast(l.plan, r, t) ==>
        MovesWithin(l.net.Contents(), t, Section(l.plan, r))
  {
    LockWellBound(l, lock);
    NetIsValid(l);
    forall t: nat
      ensures PreemptsOut(l.plan, l.locksPlace[lock], t)
    {
      EntersWithout(l, lock, t);
    }
    SectionDrains(l.net.Contents(), l.plan, l.locksPlace[lock], 1);
    SectionRoomy(l.net.Contents(), l.plan, l.locksPlace[lock], 1);
  }

  /** Under every policy, restarts included, no two of the lock's place and its
      critical places are ever marked together. */
  lemma LockAtMostOne(l: L.Lowering, lock: nat, m: Marking, p: nat, q: nat)
    requires l.Lowered() && lock < l.tdg.lockCount
    requires forall n: nat :: IsTask(l.tdg, n) ==> DistinctLocks(l.tdg.nodes[n].task)
    requires ValidNet(l.net.ToNet(l.parallelism)) && Reachable(l.net.ToNet(l.parallelism), m)
    requires p < |m| && q < |m| && m[p] > 0 && m[q] > 0
    requires p == l.locksPlace[lock] || IsCritical(l, lock, p)
    requires q == l.locksPlace[lock] || IsCritical(l, lock, q)
    ensures p == q && m[p] == 1
  {
    var net, within := l.net.ToNet(l.parallelism), Section(l.plan, l.locksPlace[lock]);
    LockDrains(l, lock);
    var configs: seq<Config>, steps: seq<Step> :| IsInitialRun(net, configs, steps) && configs[|steps|].marking == m;
    RunDrains(net, l.net.Contents(), within, configs, steps);
    ReachableIsValid(net, m);
    LockSection(l, lock, p);
    LockSection(l, lock, q);
    TokensAtLeast(m, within, p, |m|);
  }

  // ------------------------------------------------------- monitors of forks and joins

  /** No self-loop is at a node that has the index of a critical place of the lock;
      only that of a fork or join can be, whose index is that of its transition. */
  ghost predicate MonitorsSpare(l: L.Lowering, lock: nat)
    reads l
  {
    forall k: nat, p: nat :: L.LoopAt(l.tdg, l.ends, k, p) ==> !IsCritical(l, lock, p)
  }

  /** The strays of a section come from self-loops, and those from them. */
  lemma StraysIff(l: L.Lowering, r: nat)
    requires l.Lowered() && r < |l.plan.owners| && l.plan.owners[r].Resource?
    ensures (forall t: nat :: StraysPast(l.plan, r, t)) <==>
      forall k: nat, p: nat :: L.LoopAt(l.tdg, l.ends, k, p) && p != r ==> p !in Section(l.plan, r)
  {
    forall x | x in l.plan.strays && x.place in Section(l.plan, r)
      ensures exists k: nat, p: nat :: L.LoopAt(l.tdg, l.ends, k, p) && p != r && p in Section(l.plan, r)
    {
      assert StrayAt(l.plan, x);
    }
    forall k: nat, p: nat | L.LoopAt(l.tdg, l.ends, k, p) && p != r && p in Section(l.plan, r)
      ensures exists t: nat :: !StraysPast(l.plan, r, t)
    {
      assert L.Taken(l.plan, p);
      var t: nat :| Stray(t, p) in l.plan.strays;
      assert !StraysPast(l.plan, r, t);
    }
  }

  lemma LockStrays(l: L.Lowering, lock: nat)
    requires l.Lowered() && lock < |l.locksPlace|
    ensures (forall t: nat :: StraysPast(l.plan, l.locksPlace[lock], t)) <==> MonitorsSpare(l, lock)
  {
    var r := l.locksPlace[lock];
    StraysIff(l, r);
    forall p: nat
      ensures p in Section(l.plan, r) && p != r <==> IsCritical(l, lock, p)
    {
      LockSection(l, lock, p);
      if IsCritical(l, lock, p) {
        CriticalOwned(l, lock, p);
      }
    }
  }

  lemma CriticalOwned(l: L.Lowering, lock: nat, p: nat)
    requires l.Lowered() && lock < |l.locksPlace| && IsCritical(l, lock, p)
    ensures p != l.locksPlace[lock]
  {
    var n: nat, i: nat, j: nat :| InCriticalSection(l, lock, p, n, i, j);
    OwnerOfPlace(l, n, j);
  }

  /** Self-loops at tasks and empty nodes spare every lock. */
  lemma TaskLoopsSpare(l: L.Lowering, lock: nat)
    requires l.Lowered() && lock < |l.locksPlace| && NoControlLoops(l.tdg)
    ensures MonitorsSpare(l, lock)
  {
    forall k: nat, p: nat | L.LoopAt(l.tdg, l.ends, k, p)
      ensures !IsCritical(l, lock, p)
    {
      LoopIsLoose(l, k, p);
      if IsCritical(l, lock, p) {
        LockSection(l, lock, p);
        SectionGuarded(l.net.Contents(), l.plan, l.locksPlace[lock], p);
      }
    }
  }

  lemma LoopIsLoose(l: L.Lowering, k: nat, p: nat)
    requires l.Lowered() && NoControlLoops(l.tdg) && L.LoopAt(l.tdg, l.ends, k, p)
    ensures !Guarded(l.plan, p)
  {
    var n := l.tdg.edges[k].source;
    assert L.NodeAt(l.tdg, l.plan, l.ends, n);
    L.StartIsLoose(l.net.Contents(), l.tdg, l.plan, l.ends, n);
  }

  ghost predicate NoControlLoops(tdg: Tdg) {
    forall k :: 0 <= k < |tdg.edges| && tdg.edges[k].source == tdg.edges[k].target < |tdg.nodes| ==>
      !tdg.nodes[tdg.edges[k].source].ControlNode?
  }

  // ------------------------------------------------------------------ locks and restarts

  /** Lock i of task n is behind a lock that spins, or no task outranks n: no
      restart can send n back while it holds the lock. */
  ghost predicate Sheltered(tdg: Tdg, n: nat, i: nat) {
    (IsTask(tdg, n) && i >= SpinFree(tdg.nodes[n].task.locks)) || forall high: nat :: !Outranks(tdg, high, n)
  }

  /** No restart can lose the lock; this only looks at the task graph. */
  ghost predicate KeepsLock(tdg: Tdg, lock: nat) {
    tdg.policy.Restart? ==> forall n: nat, i: nat :: Asks(tdg, lock, n, i) ==> Sheltered(tdg, n, i)
  }

  /** Preemptions stay within the lock's section if the graph keeps the lock. */
  lemma KeptWithin(l: L.Lowering, lock: nat, t: nat)
    requires l.Lowered() && lock < l.tdg.lockCount && KeepsLock(l.tdg, lock)
    ensures PreemptsWithin(l.plan, l.locksPlace[lock], t)
  {
    if t < |l.plan.kinds| && l.plan.kinds[t].Preempting? {
      var k := l.plan.kinds[t];
      assert l.PreemptOk(l.plan, t);
      EntersWithout(l, lock, t);
      HoldsLock(l, lock, k.high, 2);
      HoldsLock(l, lock, k.low, k.pos);
      l.TaskChains(k.low);
    }
  }

  /** Otherwise some restart sends a task back from inside the section. */
  lemma LostOutside(l: L.Lowering, lock: nat) returns (t: nat)
    requires l.Lowered() && lock < l.tdg.lockCount && !KeepsLock(l.tdg, lock)
    ensures t < |l.plan.kinds| && l.plan.kinds[t].Preempting?
    ensures Holds(l.plan, l.locksPlace[lock], l.plan.kinds[t].low, l.plan.kinds[t].pos)
  {
    var n: nat, i: nat :| Asks(l.tdg, lock, n, i) && !Sheltered(l.tdg, n, i);
    var high: nat :| Outranks(l.tdg, high, n);
    l.TaskChains(n);
    var pos: nat := ReleasePos(|l.chains[n]|, i) - 1;
    assert l.AtLock(n, i, pos) && HoldsFor(l, lock, n, i, pos);
    HoldsLock(l, lock, n, pos);
    assert ValidTask(l.tdg, l.tdg.nodes[high].task);
    assert Preempting(high, n, pos) in l.plan.kinds;
    t :| t < |l.plan.kinds| && l.plan.kinds[t] == Preempting(high, n, pos);
  }

  /** In every reachable marking of a net whose graph keeps the lock and whose
      monitors spare it, under every policy, the lock's place and all its critical places hold exactly one token
      together. */
  lemma LockConserved(l: L.Lowering, lock: nat, m: Marking)
    requires l.Lowered() && lock < l.tdg.lockCount && KeepsLock(l.tdg, lock) && MonitorsSpare(l, lock)
    requires forall n: nat :: IsTask(l.tdg, n) ==> DistinctLocks(l.tdg.nodes[n].task)
    requires ValidNet(l.net.ToNet(l.parallelism)) && Reachable(l.net.ToNet(l.parallelism), m)
    ensures HoldsOne(m, Section(l.plan, l.locksPlace[lock]))
  {
    LockDrains(l, lock);
    LockStrays(l, lock);
    forall t: nat | t < |l.net.transitions|
      ensures MovesWithin(l.net.Contents(), t, Section(l.plan, l.locksPlace[lock]))
    {
      KeptWithin(l, lock, t);
    }
    ReachableConserves(l.net.ToNet(l.parallelism), l.net.Contents(), Section(l.plan, l.locksPlace[lock]), 1, m);
  }

  /** Mutual exclusion: exactly one of the lock's place and its critical places is
      marked, with one token. */
  lemma LockExclusion(l: L.Lowering, lock: nat, m: Marking) returns (p: nat)
    requires l.Lowered() && lock < l.tdg.lockCount && KeepsLock(l.tdg, lock) && MonitorsSpare(l, lock)
    requires forall n: nat :: IsTask(l.tdg, n) ==> DistinctLocks(l.tdg.nodes[n].task)
    requires ValidNet(l.net.ToNet(l.parallelism)) && Reachable(l.net.ToNet(l.parallelism), m)
    ensures p < |m| && m[p] == 1 && (p == l.locksPlace[lock] || IsCritical(l, lock, p))
    ensures forall q: nat :: q < |m| && q != p && (q == l.locksPlace[lock] || IsCritical(l, lock, q)) ==> m[q] == 0
  {
    var within := Section(l.plan, l.locksPlace[lock]);
    LockConserved(l, lock, m);
    ReachableIsValid(l.net.ToNet(l.parallelism), m);
    HoldsOneMeans(m, within);
    p :| OneMarked(m, within, p);
    LockSection(l, lock, p);
    forall q: nat | q < |m| && q != p && (q == l.locksPlace[lock] || IsCritical(l, lock, q))
      ensures m[q] == 0
    {
      LockSection(l, lock, q);
    }
  }

  /** A transition that takes from the section and gives nothing to it takes the
      lock's only token away. */
  lemma FiringLosesLock(l: L.Lowering, lock: nat, m: Marking, t: nat, p: nat)
    requires l.Lowered() && lock < l.tdg.lockCount && ValidNet(l.net.ToNet(l.parallelism))
    requires forall n: nat :: IsTask(l.tdg, n) ==> DistinctLocks(l.tdg.nodes[n].task)
    requires ValidMarking(l.net.ToNet(l.parallelism), m) && Enabled(l.net.ToNet(l.parallelism), m, t)
    requires t < |l.net.transitions| && Loses(l.net.Contents(), t, Section(l.plan, l.locksPlace[lock]), p)
    requires TokensIn(m, Section(l.plan, l.locksPlace[lock]), |m|) <= 1
    ensures TokensIn(FireMarking(l.net.ToNet(l.parallelism), m, t), Section(l.plan, l.locksPlace[lock]), |m|) == 0
  {
    var net, within := l.net.ToNet(l.parallelism), Section(l.plan, l.locksPlace[lock]);
    LockDrains(l, lock);
    FiringDrains(net, l.net.Contents(), within, m, t);
    FireMarkingValid(net, m, t);
    TokensNonNegative(FireMarking(net, m, t), within, |m|);
  }

  lemma RestartLoses(l: L.Lowering, lock: nat, t: nat)
    requires l.Lowered() && lock < l.tdg.lockCount && t < |l.plan.kinds| && l.plan.kinds[t].Preempting?
    requires Holds(l.plan, l.locksPlace[lock], l.plan.kinds[t].low, l.plan.kinds[t].pos)
    ensures exists p: nat :: Loses(l.net.Contents(), t, Section(l.plan, l.locksPlace[lock]), p)
  {
    var s, r, k := l.net.Contents(), l.locksPlace[lock], l.plan.kinds[t];
    HoldsLock(l, lock, k.high, 2);
    PreemptionInSection(s, l.plan, r, t);
    assert Loses(s, t, Section(l.plan, r), l.plan.chains[k.low][k.pos]);
  }

  /** A restart that sends a task back from inside a critical section takes the
      lock's only token away. */
  lemma RestartLosesLock(l: L.Lowering, lock: nat, m: Marking, t: nat)
    requires l.Lowered() && lock < l.tdg.lockCount && ValidNet(l.net.ToNet(l.parallelism))
    requires forall n: nat :: IsTask(l.tdg, n) ==> DistinctLocks(l.tdg.nodes[n].task)
    requires ValidMarking(l.net.ToNet(l.parallelism), m) && Enabled(l.net.ToNet(l.parallelism), m, t)
    requires t < |l.plan.kinds| && l.plan.kinds[t].Preempting?
    requires Holds(l.plan, l.locksPlace[lock], l.plan.kinds[t].low, l.plan.kinds[t].pos)
    requires TokensIn(m, Section(l.plan, l.locksPlace[lock]), |m|) <= 1
    ensures TokensIn(FireMarking(l.net.ToNet(l.parallelism), m, t), Section(l.plan, l.locksPlace[lock]), |m|) == 0
  {
    RestartLoses(l, lock, t);
    var p: nat :| Loses(l.net.Contents(), t, Section(l.plan, l.locksPlace[lock]), p);
    FiringLosesLock(l, lock, m, t, p);
  }

  /** If the graph or a monitor does not keep the lock some transition loses it. */
  lemma SomethingLoses(l: L.Lowering, lock: nat) returns (t: nat, p: nat)
    requires l.Lowered() && lock < l.tdg.lockCount && !(KeepsLock(l.tdg, lock) && MonitorsSpare(l, lock))
    ensures t < |l.net.transitions| && Loses(l.net.Contents(), t, Section(l.plan, l.locksPlace[lock]), p)
  {
    if !KeepsLock(l.tdg, lock) {
      t := LostOutside(l, lock);
      RestartLoses(l, lock, t);
      p :| Loses(l.net.Contents(), t, Section(l.plan, l.locksPlace[lock]), p);
    } else {
      LockStrays(l, lock);
      t :| !StraysPast(l.plan, l.locksPlace[lock], t);
      var x :| x in l.plan.strays && x.transition == t && x.place in Section(l.plan, l.locksPlace[lock]);
      p := x.place;
      StrayInSection(l.net.Contents(), l.plan, l.locksPlace[lock], x);
    }
  }

  /** Every firing keeps the lock's token, wherever it is, if and only if the graph
      keeps the lock and the monitors spare it. */
  lemma LockKeptIff(l: L.Lowering, lock: nat)
    requires l.Lowered() && lock < l.tdg.lockCount && ValidNet(l.net.ToNet(l.parallelism))
    requires forall n: nat :: IsTask(l.tdg, n) ==> DistinctLocks(l.tdg.nodes[n].task)
    ensures KeepsLock(l.tdg, lock) && MonitorsSpare(l, lock) <==>
      forall m: Marking, t: nat :: FiresWithOne(l, lock, m, t) ==>
        HoldsOne(FireMarking(l.net.ToNet(l.parallelism), m, t), Section(l.plan, l.locksPlace[lock]))
  {
    var net, s, within := l.net.ToNet(l.parallelism), l.net.Contents(), Section(l.plan, l.locksPlace[lock]);
    LockDrains(l, lock);
    if KeepsLock(l.tdg, lock) && MonitorsSpare(l, lock) {
      LockStrays(l, lock);
      forall m: Marking, t: nat | FiresWithOne(l, lock, m, t)
        ensures HoldsOne(FireMarking(net, m, t), within)
      {
        KeptWithin(l, lock, t);
        FiringConserves(net, s, within, 1, m, t);
      }
    } else {
      var t, p := SomethingLoses(l, lock);
      var m := LosingMarking(l, lock, t, p);
      FiringLosesLock(l, lock, m, t, p);
    }
  }

  ghost predicate FiresWithOne(l: L.Lowering, lock: nat, m: Marking, t: nat)
    requires l.Lowered() && lock < l.tdg.lockCount && ValidNet(l.net.ToNet(l.parallelism))
    reads l, l.net
  {
    && ValidMarking(l.net.ToNet(l.parallelism), m) && Enabled(l.net.ToNet(l.parallelism), m, t)
    && HoldsOne(m, Section(l.plan, l.locksPlace[lock]))
  }

  /** One token in the place of the section that t takes from, none in the rest of
      it, one everywhere else: t is enabled. */
  lemma LosingMarking(l: L.Lowering, lock: nat, t: nat, x: nat) returns (m: Marking)
    requires l.Lowered() && lock < l.tdg.lockCount && ValidNet(l.net.ToNet(l.parallelism))
    requires forall n: nat :: IsTask(l.tdg, n) ==> DistinctLocks(l.tdg.nodes[n].task)
    requires t < |l.net.transitions| && Loses(l.net.Contents(), t, Section(l.plan, l.locksPlace[lock]), x)
    ensures FiresWithOne(l, lock, m, t)
  {
    var net, s := l.net.ToNet(l.parallelism), l.net.Contents();
    var within := Section(l.plan, l.locksPlace[lock]);
    LockDrains(l, lock);
    assert x in In(s, t) * within;
    m := seq(|s.places|, p requires 0 <= p < |s.places| => if p in within && p != x then 0 else 1);
    NoTokens(m[x := 0], within, |m|);
    TokensChange(m[x := 0], within, x, 1, |m|);
    assert m[x := 0][x := 1] == m;
    forall p: nat | p in In(s, t)
      ensures m[p] == 1
    {
      assert p in within ==> p in In(s, t) * within;
    }
    EnabledIff(net, s, m, t);
  }

  /** A lock once lost is lost for good: along any run from a marking in which its
      place and its critical places are empty they stay empty, and no task can take
      the lock. */
  lemma LostForGood(l: L.Lowering, lock: nat, configs: seq<Config>, steps: seq<Step>, n: nat, i: nat)
    requires l.Lowered() && lock < l.tdg.lockCount && ValidNet(l.net.ToNet(l.parallelism))
    requires forall n: nat :: IsTask(l.tdg, n) ==> DistinctLocks(l.tdg.nodes[n].task)
    requires IsRun(l.net.ToNet(l.parallelism), configs, steps)
    requires ValidMarking(l.net.ToNet(l.parallelism), configs[0].marking)
    requires TokensIn(configs[0].marking, Section(l.plan, l.locksPlace[lock]), |l.net.places|) == 0
    requires Asks(l.tdg, lock, n, i)
    ensures |configs[|steps|].marking| == |l.net.places|
    ensures forall p: nat :: p < |l.net.places| && (p == l.locksPlace[lock] || IsCritical(l, lock, p)) ==>
      configs[|steps|].marking[p] == 0
    ensures AcquirePos(i) < |l.chains[n]|
    ensures !Enabled(l.net.ToNet(l.parallelism), configs[|steps|].marking, l.chains[n][AcquirePos(i)])
  {
    var net, s, r := l.net.ToNet(l.parallelism), l.net.Contents(), l.locksPlace[lock];
    var within, m := Section(l.plan, r), configs[|steps|].marking;
    LockDrains(l, lock);
    RunDrains(net, s, within, configs, steps);
    RunIsValid(net, configs, steps);
    TokensNonNegative(m, within, |m|);
    forall p: nat | p < |m| && (p == r || IsCritical(l, lock, p))
      ensures m[p] == 0
    {
      LockSection(l, lock, p);
    }
    l.TaskChains(n);
    var b := Bond(r, n, AcquirePos(i), ReleasePos(|l.chains[n]|, i));
    assert l.IsLockBond(b, i);
    assert l.MadeBond(b, l.CpuNodes(), |l.tdg.nodes|, 0);
    var t := l.chains[n][AcquirePos(i)];
    assert ChainAt(l.plan, n, AcquirePos(i));
    SectionArcs(s, l.plan, r, t, r);
    assert Binds(l.plan, n, true, AcquirePos(i), r);
    if Enabled(net, m, t) {
      EnabledTakes(net, s, m, t, r);
      assert false;
    }
  }

  // ----------------------------------------------------------------------- processors

  lemma CoreOfBond(l: L.Lowering, core: nat, b: Bond)
    requires l.Lowered() && core < |l.cpusPlace| && b in l.plan.bonds && b.resource == l.cpusPlace[core]
    ensures l.IsCpuBond(b) && l.tdg.nodes[b.node].task.core == core
  {
    assert l.MadeBond(b, l.CpuNodes(), |l.tdg.nodes|, 0);
  }

  /** The tasks that hold a processor, and where they hold it. */
  lemma HoldsCore(l: L.Lowering, core: nat, n: nat, i: nat)
    requires l.Lowered() && core < |l.cpusPlace| && IsTask(l.tdg, n) && n < |l.chains|
    ensures Holds(l.plan, l.cpusPlace[core], n, i) <==> l.tdg.nodes[n].task.core == core && 1 < i < |l.chains[n]| - 2
  {
    var r := l.cpusPlace[core];
    l.TaskChains(n);
    if Holds(l.plan, r, n, i) {
      var b :| b in l.plan.bonds && b.resource == r && b.node == n && b.acquire < i < b.release;
      CoreOfBond(l, core, b);
    }
    if l.tdg.nodes[n].task.core == core && 1 < i < |l.chains[n]| - 2 {
      var b := Bond(r, n, 1, |l.chains[n]| - 2);
      assert l.IsCpuBond(b);
      assert l.MadeBond(b, l.CpuNodes(), |l.tdg.nodes|, 0);
    }
  }

  lemma CoreSection(l: L.Lowering, core: nat, p: nat)
    requires l.Lowered() && core < |l.cpusPlace|
    ensures p in Section(l.plan, l.cpusPlace[core]) <==> p == l.cpusPlace[core] || IsExecuting(l, core, p)
  {
    var r := l.cpusPlace[core];
    assert OwnerAt(l.net.Contents(), l.plan, p);
    if p in Section(l.plan, r) && p != r {
      var n, j := l.plan.owners[p].node, l.plan.owners[p].pos;
      var b :| b in l.plan.bonds && b.resource == r && b.node == n && b.acquire < j < b.release;
      CoreOfBond(l, core, b);
      assert InExecution(l, core, p, n, j);
    }
    if IsExecuting(l, core, p) {
      var n: nat, j: nat :| InExecution(l, core, p, n, j);
      HoldsCore(l, core, n, j);
      assert ChainAt(l.plan, n, j);
    }
  }

  lemma CoreWellBound(l: L.Lowering, core: nat)
    requires l.Lowered() && core < |l.cpusPlace|
    ensures WellBound(l.plan, l.cpusPlace[core])
  {
    forall b | b in l.plan.bonds && b.resource == l.cpusPlace[core]
      ensures l.IsCpuBond(b) && b.acquire < b.release
    {
      CoreOfBond(l, core, b);
      l.TaskChains(b.node);
    }
  }

  /** Inside their execution, two tasks of one core hold the same processors. */
  lemma SameCoreHolds(l: L.Lowering, core: nat, high: nat, low: nat, pos: nat)
    requires l.Lowered() && core < |l.cpusPlace| && Outranks(l.tdg, high, low)
    requires 0 < pos && pos + 1 < |l.chains[low]| && pos % 2 == 0
    ensures Holds(l.plan, l.cpusPlace[core], low, pos) <==> Holds(l.plan, l.cpusPlace[core], high, 2)
  {
    hide L.Lowering.Lowered, Holds;
    TaskLength(l, low);
    TaskLength(l, high);
    HoldsCore(l, core, low, pos);
    HoldsCore(l, core, high, 2);
  }

  lemma TaskLength(l: L.Lowering, n: nat)
    requires l.Lowered() && IsTask(l.tdg, n)
    ensures n < |l.chains| && |l.chains[n]| == 6 * |l.tdg.nodes[n].task.locks| + 5
  {
    l.TaskChains(n);
  }

  /** A restart moves the processor's token from the task that is sent back to the
      one that enters. */
  lemma PreemptionKeepsCore(l: L.Lowering, core: nat, t: nat)
    requires l.Lowered() && core < |l.cpusPlace|
    ensures PreemptsWithin(l.plan, l.cpusPlace[core], t)
  {
    if t < |l.plan.kinds| && l.plan.kinds[t].Preempting? {
      var k := l.plan.kinds[t];
      assert l.PreemptOk(l.plan, t) && KindAt(l.plan, t);
      SameCoreHolds(l, core, k.high, k.low, k.pos);
    }
  }

  lemma CoreFacts(l: L.Lowering, core: nat)
    requires l.Lowered() && !l.tdg.policy.Resume? && core < l.tdg.numCpus
    ensures core < |l.cpusPlace| && Holding(l.plan, l.cpusPlace[core], l.tdg.coresPerCpu)
    ensures WellBound(l.plan, l.cpusPlace[core]) && forall t: nat :: PreemptsWithin(l.plan, l.cpusPlace[core], t)
  {
    CoreWellBound(l, core);
    forall t: nat
      ensures PreemptsWithin(l.plan, l.cpusPlace[core], t)
    {
      PreemptionKeepsCore(l, core, t);
    }
  }

  /** No self-loop is at a node that has the index of an execution place of the
      processor. */
  ghost predicate MonitorsSpareCore(l: L.Lowering, core: nat)
    reads l
  {
    forall k: nat, p: nat :: L.LoopAt(l.tdg, l.ends, k, p) ==> !IsExecuting(l, core, p)
  }

  /** Self-loops at tasks and empty nodes spare every processor. */
  lemma TaskLoopsSpareCore(l: L.Lowering, core: nat)
    requires l.Lowered() && core < |l.cpusPlace| && NoControlLoops(l.tdg)
    ensures MonitorsSpareCore(l, core)
  {
    forall k: nat, p: nat | L.LoopAt(l.tdg, l.ends, k, p)
      ensures !IsExecuting(l, core, p)
    {
      LoopIsLoose(l, k, p);
      if IsExecuting(l, core, p) {
        CoreSection(l, core, p);
        SectionGuarded(l.net.Contents(), l.plan, l.cpusPlace[core], p);
      }
    }
  }

  lemma CoreStrays(l: L.Lowering, core: nat)
    requires l.Lowered() && core < |l.cpusPlace| && MonitorsSpareCore(l, core)
    ensures forall t: nat :: StraysPast(l.plan, l.cpusPlace[core], t)
  {
    var r := l.cpusPlace[core];
    forall k: nat, p: nat | L.LoopAt(l.tdg, l.ends, k, p) && p != r
      ensures p !in Section(l.plan, r)
    {
      CoreSection(l, core, p);
    }
    StraysIff(l, r);
  }

  /** In every reachable marking of a net with resource places, restarts included, a
      processor's place and the places of its executing tasks together never hold
      more tokens than the processor has cores, and exactly as many if the places of
      tasks have room for them and the monitors spare them. */
  lemma CoreTokens(l: L.Lowering, core: nat, m: Marking)
    requires l.Lowered() && !l.tdg.policy.Resume? && core < l.tdg.numCpus
    requires ValidNet(l.net.ToNet(l.parallelism)) && Reachable(l.net.ToNet(l.parallelism), m)
    ensures core < |l.cpusPlace|
    ensures TokensIn(m, Section(l.plan, l.cpusPlace[core]), |m|) <= l.tdg.coresPerCpu
    ensures l.tdg.coresPerCpu <= l.tdg.capacity && MonitorsSpareCore(l, core) ==>
      TokensIn(m, Section(l.plan, l.cpusPlace[core]), |m|) == l.tdg.coresPerCpu
  {
    CoreFacts(l, core);
    NetIsValid(l);
    CoreAtMost(l, core, m);
    var k, r := l.tdg.coresPerCpu, l.cpusPlace[core];
    if k <= l.tdg.capacity && MonitorsSpareCore(l, core) {
      CoreStrays(l, core);
      hide L.Lowering.Lowered;
      SectionConserves(l.net.Contents(), l.plan, r, k);
      ReachableConserves(l.net.ToNet(l.parallelism), l.net.Contents(), Section(l.plan, r), k, m);
    }
  }

  lemma CoreAtMost(l: L.Lowering, core: nat, m: Marking)
    requires l.Lowered() && !l.tdg.policy.Resume? && core < l.tdg.numCpus
    requires ValidNet(l.net.ToNet(l.parallelism)) && Reachable(l.net.ToNet(l.parallelism), m)
    ensures core < |l.cpusPlace|
    ensures TokensIn(m, Section(l.plan, l.cpusPlace[core]), |m|) <= l.tdg.coresPerCpu
  {
    var net, s, k := l.net.ToNet(l.parallelism), l.net.Contents(), l.tdg.coresPerCpu;
    CoreFacts(l, core);
    NetIsValid(l);
    var r, within := l.cpusPlace[core], Section(l.plan, l.cpusPlace[core]);
    forall t: nat
      ensures PreemptsOut(l.plan, r, t)
    {
      assert PreemptsWithin(l.plan, r, t);
    }
    SectionDrains(s, l.plan, r, k);
    var configs: seq<Config>, steps: seq<Step> :| IsInitialRun(net, configs, steps) && configs[|steps|].marking == m;
    RunDrains(net, s, within, configs, steps);
  }

  /** With one core a processor exactly one of them is marked, with one token. */
  lemma CoreExclusion(l: L.Lowering, core: nat, m: Marking) returns (p: nat)
    requires l.Lowered() && !l.tdg.policy.Resume? && l.tdg.coresPerCpu == 1 && core < l.tdg.numCpus
    requires MonitorsSpareCore(l, core)
    requires ValidNet(l.net.ToNet(l.parallelism)) && Reachable(l.net.ToNet(l.parallelism), m)
    ensures p < |m| && m[p] == 1 && (p == l.cpusPlace[core] || IsExecuting(l, core, p))
    ensures forall q: nat :: q < |m| && q != p && (q == l.cpusPlace[core] || IsExecuting(l, core, q)) ==> m[q] == 0
  {
    var net, within := l.net.ToNet(l.parallelism), Section(l.plan, l.cpusPlace[core]);
    CoreTokens(l, core, m);
    ReachableIsValid(net, m);
    HoldsOneMeans(m, within);
    p :| OneMarked(m, within, p);
    CoreSection(l, core, p);
    forall q: nat | q < |m| && q != p && (q == l.cpusPlace[core] || IsExecuting(l, core, q))
      ensures m[q] == 0
    {
      CoreSection(l, core, q);
    }
  }

  /** Under the resume policy at most one transition of a core is active. */
  lemma OneActive(l: L.Lowering, m: Marking, t: nat, u: nat)
    requires l.Lowered() && l.tdg.policy.Resume?
    requires Active(l.net.ToNet(l.parallelism), m, t) && Active(l.net.ToNet(l.parallelism), m, u)
    requires l.net.transitions[t].core == l.net.transitions[u].core
    requires 0 <= l.net.transitions[t].core < l.tdg.numCpus
    ensures t == u
  {
    OneOnCore(l.net.ToNet(l.parallelism), m, t, u);
  }
}
