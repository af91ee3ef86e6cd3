/** A task graph whose deadline monitor takes a lock's token: the monitor of a join
    reads the index of the join's transition as that of a place, and that place is
    one in which a task holds the lock. */
module StrayMonitor {
  import opened Blueprint
  import opened Conservation
  import opened MutualExclusion
  import opened PetriNet
  import opened TaskGraph
  import opened Wiring
  import L = Lowering

  function Holder(): Task {
    Task(0, 1, [(0, 0), (4, 4), (1, 1)], [Lock(0, false)])
  }

  function Join(): Node {
    ControlNode(Immediate(), 0, -1)
  }

  /** Four joins, the last with a deadline, and a task with a lock; no restarts. */
  function Graph(): Tdg {
    Tdg(1, 1, 1, Resume, [Join(), Join(), Join(), Join(), TaskNode(Holder())],
        [Link(3, 3, false, Immediate(), 5)], [(4, 1)], [], [], 1)
  }

  function Joins(n: nat): Draft {
    Draft(Sketch([], [], seq(n, _ => Transition(Immediate(), 0, -1, false)), seq(n, _ => {}), seq(n, _ => {})),
          seq(n, _ => []), seq(n, i => (i, i)))
  }

  lemma {:induction false} JoinsDrawn(n: nat)
    requires n <= 4
    ensures NodeDrafts(Graph(), n) == Some(Joins(n))
  {
    if n > 0 {
      JoinsDrawn(n - 1);
      assert NodeDrafts(Graph(), n).value == Joins(n);
    } else {
      assert NodeDrafts(Graph(), 0).value == Joins(0);
    }
  }

  /** The chain of the task; position 6, where it holds the lock, is place 3. */
  function Chain(): seq<nat> {
    [0, 4, 1, 5, 2, 6, 3, 7, 4, 8, 5]
  }

  lemma HolderDrawn(v: Sketch)
    requires |v.places| == 0 && |v.transitions| == 4
    ensures var c := TaskStrand(v, Holder(), true, 1); c.chain == Chain() && |c.sketch.places| == 6
    ensures |TaskStrand(v, Holder(), true, 1).sketch.transitions| == 9
  {
    var c0 := Longer(Started(v, 1), StepTransition(Holder()), 1);
    var c1 := Segment(c0, Holder(), true, 1, 0);
    var c2 := Segment(c1, Holder(), true, 1, 1);
    var c3 := Segment(c2, Holder(), true, 1, 2);
    assert c0.chain == [0, 4, 1];
    assert c1.chain == [0, 4, 1, 5, 2, 6, 3];
    assert c2.chain == [0, 4, 1, 5, 2, 6, 3, 7, 4];
    assert Segments(c0, Holder(), true, 1, 0) == c0;
    assert Segments(c0, Holder(), true, 1, 1) == c1;
    assert Segments(c0, Holder(), true, 1, 2) == c2;
    assert Segments(c0, Holder(), true, 1, 3) == c3;
  }

  lemma NodesDrawn()
    ensures ValidTdg(Graph())
    ensures
      var d := NodeDrafts(Graph(), 5);
      && d.Some? && |d.value.chains| == |d.value.ends| == 5 && d.value.chains[4] == Chain() && d.value.ends[3] == (3, 3)
      && |d.value.sketch.places| == 6 && |d.value.sketch.transitions| == 9
  {
    JoinsDrawn(4);
    LastDrawn();
    assert NodeDrafts(Graph(), 5) == NodeDraft(Graph(), Joins(4), TaskNode(Holder()));
    hide NodeDrafts, NodeDraft, TaskStrand;
    HolderDrawn(Joins(4).sketch);
  }

  lemma LastDrawn()
    ensures
      var c := TaskStrand(Joins(4).sketch, Holder(), true, 1);
      NodeDraft(Graph(), Joins(4), TaskNode(Holder()))
        == Some(WithNode(Joins(4), c.sketch, c.chain, (At(c.chain, 0), At(c.chain, |c.chain| - 1))))
  {
    hide TaskStrand;
    assert Executable(Holder());
  }

  /** Where the nodes are, and that the graph is lowered without an error. */
  lemma GraphDrawn()
    ensures ValidTdg(Graph()) && Drawn(Graph()).Some?
    ensures
      var d := NodeDrafts(Graph(), 5);
      d.Some? && |d.value.chains| == |d.value.ends| == 5 && d.value.chains[4] == Chain() && d.value.ends[3] == (3, 3)
  {
    NodesDrawn();
    hide NodeDrafts, Finished, Chain;
    var d := NodeDrafts(Graph(), 5).value;
    assert EdgesDrawn(Graph(), d.sketch, d.ends, 0) == Some(d.sketch);
    assert EdgesDrawn(Graph(), d.sketch, d.ends, 1) == Monitored(d.sketch, 3, 3, 5);
  }

  ghost predicate IsLowered(l: L.Lowering)
    reads l, l.net
  {
    l.tdg == Graph() && l.Lowered() && l.AsDrawn()
  }

  method LowerGraph() returns (l: L.Lowering)
    ensures fresh(l) && IsLowered(l)
  {
    GraphDrawn();
    l := new L.Lowering(Graph());
    var ok := l.Transform();
  }

  /** No restart can lose the lock, but the monitor can. */
  lemma MonitorTakes(l: L.Lowering)
    requires IsLowered(l)
    ensures KeepsLock(l.tdg, 0) && !MonitorsSpare(l, 0) && l.tdg.lockCount == 1
    ensures forall n: nat :: IsTask(l.tdg, n) ==> DistinctLocks(l.tdg.nodes[n].task)
  {
    hide L.Lowering.Lowered, L.Lowering.AsDrawn, Graph;
    OneLock();
    HoldsAt(l);
  }

  lemma OneLock()
    ensures KeepsLock(Graph(), 0) && Graph().lockCount == 1
    ensures forall n: nat :: IsTask(Graph(), n) ==> DistinctLocks(Graph().nodes[n].task)
  {
  }

  lemma HoldsAt(l: L.Lowering)
    requires IsLowered(l)
    ensures !MonitorsSpare(l, 0)
  {
    GraphDrawn();
    hide Drawn, NodeDrafts, L.Lowering.Lowered;
    assert L.LoopAt(l.tdg, l.ends, 0, 3);
    assert Asks(l.tdg, 0, 4, 0);
    assert InCriticalSection(l, 0, 3, 4, 0, 6);
    assert IsCritical(l, 0, 3);
  }

  /** From some marking with one token in the lock's section a firing leaves none. */
  lemma MonitorSteals(l: L.Lowering) returns (m: Marking, t: nat)
    requires IsLowered(l)
    ensures ValidNet(l.net.ToNet(l.parallelism)) && l.tdg.lockCount == 1 && FiresWithOne(l, 0, m, t)
    ensures TokensIn(FireMarking(l.net.ToNet(l.parallelism), m, t), Section(l.plan, l.locksPlace[0]), |m|) == 0
  {
    MonitorTakes(l);
    NetIsValid(l);
    hide KeepsLock, MonitorsSpare, L.Lowering.AsDrawn, Graph, DistinctLocks;
    var p;
    t, p := SomethingLoses(l, 0);
    m := LosingMarking(l, 0, t, p);
    FiringLosesLock(l, 0, m, t, p);
  }
}
