/** Task dependency graphs, and where a task's chain keeps its parts. */
module TaskGraph {
  import opened PetriNet

  datatype Lock = Lock(id: nat, spin: bool)

  datatype Task = Task(core: int, priority: int, times: seq<(int, int)>, locks: seq<Lock>)

  /** Fork and join nodes become one transition, empty ones one place. */
  datatype Node =
    | TaskNode(task: Task)
    | ControlNode(interval: Interval, priority: int, core: int)
    | EmptyNode

  /** interval is read off the edge label; period is what a self-loop's label
      says, negative if that is not a number. */
  datatype Link = Link(source: nat, target: nat, dashed: bool, interval: Interval, period: int)

  datatype Policy = Resume | Restart | OtherPolicy

  datatype Tdg = Tdg(
    numCpus: nat,
    coresPerCpu: int,
    capacity: int,
    policy: Policy,
    nodes: seq<Node>,
    edges: seq<Link>,
    starts: seq<(nat, int)>,
    ends: seq<nat>,
    periodic: seq<(nat, int)>,
    lockCount: nat)

  predicate IsTask(tdg: Tdg, n: nat) {
    n < |tdg.nodes| && tdg.nodes[n].TaskNode?
  }

  ghost predicate ValidTask(tdg: Tdg, task: Task) {
    && (!tdg.policy.Resume? ==> 0 <= task.core < tdg.numCpus)
    && |task.times| == 2 * |task.locks| + 1
    && forall i :: 0 <= i < |task.locks| ==> task.locks[i].id < tdg.lockCount
  }

  /** What loading a graph has checked. */
  ghost predicate ValidTdg(tdg: Tdg) {
    && tdg.coresPerCpu >= 1 && tdg.capacity >= 1
    && (forall n: nat :: IsTask(tdg, n) ==> ValidTask(tdg, tdg.nodes[n].task))
    && (forall n: nat :: n < |tdg.nodes| && tdg.nodes[n].ControlNode? ==> tdg.nodes[n].interval.Valid())
    && (forall k :: 0 <= k < |tdg.edges| ==> ValidLink(tdg, tdg.edges[k]))
    && (forall k :: 0 <= k < |tdg.starts| ==> IsTask(tdg, tdg.starts[k].0))
    && (forall k :: 0 <= k < |tdg.ends| ==> IsTask(tdg, tdg.ends[k]))
    && (forall k :: 0 <= k < |tdg.periodic| ==> IsTask(tdg, tdg.periodic[k].0) && tdg.periodic[k].1 >= 0)
  }

  ghost predicate ValidLink(tdg: Tdg, e: Link) {
    e.source < |tdg.nodes| && e.target < |tdg.nodes| && e.interval.Valid()
  }

  /** Two tasks of one core, the first with the higher priority. */
  predicate Outranks(tdg: Tdg, high: nat, low: nat) {
    && IsTask(tdg, high) && IsTask(tdg, low)
    && tdg.nodes[high].task.core == tdg.nodes[low].task.core
    && tdg.nodes[high].task.priority > tdg.nodes[low].task.priority
  }

  /** No task asks twice for the same lock. */
  ghost predicate DistinctLocks(task: Task) {
    forall i, j :: 0 <= i < j < |task.locks| ==> task.locks[i].id != task.locks[j].id
  }

  // ------------------------------------------------------------------ chain layout

  /** The chain transition that takes lock i. */
  function AcquirePos(i: nat): nat {
    5 + 4 * i
  }

  /** The chain transition that gives lock i back. */
  function ReleasePos(length: nat, i: nat): int {
    length - 4 - 2 * i
  }

  /** The length of a chain with k segments of a task with n locks. */
  function ChainLength(n: nat, k: nat): nat {
    3 + 2 * k + 2 * if k < n then k else n
  }

  /** The position of segment k. */
  function ExecPos(n: nat, k: nat): nat {
    ChainLength(n, k)
  }
}
