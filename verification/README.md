# State-class analysis of priority timed Petri nets

The analyser turns a timed Petri net into a finite graph of symbolic state
classes. A class is a marking together with a zone: a matrix of bounds on
differences of clocks (a difference bound matrix). Everything the tool reports is
read off that graph, and most nets come out of a lowering from task dependency
graphs. This project models that chain and proves what holds of it for every
input, every run and every reachable state.

**Zones** (`Bounds`, `Zones`, `Dbm`, `Walks`, `Saturation`). `Zones` gives a matrix
its meaning, the set of integer valuations that satisfy it, and proves the theory:
a closed matrix without negative diagonal has a solution, any partial solution
extends to a full one, every finite bound is attained and every infinite one is
truly unbounded, a canonical matrix is determined by its solutions. The class
`Dbm.DBM` has the in-place loops: Floyd-Warshall, the quadratic incremental
tightening that must give the same matrix as the cubic closure, extrapolation, and
the clock operations, each shown to be exact on solutions. `Walks` shows that
closed entries are weights of simple walks, which bounds them. `Saturation` redoes
the closure on 32-bit integers with the saturating addition, and says exactly when
no sum of it is cut off.

**One symbolic step** (`PetriNet`, `Scheduling`, `StateClasses`, `Semantics`,
`Symbolic`). `Semantics` is the concrete semantics: configurations with integer
clocks, delays that advance only the running clocks, firings that keep persistent
clocks and start the others at zero. `Symbolic` proves that elapsing and firing on
classes contain every concrete step, that firing is exact, that elapsing is exact when
no clock is frozen and otherwise, up to the latest bounds, the least zone around all
delayed configurations, and that the windows on edges start and end at values that occur.

**Exploration** (`Graph`, `Engine`, `Regions`, `Coverage`, `Termination`, `FrozenGap`). The class
`Engine.StateClassReachabilityGraph` is the worklist exploration with its hash and
marking indexes. `Coverage` states what a finished exploration says about all runs,
and `Termination` that it finishes. `Regions` shows that an extrapolated class only
adds configurations that no interval can tell from old ones, so that extrapolation
is exact as long as no clock is frozen. `FrozenGap` is a net with a frozen clock for
which it is not.

**Metrics** (`Adjacency`, `PathDp`, `Shortest`, `ResponseTime`, `Witness`, `Components`,
`Tarjan`, `SteadyRegion`, `Hyperperiod`, `Metrics`, `Detour`). The memoised path search, the
breadth-first witness and Tarjan's algorithm in both its forms (recursive, and
with explicit frames) are proved against what they compute on any graph.
`Metrics.MetricsAnalyzer` connects them with coverage: its response times bound
every activation of a task in every run, and its verdict is right about every run.
`Shortest` says exactly when the shortest path search returns the minimum, and `Detour`
is a net on which it does not.

**Lowering** (`TaskGraph`, `Ptpn`, `Wiring`, `Conservation`, `Blueprint`, `Lowering`,
`Built`, `Fragments`, `MutualExclusion`, `LostLock`, `StrayMonitor`). `Blueprint` is the
lowering as a function from task graphs to nets, and the class `Lowering.Lowering`, which
builds the net stage by stage on the mutable `Ptpn.PTPN`, is proved to build exactly that
net and to fail exactly where it is undefined. `Fragments` says what that net is,
transition by transition and by its arcs alone: which way every edge runs, what every
step of a task takes and gives, its timing, releases, consumers, monitors, restarts and
tokens, and that there is nothing else; `Built` follows the stages to get there. `Wiring`
is the invariant: every place and transition plays a known part, and the arcs at places
inside chains and at resources are exactly the ones that part must have. From it,
`MutualExclusion` derives that no lock is ever held twice, and, for a lock that nothing
can lose, that in every reachable marking exactly one of its place and its critical
places is marked; and the same for processors, with as many tokens as they have cores.
`LostLock` is a task graph of two tasks whose lock a
restart loses, and `StrayMonitor` one whose lock a deadline monitor takes.

Results worth knowing beside the positive ones:

- The closure's intermediate sums can saturate although the matrix is consistent
  and `(n - 1)` times its largest entry fits into 32 bits. On all consistent matrices
  of n clocks with entries in [-b, b] they are the true sums if and only if
  `2 (n - 1) b` is below the sentinel (`Saturation.SumsFitIff`; n = 3 in
  `Saturation.SumsMaySaturate`). The closure itself is right all the same
  (`Saturation.DBM32.Minimize`).
- Under the restart policy a lock can be lost. Whether it can is decided by the task
  graph (`MutualExclusion.KeepsLock`): it is kept if every task that asks for it is
  outranked by no task of its core, or asks for a lock that spins no later than for
  this one. Exactly then, monitors of forks and joins apart (next item), every firing
  keeps the lock's token, wherever it is (`MutualExclusion.LockKeptIff`), and then the
  lock and its critical places hold one token in every reachable marking, under every
  policy (`MutualExclusion.LockExclusion`). Otherwise some restart takes the token away
  (`MutualExclusion.RestartLosesLock`), for
  good: the section stays empty along every run and no task can take the lock again
  (`MutualExclusion.LostForGood`). `LostLock.LockIsLost` is a reachable marking in which
  that has happened. Two holders at once are never possible
  (`MutualExclusion.LockAtMostOne`).
- The deadline monitor of a fork or join takes the index of its transition for that of
  a place (`src/tdg2pn/tdg2pn.cpp:843-853`). If that is a place in which a task holds a
  lock, the monitor can take the lock's token under every policy. A lock is spared
  exactly if no self-loop is at a node with such an index
  (`MutualExclusion.MonitorsSpare`, the other half of `MutualExclusion.LockKeptIff`),
  and always if only tasks and empty nodes have self-loops
  (`MutualExclusion.TaskLoopsSpare`). `StrayMonitor.MonitorTakes` is a graph of four
  joins and one task for which it is not.
- The documentation says extrapolation preserves the set of reachable markings exactly
  (`src/analysis/dbm.h:59-65`). As long as no stored class freezes a clock the stored
  markings are exactly the reachable ones, with extrapolation or without; with frozen
  clocks no reachable marking is lost, but more can be stored
  (`Coverage.MarkingsOfGraph`). `FrozenGap.FrozenStoresMore` is a net of four
  transitions where every finished graph stores a marking that no run reaches, in every
  mode and without extrapolation as well: elapsing forgets how a stopped clock is
  related to a running one.
- The deadline monitor passes a place index where a transition index belongs
  (`src/tdg2pn/tdg2pn.cpp:840`), and the model does the same. Either the lowering fails,
  or the transition that has the index of the "ok" place takes from the deadline place
  from then on, an older one that has nothing to do with it if there is one
  (`Blueprint.MonitorMisplaced`). The lock and processor invariants survive that.
- A restart likewise uses a chain position as a transition index when it marks the
  segment that holds a lock suspendable (`src/tdg2pn/tdg2pn.cpp:906-911`): exactly the
  older transitions whose index is such a position get marked (`Blueprint.HoldingMarks`),
  so the segment's own is marked only if its index happens to be one
  (`Blueprint.SegmentMarked`). On the graph of `LostLock` the segment is not, and the
  periodic release of the other task is (`LostLock.MarksTheRelease`).
- An exploration reports itself truncated exactly when it has reached its state limit,
  even if nothing was left to explore (`Engine.StateClassReachabilityGraph.Build`).
- On a graph with a cycle of in-flight states the shortest path search can return too
  much, because a value is remembered while a vertex of the cycle is under
  construction. For given edges and starting states it returns the minimum for all
  finite weights if and only if no direct path from a start to a completion uses an edge
  that the search skips because its target is under construction, and which edges it
  skips does not depend on the weights (`Shortest.ShortestIff`, `Shortest.SkippedSame`).
  That is so if every cycle can only be entered at one state
  (`Shortest.SingleEntryAvoids`). `Detour.MissesDetour` is a net of four places and one
  token where it is not: the analyser reports 10 (`Detour.ReportsTen`), and a run takes
  5 (`Detour.DetourTaken`).

## Model

| member | source | states |
|---|---|---|
| Zones.Extend | src/analysis/dbm.cpp:111-136 | the extension lemma: in a closed matrix any valuation of some clocks that meets the bounds among them extends to a solution |
| Zones.Realize | src/analysis/dbm.cpp:89-136 | in a closed matrix every value between -m[j][i] and m[i][j] is the difference of clocks i and j in some solution: finite bounds are attained, infinite ones unbounded |
| Zones.ClosedHasSolution | src/analysis/dbm.cpp:89-109 | a closed matrix, whose diagonal is non-negative, has an integer solution with reference value 0 |
| Zones.PhaseSat | src/analysis/dbm.cpp:116-132 | one round of the closure keeps exactly the solutions |
| Zones.PartialClosureStep | src/analysis/dbm.cpp:111-136 | after round k the matrix is closed over the first k + 1 clocks as long as no diagonal entry is negative |
| Zones.CloseUnique | src/analysis/dbm.cpp:111-136 | all closures of a consistent matrix are one matrix |
| Zones.CanonicalUnique | src/analysis/canonicalization.cpp:16-21 | two canonical matrices with the same solutions are equal entry by entry |
| Zones.InclusionIsSemantic | src/analysis/dbm.cpp:476-496 | on a canonical left side the entrywise comparison is inclusion of solution sets |
| Zones.TightenIsClose | src/analysis/dbm.cpp:148-192 | the quadratic update equals the full closure of the matrix with the one entry set |
| Zones.TightenSat | src/analysis/dbm.cpp:148-192 | the tightened matrix has exactly the solutions that also meet the new bound |
| Zones.TightenEmpty | src/analysis/dbm.cpp:160-168 | bound plus opposite entry is negative iff no solution meets the new bound |
| Zones.ExtrapolateCorrect | src/analysis/dbm.cpp:415-447 | the extrapolated zone is canonical, contains the old one, and leaves upper bounds up to k as they were |
| Zones.ReindexExact | src/analysis/ptpn_analysis.cpp:254-305 | every solution of a reindexed zone is the projection of a solution of the original: projection with copies is exact |
| Zones.ForgetExact | src/analysis/dbm.cpp:346-385 | forgetting a clock frees it above the reference and leaves the others exactly as they were |
| Dbm.DBM.Minimize | src/analysis/dbm.cpp:111-136 | the in-place triple loop yields a closure: same solutions, and non-negative diagonal iff there is one, in which case the matrix is closed |
| Dbm.DBM.MinimizeAndCheck | src/analysis/dbm.cpp:138-146 | true iff the old matrix has a solution |
| Dbm.DBM.IsConsistent | src/analysis/dbm.cpp:89-109 | true iff the matrix has a solution, without changing it |
| Dbm.DBM.Tighten | src/analysis/dbm.cpp:148-192 | for any matrix exactly the solutions that also meet the bound stay, and false means that there are none; on a canonical matrix it succeeds iff some solution meets the bound, and then holds the tightened canonical matrix |
| Dbm.DBM.Extrapolate | src/analysis/dbm.cpp:415-447 | the in-place relaxation, closed again if it changed anything, frozen clocks excepted; on a canonical matrix that is the extrapolated zone; nothing for negative k |
| Dbm.DBM.IncludedIn | src/analysis/dbm.cpp:476-496 | true iff the sizes agree and every entry is at most the other's |
| Dbm.DBM.Intersection | src/analysis/dbm.cpp:387-413 | refuses different sizes; otherwise the solutions are the common ones, and the diagonal tells whether there are any |
| Dbm.DBM.ResetClock | src/analysis/dbm.cpp:307-344 | for any matrix the clock's row and column become those of the reference, closed again if that changed anything; on a canonical one that is the zone in which the clock is a copy of the reference |
| Dbm.ResetSat | src/analysis/dbm.cpp:307-344 | what that means for any matrix: the clock equals the reference, and exactly the constraints that do not mention it stay |
| Dbm.ResetExact | src/analysis/dbm.cpp:307-344 | its solutions are those of the old zone with the clock set to the reference |
| Dbm.DBM.ForgetClock | src/analysis/dbm.cpp:346-385 | for any matrix the clock's row and column are freed, closed again if that changed anything; on a canonical one that is the forgotten zone; unfreezes the clock, and leaves the reference alone |
| Dbm.FreedSat | src/analysis/dbm.cpp:346-385 | what that means for any matrix: the clock is at or above the reference, and exactly the constraints that do not mention it stay |
| Dbm.DBM.RemoveClock | src/analysis/dbm.cpp:553-592 | drops row and column and renumbers the frozen clocks; out-of-range and reference indices change nothing |
| Dbm.RemoveExact | src/analysis/dbm.cpp:553-592 | its solutions are exactly the projections of the old ones |
| Dbm.DBM.RestrictClock | src/analysis/dbm.cpp:594-620 | for any matrix the solutions in the given range if there are any, in closed form, the empty matrix otherwise, and a plain copy for an index out of range |
| Saturation.SafeAddSound | src/analysis/dbm.cpp:17-28 | saturating addition is never below the true sum, and equals it when that fits |
| Saturation.RelaxedSame | src/analysis/dbm.cpp:116-132 | one saturating relaxation keeps exactly the solutions |
| Saturation.DBM32.Minimize | src/analysis/dbm.cpp:111-136 | keeps the solutions for all 32-bit inputs; on consistent matrices with (n - 1) times the largest entry below the maximum it equals the unbounded closure, and its sums were all the true ones iff the sums of the unbounded rounds fit |
| Saturation.SumsFitIff | src/analysis/dbm.cpp:17-28 | on all consistent matrices of n clocks with entries in [-b, b] no sum of the closure saturates iff 2 (n - 1) b is below the sentinel |
| Saturation.SumsMaySaturate | src/analysis/dbm.cpp:17-28 | three clocks and b = 2^30 - 1: the result is exact, a sum on the way is not |
| Walks.ShortestStep | src/analysis/dbm.cpp:111-136 | after each round every entry is the weight of a walk through the vertices seen so far, and not above any such walk |
| Walks.ClosureWithin | src/analysis/dbm.cpp:111-136 | entries of a consistent closure lie within (n - 1) times the largest entry |
| Walks.CycleRound | src/analysis/dbm.cpp:111-136 | on a cycle of n edges of weight b the bound is attained: (n - 1) b appears as soon as all inner vertices have had their round |
| PetriNet.IsEnabled | src/petri/petri.h:225-243 | the loop over input arcs decides whether every input place holds enough tokens |
| PetriNet.Fire | src/petri/petri.h:249-275 | consuming and producing arc by arc: a place that gets tokens has all of them if they fit its capacity and is exactly full otherwise; one that gets none loses what is taken |
| PetriNet.FiringMoves | src/petri/petri.h:249-275 | the same of the firing that the other results are about, from the arcs at the place |
| PetriNet.FullStaysFull | src/petri/petri.h:262-271 | a full place stays full under a transition that gives it at least what it takes |
| Conservation.StaysFull | src/petri/petri.h:262-271 | the same along every run |
| PetriNet.WindowMeans | src/petri/petri.h:44-66 | the integers between the effective bounds are those of the interval with its open ends |
| PetriNet.FireMarkingValid | src/petri/petri.h:249-275 | firing an enabled transition leaves no place negative |
| Scheduling.ComputeStructEnabled | src/analysis/scheduling.cpp:9-19 | lists exactly the enabled transitions, in order |
| Scheduling.FilterPriorityPerCore | src/analysis/scheduling.cpp:21-71 | lists exactly the active transitions in order; every listed one has a higher priority than an enabled one of its core that is not, or on a bounded core the same priority and a lower index |
| Scheduling.FilteredOut | src/analysis/scheduling.cpp:31-67 | by priorities and indices alone: who is filtered out comes behind everyone who is active on the core |
| Scheduling.FullyUsed | src/analysis/scheduling.cpp:50-67 | a bounded core that filters something out has exactly as many active transitions as its bound |
| Scheduling.SomeActive | src/analysis/scheduling.cpp:21-71 | a core with an enabled transition has an active one |
| Scheduling.AtMostBound | src/analysis/scheduling.cpp:50-68 | no bounded core has more active transitions than its bound |
| Scheduling.OneOnCore | src/analysis/scheduling.cpp:50-68 | two active transitions of a core bounded to one are the same |
| StateClasses.BuildLayout | src/analysis/ptpn_analysis.cpp:144-163 | variable vector and both index maps are the ones determined by the marking |
| StateClasses.LayoutFacts | src/analysis/ptpn_analysis.cpp:144-163 | the vector starts with the reference, repeats nothing, and has exactly the clocks of enabled and suspended transitions |
| StateClasses.LayoutOrdered | src/analysis/ptpn_analysis.cpp:144-163 | the variables are in the order of transitions, execution before suspension |
| Engine.StateClassReachabilityGraph.SetExtrapolation | src/analysis/ptpn_analysis.cpp:97-113 | k is the largest finite effective endpoint of any interval |
| Engine.StateClassReachabilityGraph.SetCanonicalizationMode | src/analysis/ptpn_analysis.cpp:93-95 | sets the merge mode, which starts as equality, and nothing else |
| Engine.StateClassReachabilityGraph.RecomputeSets | src/analysis/ptpn_analysis.cpp:128-142 | enabled, active and suspended sets, layout and indexes of the marking |
| Engine.StateClassReachabilityGraph.ComputeInitialClass | src/analysis/ptpn_analysis.cpp:165-184 | the initial class, whose zone is all zeros |
| Symbolic.InitialClassExact | src/analysis/ptpn_analysis.cpp:165-184 | it stands for exactly the initial configuration |
| Engine.StateClassReachabilityGraph.TimeElapse | src/analysis/ptpn_analysis.cpp:186-239 | the cell-by-cell release and cap, closed, is the elapsed class |
| Symbolic.ElapseTightest | src/analysis/ptpn_analysis.cpp:186-239 | frozen clocks or not, a configuration is in the elapsed class iff no active transition is late in it and it meets every bound on differences of clocks that all delayed configurations of the class meet |
| Semantics.DelayMeans | src/analysis/ptpn_analysis.cpp:186-239 | the execution clock of an enabled transition runs while it is active and stands still otherwise, when its suspension clock runs if it has one |
| Symbolic.ElapseGood | src/analysis/ptpn_analysis.cpp:186-239 | elapsing keeps zones canonical, clocks non-negative and execution clocks within their latest bounds |
| Symbolic.DelayInElapse | src/analysis/ptpn_analysis.cpp:186-239 | every allowed delay of every configuration of a class lands in the elapsed class |
| Symbolic.ElapseExact | src/analysis/ptpn_analysis.cpp:186-239 | without frozen clocks every configuration of the elapsed class is a delayed one of the class |
| Engine.StateClassReachabilityGraph.CheckFirable | src/analysis/ptpn_analysis.cpp:241-252 | active, and the elapsed zone allows the clock to reach its earliest bound |
| Engine.StateClassReachabilityGraph.BuildSuccessorZone | src/analysis/ptpn_analysis.cpp:254-305 | carrying over, pinning to zero and closing gives the fired zone reindexed by the source map |
| Engine.StateClassReachabilityGraph.Fire | src/analysis/ptpn_analysis.cpp:307-338 | succeeds exactly for firable transitions, with the successor class |
| Symbolic.SuccessorGood | src/analysis/ptpn_analysis.cpp:254-338 | successors are canonical, non-empty, with clocks within bounds |
| Symbolic.FireInSuccessor | src/analysis/ptpn_analysis.cpp:254-338 | every firing of a configuration of the class lands in the successor |
| Symbolic.FireExact | src/analysis/ptpn_analysis.cpp:254-338 | every configuration of the successor comes from firing one of the class: the zone is the exact image |
| Symbolic.NoTimelock | src/analysis/ptpn_analysis.cpp:193-252 | if a class enables anything, some transition is firable after elapsing |
| Symbolic.ExtrapolatedGood | src/analysis/ptpn_analysis.cpp:395-397 | extrapolating keeps a class good and loses no configuration |
| Symbolic.PostExact | src/analysis/ptpn_analysis.cpp:186-338 | without frozen clocks and extrapolation every configuration of a successor class is reached by one delay and one firing |
| Symbolic.EdgeSound | src/analysis/ptpn_analysis.cpp:454-480 | the firing and dwell windows of an edge contain the clock value and the delay of every concrete step |
| Regions.RelaxedNear | src/analysis/dbm.cpp:415-447 | every solution of the relaxed zone differs from one of the zone itself only in clocks that are k or above in both |
| Regions.StepAlike | src/analysis/dbm.h:59-65 | configurations that differ only in clocks at or above the largest constant can do the same steps and stay alike: values beyond it are indistinguishable |
| Engine.HashStateClass | src/analysis/state_class.cpp:32-48 | folding marking, variables and zone one after the other gives the hash as a function of them, so equal classes hash equally |
| Engine.StateClassReachabilityGraph.FindMatch | src/analysis/ptpn_analysis.cpp:340-368 | the bucket search succeeds iff some stored vertex matches, and returns one that does |
| Engine.StateClassReachabilityGraph.AddState | src/analysis/ptpn_analysis.cpp:370-382 | appends the class and keeps both indexes complete |
| Engine.StateClassReachabilityGraph.MakeEdge | src/analysis/ptpn_analysis.cpp:454-480 | computes the windows of an edge from the class before and after elapsing; what they are is stated by the next two |
| Symbolic.FiringExact | src/analysis/ptpn_analysis.cpp:454-466 | t can fire from the elapsed class at exactly the integers of the firing window |
| Symbolic.DwellExact | src/analysis/ptpn_analysis.cpp:467-477 | the greatest dwell is the greatest firing value minus the least value that t's clock shows in the class, infinite iff there is no greatest firing value; the least is the least firing value minus the greatest value the clock shows, not below 0, and 0 if there is none |
| Engine.StateClassReachabilityGraph.Branch | src/analysis/ptpn_analysis.cpp:440-498 | one transition of one vertex: it gets its edge if firable, to a match or to one new vertex, unless the limit is reached |
| Engine.StateClassReachabilityGraph.Expand | src/analysis/ptpn_analysis.cpp:406-505 | one vertex: all firable transitions get their edges unless truncated, new vertices come last |
| Engine.StateClassReachabilityGraph.Build | src/analysis/ptpn_analysis.cpp:384-520 | the invariant holds at the end with edges = states - 1 + hits and states at most max(1, limit); truncated iff the limit is reached, and otherwise every firable transition of every vertex has its edge |
| Graph.EqualityMeaning | src/analysis/canonicalization.cpp:16-21 | equality of classes is equality of the configurations they stand for |
| Graph.InclusionMeaning | src/analysis/canonicalization.cpp:23-28 | inclusion of classes is inclusion of the configurations they stand for |
| Graph.MergeKeeps | src/analysis/canonicalization.cpp:30-36 | merging loses no configuration in any mode |
| Graph.AddVertexInv | src/analysis/ptpn_analysis.cpp:487-498 | discovering a class keeps the invariant of the graph |
| Coverage.RunCovered | src/analysis/ptpn_analysis.cpp:384-520 | every concrete run is matched edge by edge from vertex 0: configurations in the zones, delays and clocks in the windows; in every mode, with or without extrapolation |
| Coverage.CoverFrom | src/analysis/ptpn_analysis.cpp:384-520 | the same from any vertex that contains the first configuration |
| Coverage.Exactness | src/analysis/ptpn_analysis.cpp:186-338 | without extrapolation and frozen clocks every configuration of every stored class is reached by a run |
| Coverage.NearExactness | src/analysis/dbm.h:59-65 | with extrapolation and no frozen clocks every configuration of every stored class is alike to one that a run reaches |
| Coverage.MarkingsOfGraph | src/analysis/dbm.h:59-65 | every reachable marking is stored, and if no stored class freezes a clock only reachable ones are, with extrapolation or without |
| FrozenGap.GapIsUnreachable | src/analysis/ptpn_analysis.cpp:186-239 | no run of a net with a frozen clock reaches the marking |
| FrozenGap.GapIsStored | src/analysis/ptpn_analysis.cpp:186-239 | every finished exploration of it stores that marking, in every mode, with or without extrapolation |
| FrozenGap.FrozenStoresMore | src/analysis/dbm.h:59-65 | so the stored markings can be more than the reachable ones when a stored class freezes a clock |
| Coverage.SinksAreDead | src/analysis/ptpn_analysis.cpp:440-449 | a vertex of a finished graph is a sink iff its marking enables nothing |
| Coverage.VertexReachable | src/analysis/ptpn_analysis.cpp:384-511 | every stored vertex is reached from the initial one along edges |
| Coverage.NoDuplicates | src/analysis/ptpn_analysis.cpp:340-368 | no two vertices stand for the same configurations, and under inclusion no vertex lies within an earlier one |
| Coverage.FreezeAlong | src/analysis/ptpn_analysis.cpp:193-239 | along any path on which a transition stays enabled but filtered out, its clock's lower bound never falls and its upper bound never rises |
| Termination.TokensBounded | src/petri/petri.h:249-275 | in every stored marking a place holds at most its initial tokens or its capacity |
| Termination.StoredBounds | src/analysis/dbm.cpp:415-447 | with extrapolation every finite stored bound lies within (n - 1) k |
| Termination.VerticesBounded | src/analysis/ptpn_analysis.cpp:402-511 | with extrapolation and finite capacities the number of vertices is bounded by the number of possible classes, in every mode |
| Termination.BuildCompletely | src/analysis/ptpn_analysis.cpp:384-520 | a limit above that number is never reached: the exploration ends complete |
| PathDp.PathSearch.Dfs | src/analysis/metrics.cpp:341-391 | the coloured memoised search keeps its invariant: finished vertices account for all their edges, with finishing order falling along edges of finite results; it returns and remembers what the recursive function says |
| PathDp.SettledMeans | src/analysis/metrics.cpp:341-391 | a longest result is infinite iff an in-flight cycle or an unbounded edge lies ahead, else it is the true maximum; a shortest result is the length of a real path, and the true minimum where no cycle lies ahead (Shortest.ShortestIff says exactly when) |
| PathDp.FiniteAcyclic | src/analysis/metrics.cpp:350-357 | a finite longest result means that no in-flight cycle lies ahead |
| PathDp.RunDp | src/analysis/metrics.cpp:341-402 | the same over all starting states |
| Shortest.ShortestIff | src/analysis/metrics.cpp:341-402 | for given edges and starts the search returns the minimum for all finite non-negative weights iff no direct path (simple, meeting no later start) uses an edge that the search skips because its target is under construction |
| Shortest.SkippedSame | src/analysis/metrics.cpp:350-357 | which edges are skipped does not depend on the weights |
| Shortest.AvoidsMinimum | src/analysis/metrics.cpp:341-402 | if no direct path uses a skipped edge the result is not above any completing path from any start, infinite weights included |
| Shortest.SingleEntryAvoids | src/analysis/metrics.cpp:350-357 | no direct path uses a skipped edge if every cycle can only be entered at one vertex |
| Detour.DetourComplete | src/analysis/ptpn_analysis.cpp:384-520 | the four classes and six edges given are a finished exploration of a net of four places and one token |
| Detour.MissesDetour | src/analysis/metrics.cpp:350-391 | on what is read off these classes, edges and markings for the task the search returns 10 although there is a completing path of length 5 |
| Detour.ReportsTen | src/analysis/metrics.cpp:341-402 | the analyser itself returns 10 on that graph |
| Detour.DetourTaken | src/analysis/metrics.cpp:341-402 | a run of the net completes an activation of the task after 5 |
| ResponseTime.FlattenGraph | src/analysis/metrics.cpp:92-119 | the adjacency list of a vertex is that of its edges |
| ResponseTime.OutOfOrdered | src/analysis/metrics.cpp:103-118 | they keep their order |
| ResponseTime.WeightMeans | src/analysis/metrics.cpp:452-468 | what an edge adds to each measure, by the enabled, active and suspendable transitions of its two markings |
| ResponseTime.OutOfMember | src/analysis/metrics.cpp:103-118 | an edge is listed at a vertex iff the graph has it there |
| ResponseTime.ReleaseStates | src/analysis/metrics.cpp:418-436 | lists exactly the states entered by a release of the task, and the initial one if it starts released |
| ResponseTime.SegmentPath | src/analysis/metrics.cpp:341-391 | a run segment from a release through in-flight states to the first completion is a completing path whose length bounds its cost |
| ResponseTime.MeasureSound | src/analysis/metrics.cpp:341-436 | a finite worst case is never exceeded by any activation of any run, and a best case that is the minimum over all completing paths is never undercut |
| Metrics.MetricsAnalyzer.ComputeTaskTiming | src/analysis/metrics.cpp:336-499 | exact on the graph: WCRT, interference, blocking and preemptions are infinite iff a release is unbounded for the measure, and else the length of a longest path from a release to a completion; BCRT is the larger of the BCET and what the shortest search finds; jitter and slack are their differences. Sound for runs: the worst cases bound every activation in every run; given a sound BCET, a finite WCRT makes BCRT and jitter sound, and BCRT is sound as well whenever the shortest search finds the minimum; slack of at least zero means every response meets the deadline |
| Metrics.MetricsAnalyzer.RunMeasure | src/analysis/metrics.cpp:341-402 | returns what the search says, and the same soundness for one measure: a finite worst case bounds every activation, and a best case does where the search finds the minimum |
| Metrics.MetricsAnalyzer.SingleEntryFinds | src/analysis/metrics.cpp:341-402 | the search for the best case finds the minimum if every cycle of in-flight states can be entered at one state only |
| Metrics.MetricsAnalyzer.ComputeStructural | src/analysis/metrics.cpp:249-286 | lists exactly the sinks with work to do |
| Metrics.MetricsAnalyzer.SinkIff | src/analysis/metrics.cpp:266-269 | a vertex has no edges iff its marking enables nothing |
| Metrics.MetricsAnalyzer.ComputeSchedulability | src/analysis/metrics.cpp:288-334 | a positive verdict means no run misses a deadline or gets stuck with work to do, and is exact for an exact graph; the reported path is a shortest one to a miss, and absent iff there is none |
| Metrics.MetricsAnalyzer.ComputeUtilisation | src/analysis/metrics.cpp:585-651 | there is a steady cycle iff the graph has a cycle, the size is that of the largest component on one; without a cycle every run ends after fewer steps than there are states |
| Witness.FindWitness | src/analysis/metrics.cpp:288-331 | finds a route to a miss iff there is one, and no route to a miss is shorter |
| Witness.Nearest | src/analysis/metrics.cpp:306-322 | when a miss is first seen its distance is at most that of every route to a miss |
| Tarjan.Recursive | src/analysis/metrics.cpp:585-624 | two vertices get the same number iff each reaches the other |
| Tarjan.TarjanSearch.StrongConnect | src/analysis/metrics.cpp:594-619 | the recursive search keeps the invariant and leaves a bound for its caller's lowlink |
| Tarjan.Iterative | rust/src/analysis/metrics.rs:736-789 | the same result with explicit frames |
| Tarjan.TarjanSearch.Turn | rust/src/analysis/metrics.rs:757-788 | one turn of the loop keeps the invariant and the frames in step with the vertices under construction, and makes progress |
| Components.AdvanceInv | src/analysis/metrics.cpp:600-607 | an edge to a visited vertex: only one on the stack lowers the bound |
| Components.LeaveInner | src/analysis/metrics.cpp:608-618 | leaving a vertex with a lower lowlink keeps the invariant and hands the lowlink on |
| Components.LeaveRoot | src/analysis/metrics.cpp:608-618 | the vertices popped at a root are exactly one component |
| Components.AllFinished | src/analysis/metrics.cpp:620-624 | when all vertices are visited the numbers are the components |
| SteadyRegion.LargestRecurrent | src/analysis/metrics.cpp:626-651 | counting and scanning find the largest component through which a cycle runs |
| SteadyRegion.RecurrentIff | src/analysis/metrics.cpp:631-644 | more than one member or an inner edge iff a cycle runs through the component |
| Hyperperiod.Gcd | rust/src/analysis/metrics.rs:100-109 | for any two integers, by absolute value, the loop returns a positive common divisor that is a sum of multiples of both, and 0 for two zeros |
| Hyperperiod.ComputeHyperperiod | src/analysis/metrics.cpp:570-578 | the least common multiple of all positive periods, 0 without any |
| Ptpn.PTPN.AddPlace | src/petri/petri.h:135-143 | a zero row and column, with matrices and sparse arcs still in agreement |
| Ptpn.PTPN.AddTransition | src/petri/petri.h:145-156 | the same for a transition |
| Ptpn.PTPN.SetPreArc | src/petri/petri.h:158-164 | sets one entry and rebuilds the sparse arcs; indices out of range change nothing |
| Ptpn.PTPN.RebuildSparseArcs | src/petri/petri.h:434-453 | the sparse arcs are the positive entries of the matrices, in place order |
| Ptpn.SparseExact | src/petri/petri.h:434-453 | the weight seen through the sparse arcs is the matrix entry if positive, else 0 |
| Conservation.FiringConserves | src/petri/petri.h:249-275 | if every transition moves at most one token within a set of places that can hold k, a set holding k tokens keeps holding k, saturation or not |
| Conservation.RunConserves | src/petri/petri.h:249-275 | the same along every run |
| Lowering.Lowering.AddExecutionChain | src/tdg2pn/tdg2pn.cpp:740-813 | entry, processor step, ready and then the segments with lock steps between, each at its chain position with its interval, priority, core and suspendability; fails iff there is no segment or an invalid one |
| Lowering.Lowering.AddNode | src/tdg2pn/tdg2pn.cpp:710-738 | exactly one new chain for a task, one transition with the node's interval, priority and core that cannot be suspended for a fork or join, one place of capacity 1 for an empty node, and where the node starts and ends; fails iff a task cannot be executed |
| Lowering.Lowering.HandleNormalEdge | src/tdg2pn/tdg2pn.cpp:504-567 | one arc at a fork or join, or one bridge with the edge's interval, and nothing else; fails iff both ends are forks or joins |
| Lowering.Lowering.AddMonitor | src/tdg2pn/tdg2pn.cpp:824-854 | exactly the four places, four transitions and up to nine arcs of the deadline monitor, with the deadline place's arc to the transition of the wrong index, and, at a fork or join, with the arcs from the place that has its transition's index, if there is one; fails iff there is no period or no such transition |
| Blueprint.MonitorMisplaced | src/tdg2pn/tdg2pn.cpp:840-841 | when that index exists, and that no other older transition changes |
| Blueprint.HoldingMarks | src/tdg2pn/tdg2pn.cpp:906-911 | after the restarts from holding a lock an older transition is suspendable iff it was or its index is one of the release positions, and is otherwise unchanged |
| Blueprint.SegmentMarked | src/tdg2pn/tdg2pn.cpp:906-911 | so the segment that holds the lock is marked iff it was or its index is one of them |
| LostLock.MarksTheRelease | src/tdg2pn/tdg2pn.cpp:906-911 | on the graph of two tasks that segment is not marked, and the periodic release of the other task is |
| Lowering.Lowering.AddRelease | src/tdg2pn/tdg2pn.cpp:219-230 | exactly a marked period place whose transition puts one token into the entry each period and gives its own back |
| Lowering.Lowering.AddConsumeTransition | src/tdg2pn/tdg2pn.cpp:161-165 | a transition that only takes from the exit |
| Lowering.Lowering.TasksOnCore | src/tdg2pn/tdg2pn.cpp:393-411 | the tasks of a core by falling priority, all of them and no others |
| Lowering.Lowering.PreemptTask | src/tdg2pn/tdg2pn.cpp:862-926 | all preempting transitions of a pair and no others: from ready, and from each lock-holding position before the first lock that spins |
| Lowering.Lowering.FixedPriorWithRestart | src/tdg2pn/tdg2pn.cpp:928-972 | the preempting transitions of every pair of a core of which one outranks the other |
| Lowering.Lowering.TaskBindCpuResource | src/tdg2pn/tdg2pn.cpp:615-636 | every task takes its core's place at its processor step and gives it back at its last segment |
| Lowering.Lowering.BindTaskLocks | src/tdg2pn/tdg2pn.cpp:663-708 | lock i is taken at chain position 5 + 4 i and given back at length - 4 - 2 i; the layout check never fails |
| Lowering.Lowering.Transform | src/tdg2pn/tdg2pn.cpp:287-346 | succeeds iff the graph determines a net, and then has built that net, wired as planned, with all processors and locks bound and with exactly the preempting transitions of the restart policy; its arcs are stated by the rows of Fragments |
| Fragments.BridgeIs | src/tdg2pn/tdg2pn.cpp:504-567 | an undashed edge between two nodes that are no forks or joins has a transition of its own with the edge's interval, from the last place of the source to the first of the target, and, if a monitor takes it for its ok place, from that monitor's deadline place |
| Fragments.BridgeFires | src/tdg2pn/tdg2pn.cpp:548-567 | unless a monitor misreads its index, firing it moves one token from the last place of the source to the first of the target, and nothing else |
| Fragments.ControlIs | src/tdg2pn/tdg2pn.cpp:504-547 | a fork or join is one transition with the node's interval, priority and core, from the last places of the nodes with an edge to it to the first of those it has an edge to |
| Fragments.ChainStepIs | src/tdg2pn/tdg2pn.cpp:591-813 | a transition of a task takes from the place before it and the resources bound there (its processor at the first transition, lock j at 5 + 4 j) and gives to the place after it and those given back there (the processor at the last, lock j at length - 4 - 2 j) |
| Fragments.SegmentTimed | src/tdg2pn/tdg2pn.cpp:740-813 | segment j of a task has the task's time, priority and core, and can be suspended under resume unless the lock at its position spins, or if a restart marks it |
| Fragments.StepsTimed | src/tdg2pn/tdg2pn.cpp:740-813 | the processor step and the steps that take locks take no time |
| Fragments.MonitorIs | src/tdg2pn/tdg2pn.cpp:824-854 | the four transitions of a self-loop's monitor, with all their arcs and times |
| Fragments.MisreadMeans | src/tdg2pn/tdg2pn.cpp:840-841 | a monitor's deadline place is an extra input of exactly the transition whose index is two above it |
| Fragments.NothingMisreadAt | src/tdg2pn/tdg2pn.cpp:840-841 | there is no such input in a graph without self-loops |
| Fragments.ReleaseIs | src/tdg2pn/tdg2pn.cpp:219-230 | a periodic task without a self-loop has a marked place whose transition gives its token back and one to the first place of the task, once a period |
| Fragments.ConsumerIs | src/tdg2pn/tdg2pn.cpp:161-165 | a task that ends or has no successor has a transition that takes from its last place and gives nothing |
| Fragments.StartTokens | src/tdg2pn/tdg2pn.cpp:167-179 | a place of a node or an edge starts with the tokens of the last starting binding of a task that begins there, and empty without one |
| Fragments.ResourceTokens | src/tdg2pn/tdg2pn.cpp:591-613 | a resource's place starts full |
| Fragments.NodePlaces | src/tdg2pn/tdg2pn.cpp:710-813 | the places of tasks hold as many tokens as the graph says, those of empty nodes one |
| Fragments.MonitorPlaces | src/tdg2pn/tdg2pn.cpp:824-830 | the four places of a monitor hold one |
| Fragments.ReleaseHolds | src/tdg2pn/tdg2pn.cpp:219-230 | and so does the place of a release |
| Fragments.RestartThere | src/tdg2pn/tdg2pn.cpp:862-926 | under the restart policy every outranked task is sent back by every task that outranks it, from ready and from holding each lock before the first that spins: from the first place of the one and the position of the other to ready of the one and the first place of the other |
| Fragments.LateMarks | src/tdg2pn/tdg2pn.cpp:862-926 | transitions of edges, releases and consumers are suspendable iff restarts mark them |
| Fragments.ControlMarks | src/tdg2pn/tdg2pn.cpp:862-926 | and so are forks and joins |
| Fragments.NothingElse | src/tdg2pn/tdg2pn.cpp:287-346 | every transition of the net is a step of a node, belongs to an edge, is a release or a consumer, or a restart under the restart policy |
| Wiring.ChainExtendWired | src/tdg2pn/tdg2pn.cpp:779-810 | growing a chain by a transition and a place keeps the wiring |
| Wiring.BondWired | src/tdg2pn/tdg2pn.cpp:663-708 | binding a resource to two chain transitions keeps the wiring |
| Wiring.PreemptWired | src/tdg2pn/tdg2pn.cpp:882-894 | adding a preempting transition keeps the wiring |
| Wiring.SectionConserves | src/tdg2pn/tdg2pn.cpp:663-708 | a resource of k tokens and the places between taking and giving it back form a set every transition moves at most one token within and that holds k at the start, if chains have room for k, preemptions stay within it and no stray arc takes from it |
| MutualExclusion.LockSection | src/tdg2pn/tdg2pn.cpp:23-29 | the critical places of a lock are the chain places between positions 5 + 4 i and length - 4 - 2 i |
| MutualExclusion.LockAtMostOne | src/tdg2pn/tdg2pn.cpp:663-813 | under every policy, restarts included, no two of a lock's place and its critical places are marked together, although task places saturate |
| MutualExclusion.LockConserved | src/tdg2pn/tdg2pn.cpp:663-813 | if the task graph keeps the lock and monitors spare it they hold exactly one token together in every reachable marking, under every policy |
| MutualExclusion.LockExclusion | src/tdg2pn/tdg2pn.cpp:663-813 | then exactly one of them is marked, with one token |
| MutualExclusion.LockKeptIff | src/tdg2pn/tdg2pn.cpp:815-926 | every firing keeps the lock's token, wherever it is, iff the task graph keeps the lock (every task that asks for it is not outranked on its core or asks for one that spins first) and monitors spare it (no self-loop is at a node that has the index of one of its critical places) |
| MutualExclusion.TaskLoopsSpare | src/tdg2pn/tdg2pn.cpp:843-853 | monitors spare every lock if no fork or join has a self-loop |
| MutualExclusion.TaskLoopsSpareCore | src/tdg2pn/tdg2pn.cpp:843-853 | the same for every processor |
| StrayMonitor.LowerGraph | src/tdg2pn/tdg2pn.cpp:287-346 | four joins, the last with a deadline, and a task with one lock are lowered without an error |
| StrayMonitor.MonitorTakes | src/tdg2pn/tdg2pn.cpp:843-853 | no restart can lose its lock, but the monitor does not spare it |
| StrayMonitor.MonitorSteals | src/tdg2pn/tdg2pn.cpp:843-853 | some firing in that net empties the lock's place and its critical places |
| MutualExclusion.RestartLosesLock | src/tdg2pn/tdg2pn.cpp:906-923 | firing a restart from inside a critical section leaves the lock's place and all its critical places empty |
| MutualExclusion.LostForGood | src/tdg2pn/tdg2pn.cpp:663-708 | they stay empty along every run, and no task that asks for the lock can take it |
| LostLock.GraphLoses | src/tdg2pn/tdg2pn.cpp:862-926 | a graph of two tasks of one core, the lower one with one lock, does not keep it |
| LostLock.LowerGraph | src/tdg2pn/tdg2pn.cpp:287-346 | that graph is lowered without an error |
| LostLock.LockIsLost | src/tdg2pn/tdg2pn.cpp:906-923 | its net reaches a marking in which the lock's place and its critical place are empty |
| LostLock.NeverTakenAgain | src/tdg2pn/tdg2pn.cpp:906-923 | from there on the transition that takes the lock is never enabled |
| MutualExclusion.CoreTokens | src/tdg2pn/tdg2pn.cpp:591-636 | in every reachable marking, restarts included, a processor's place and its tasks' execution places together hold at most as many tokens as it has cores, and exactly as many if task places have room for them and monitors spare them |
| MutualExclusion.CoreExclusion | src/tdg2pn/tdg2pn.cpp:591-636 | with one core a processor, exactly one of them is marked, with one token |
| MutualExclusion.OneActive | src/tdg2pn/tdg2pn.cpp:569-583 | under the resume policy at most one transition of a core is active |

## Left out

- Zones.ExtrapolateCorrect: about one zone; what extrapolation means for the reachable markings is stated by Regions.RelaxedNear and Coverage.MarkingsOfGraph.
- Coverage.MarkingsOfGraph: that no stored class freezes a clock is shown to be enough for exactness, not to be necessary; with frozen clocks the other half fails in general (FrozenGap.FrozenStoresMore), and the nets with frozen clocks for which it holds all the same are not characterised.
- Dbm.DBM.Tighten: on a matrix that is not closed a result of true does not say that there is a solution, since the one pass over the changed entry does not close it.
- Dbm.DBM.Intersection: does not carry frozen clocks, as the source does not either.
- Saturation.DBM32.Minimize: only the closure is redone on 32-bit integers; the other zone operations are modelled on unbounded integers.
- Engine.HashStateClass: the standard library's hash of an int is a parameter, so nothing is said about collisions; none of the results needs it.
- Engine.StateClassReachabilityGraph.SetExtrapolation: the constant is kept with the switch in one value, so that a constant without a switch cannot be expressed.
- PathDp.SettledMeans: where a cycle of in-flight states lies ahead a shortest result is only said to be the length of some path; when it is the minimum is stated by Shortest.ShortestIff.
- Metrics.MetricsAnalyzer.ComputeTaskTiming: the BCET that lifts the best case is taken as given; activation counts, in-flight maxima and names are not modelled.
- Lowering.Lowering.Transform: expects what loading has checked (segment counts, capacities, node references) and, unless the policy is resume, tasks only on existing processors; edge labels arrive parsed.
- MutualExclusion.LockExclusion: like the other statements about locks, needs each task to list a lock once; a task that lists it twice waits for itself.
- MutualExclusion.CoreTokens: with fewer tokens to a task place than cores to a processor, only the upper bound is stated, since a full task place swallows tokens.
- Range errors that the source reports by exceptions are preconditions in the zone and engine classes, and results in the lowering.
- Rows of a matrix are sequences instead of one flat vector; maps and vectors held by objects are values that their methods replace.
- Time is integer, as in the source; real-valued clocks are not considered.
- Names and identifiers of places, transitions and tasks are indices; hash containers are iterated in index order.
- JSON and `.ptpn` parsing, command line, logging, DOT, JSON and CTS writers and the Python scripts: input and output.
- The zone operations the exploration does not use: future, containment, synchronisation, elapsing with frozen clocks, freezing by hand.
- Recorded overflows, per-place token maxima, lock hold and wait sums, floating-point utilisation and busy fractions: coarse sums without a property of their own.
- The encoders for Romeo and for the Rust engine, and the Rust lowering, which repeats the C++ one.
- 64-bit overflow of path sums and hyperperiods.
