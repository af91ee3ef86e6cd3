/** The analyser: builds the state-class graph of a net, step by step. */
module Engine {
  import opened Bounds
  import opened Zones
  import opened Dbm
  import opened PetriNet
  import opened Scheduling
  import opened StateClasses
  import opened Symbolic
  import opened Graph

  // -------------------------------------------------------------------- hashing

  function Combine(seed: bv64, value: bv64): bv64 {
    seed ^ (value + 0x9e3779b97f4a7c15 + (seed << 6) + (seed >> 2))
  }

  function HashInts(h: int -> bv64, seed: bv64, values: seq<int>): bv64 {
    if values == [] then seed
    else Combine(HashInts(h, seed, values[..|values| - 1]), h(values[|values| - 1]))
  }

  /** Kind and transition of a variable; the reference variable has none. */
  function VarCode(x: ClockVar): seq<int> {
    match x
    case Zero => [0, 0xffff_ffff_ffff_ffff]
    case Execution(t) => [1, t]
    case Suspension(t) => [2, t]
  }

  function VarCodes(vars: seq<ClockVar>): seq<int> {
    if vars == [] then [] else VarCodes(vars[..|vars| - 1]) + VarCode(vars[|vars| - 1])
  }

  function BoundCode(b: Bound): int {
    if b.Inf? then 0x7fff_ffff else b.v
  }

  function RowCode(row: seq<Bound>): seq<int> {
    if row == [] then [] else RowCode(row[..|row| - 1]) + [BoundCode(row[|row| - 1])]
  }

  function RowCodes(rows: seq<seq<Bound>>): seq<int> {
    if rows == [] then [] else RowCodes(rows[..|rows| - 1]) + RowCode(rows[|rows| - 1])
  }

  /** The identity hash looks at the marking, the layout and the matrix only. */
  function HashOf(h: int -> bv64, marking: Marking, vars: seq<ClockVar>, zone: seq<seq<Bound>>): nat {
    HashInts(h, HashInts(h, HashInts(h, 0, marking), VarCodes(vars)), RowCodes(zone)) as nat
  }

  method FoldInts(h: int -> bv64, start: bv64, values: seq<int>) returns (seed: bv64)
    ensures seed == HashInts(h, start, values)
  {
    seed := start;
    for k := 0 to |values|
      invariant seed == HashInts(h, start, values[..k])
    {
      assert values[..k + 1][..k] == values[..k];
      seed := Combine(seed, h(values[k]));
    }
    assert values[..|values|] == values;
  }

  method HashStateClass(h: int -> bv64, s: StateClass) returns (hash: nat)
    ensures hash == HashOf(h, s.marking, s.clockVars, s.zone)
  {
    var seed := FoldInts(h, 0, s.marking);
    seed := FoldInts(h, seed, VarCodes(s.clockVars));
    seed := FoldInts(h, seed, RowCodes(s.zone));
    hash := seed as nat;
  }

  // ------------------------------------------------------------------ the index

  /** Each key leads to the positions of some stored classes. */
  ghost predicate Buckets<K>(index: map<K, seq<nat>>, n: nat) {
    forall key, j :: key in index && 0 <= j < |index[key]| ==> index[key][j] < n
  }

  ghost predicate Listed<K>(index: map<K, seq<nat>>, key: K, v: nat) {
    key in index && v in index[key]
  }

  ghost predicate HashIndex(h: int -> bv64, vertices: seq<StateClass>, byHash: map<nat, seq<nat>>) {
    && Buckets(byHash, |vertices|)
    && forall v: nat :: v < |vertices| ==>
         Listed(byHash, HashOf(h, vertices[v].marking, vertices[v].clockVars, vertices[v].zone), v)
  }

  ghost predicate MarkingIndex(vertices: seq<StateClass>, byMarking: map<Marking, seq<nat>>) {
    && Buckets(byMarking, |vertices|)
    && forall v: nat :: v < |vertices| ==> Listed(byMarking, vertices[v].marking, v)
  }

  lemma ListedGrows<K>(index: map<K, seq<nat>>, key: K, n: nat, other: K, v: nat)
    requires Listed(index, other, v)
    ensures
      var bucket: seq<nat> := if key in index then index[key] else [];
      Listed(index[key := bucket + [n]], other, v)
  {
  }

  lemma HashIndexGrows(h: int -> bv64, vertices: seq<StateClass>, byHash: map<nat, seq<nat>>, s: StateClass, key: nat)
    requires HashIndex(h, vertices, byHash) && key == HashOf(h, s.marking, s.clockVars, s.zone)
    ensures
      var bucket: seq<nat> := if key in byHash then byHash[key] else [];
      HashIndex(h, vertices + [s], byHash[key := bucket + [|vertices|]])
  {
    forall v: nat | v < |vertices|
      ensures
        var bucket: seq<nat> := if key in byHash then byHash[key] else [];
        Listed(byHash[key := bucket + [|vertices|]],
          HashOf(h, vertices[v].marking, vertices[v].clockVars, vertices[v].zone), v)
    {
      ListedGrows(byHash, key, |vertices|, HashOf(h, vertices[v].marking, vertices[v].clockVars, vertices[v].zone), v);
    }
  }

  lemma MarkingIndexGrows(vertices: seq<StateClass>, byMarking: map<Marking, seq<nat>>, s: StateClass)
    requires MarkingIndex(vertices, byMarking)
    ensures
      var bucket: seq<nat> := if s.marking in byMarking then byMarking[s.marking] else [];
      MarkingIndex(vertices + [s], byMarking[s.marking := bucket + [|vertices|]])
  {
    forall v: nat | v < |vertices|
      ensures
        var bucket: seq<nat> := if s.marking in byMarking then byMarking[s.marking] else [];
        Listed(byMarking[s.marking := bucket + [|vertices|]], vertices[v].marking, v)
    {
      ListedGrows(byMarking, s.marking, |vertices|, vertices[v].marking, v);
    }
  }

  // ------------------------------------------------------- matrices in progress

  /** Entries after the release loop of time elapse. */
  ghost function ReleasedEntry(net: Net, s: StateClass, i: nat, j: nat): Bound
    requires IsClass(net, s) && i < |s.zone| && j < |s.zone|
  {
    if RunsAt(net, s, i) && !RunsAt(net, s, j) then Inf else s.zone[i][j]
  }

  ghost function ReleasedRow(net: Net, s: StateClass, i: nat): (r: seq<Bound>)
    requires IsClass(net, s) && i < |s.zone|
    ensures |r| == |s.zone| && forall j: nat {:trigger r[j]} :: j < |r| ==> r[j] == ReleasedEntry(net, s, i, j)
  {
    seq(|s.zone|, j requires 0 <= j < |s.zone| => ReleasedEntry(net, s, i, j))
  }

  ghost function ReleasedZone(net: Net, s: StateClass): (r: Matrix)
    requires IsClass(net, s)
    ensures |r| == |s.zone|
    ensures forall i: nat, j: nat {:trigger r[i][j]} :: i < |r| && j < |r| ==>
      r[i][j] == ReleasedEntry(net, s, i, j)
  {
    seq(|s.zone|, i requires 0 <= i < |s.zone| => ReleasedRow(net, s, i))
  }

  /** The deadlines of the first k active transitions are in place. */
  ghost predicate CapProgress(net: Net, s: StateClass, now: Matrix, k: nat) {
    && IsClass(net, s) && k <= |s.priorityEnabled| && |now| == |s.zone|
    && forall i: nat, j: nat :: i < |now| && j < |now| ==>
         now[i][j] == if j == 0 && s.clockVars[i].Execution? && s.clockVars[i].transition in s.priorityEnabled[..k]
                      then RelaxedEntry(net, s, i, j) else ReleasedZone(net, s)[i][j]
  }

  lemma CapStep(net: Net, s: StateClass, now: Matrix, k: nat)
    requires CapProgress(net, s, now, k) && k < |s.priorityEnabled|
    ensures Enabled(net, s.marking, s.priorityEnabled[k])
    ensures
      var t := s.priorityEnabled[k];
      var row := Row(net, s, t);
      CapProgress(net, s, Put(now, row, 0, Min(now[row][0], Latest(net, t))), k + 1)
  {
    var t := s.priorityEnabled[k];
    assert t in s.priorityEnabled;
    var row := Row(net, s, t);
    LayoutFacts(net, s.marking);
    assert s.priorityEnabled[..k + 1] == s.priorityEnabled[..k] + [t];
    assert t !in s.priorityEnabled[..k];
    var next := Put(now, row, 0, Min(now[row][0], Latest(net, t)));
    forall i: nat, j: nat | i < |now| && j < |now|
      ensures next[i][j] == if j == 0 && s.clockVars[i].Execution?
        && s.clockVars[i].transition in s.priorityEnabled[..k + 1]
                            then RelaxedEntry(net, s, i, j) else ReleasedZone(net, s)[i][j]
    {
      if i == row {
        assert s.clockVars[i] == Execution(t);
      } else {
        assert s.clockVars[i] != s.clockVars[row];
      }
    }
  }

  lemma CapDone(net: Net, s: StateClass, now: Matrix)
    requires CapProgress(net, s, now, |s.priorityEnabled|)
    ensures now == RelaxedZone(net, s)
  {
    var r := RelaxedZone(net, s);
    assert s.priorityEnabled[..|s.priorityEnabled|] == s.priorityEnabled;
    forall i: nat | i < |r|
      ensures now[i] == r[i]
    {
      forall j: nat | j < |r|
        ensures now[i][j] == r[i][j]
      {
        if s.clockVars[i].Execution? {
          assert s.clockVars[i].transition in s.priorityEnabled <==> Active(net, s.marking, s.clockVars[i].transition);
        }
      }
    }
  }

  /** src[i] is the source row of variable i, -1 for fresh clocks. */
  ghost predicate SourcesFor(src: seq<int>, sigma: seq<nat>, n: nat) {
    && |src| == |sigma| > 0 && src[0] == 0
    && (forall i :: 0 <= i < |src| ==> src[i] < n && sigma[i] < n && sigma[i] == if src[i] < 0 then 0 else src[i])
    && (forall i :: 0 <= i < |src| ==> src[i] >= -1)
  }

  /** The same for the first i variables; the others count as fresh. */
  ghost predicate SourcesUpTo(src: seq<int>, sigma: seq<nat>, n: nat, i: nat) {
    && |src| == |sigma| > 0 && src[0] == 0 && i <= |src|
    && (forall x :: 0 <= x < i ==> src[x] < n && sigma[x] < n && sigma[x] == if src[x] < 0 then 0 else src[x])
    && (forall x :: 0 <= x < |src| ==> src[x] >= -1)
    && (forall x :: i <= x < |src| ==> src[x] == -1)
  }

  /** The index maps of a class lead to the source of a variable. */
  lemma SourceRow(net: Net, source: StateClass, vars: seq<ClockVar>, t: nat, i: nat, row: int)
    requires IsClass(net, source) && |source.clockVars| > 0
    requires i < |vars| && !vars[i].Zero? && vars[i].transition < |net.transitions|
    requires row == if vars[i].Execution? then source.execClock[vars[i].transition]
      else source.suspClock[vars[i].transition]
    ensures -1 <= row < |source.clockVars|
    ensures SourceMap(vars, source.clockVars, t)[i] == if vars[i].transition != t && row > 0 then row else 0
  {
    LayoutFacts(net, source.marking);
    var x := vars[i];
    assert x == ClockOf(x.Suspension?, x.transition);
    if x in source.clockVars {
      assert row == IndexOf(source.clockVars, x);
    }
  }

  /** Surviving clocks keep their joint constraints; fresh ones are pinned to
      the reference variable; nothing is said between the two groups. */
  ghost function CarriedEntry(f: Matrix, src: seq<int>, i: nat, j: nat): Bound
    requires i < |src| && j < |src| && src[i] < |f| && src[j] < |f|
  {
    if src[i] >= 0 && src[j] >= 0 then f[src[i]][src[j]] else FreshEntry(i, j)
  }

  function FreshEntry(i: nat, j: nat): Bound {
    if i == j || i == 0 then Fin(0) else Inf
  }

  ghost function CarriedZone(f: Matrix, src: seq<int>): (r: Matrix)
    requires forall i :: 0 <= i < |src| ==> src[i] < |f|
    ensures |r| == |src|
    ensures forall i: nat, j: nat {:trigger r[i][j]} :: i < |r| && j < |r| ==> r[i][j] == CarriedEntry(f, src, i, j)
  {
    seq(|src|, i requires 0 <= i < |src| => seq(|src|, j requires 0 <= j < |src| => CarriedEntry(f, src, i, j)))
  }

  ghost function PinnedZone(f: Matrix, src: seq<int>): (r: Matrix)
    requires forall i :: 0 <= i < |src| ==> src[i] < |f|
    ensures |r| == |src|
    ensures forall i: nat, j: nat {:trigger r[i][j]} :: i < |r| && j < |r| ==>
      r[i][j] == if j == 0 && src[i] < 0 then Fin(0) else CarriedEntry(f, src, i, j)
  {
    seq(|src|, i requires 0 <= i < |src| =>
      seq(|src|, j requires 0 <= j < |src| =>
        if j == 0 && src[i] < 0 then Fin(0) else CarriedEntry(f, src, i, j)))
  }

  /** The matrix that build_successor_zone hands to the closure has the solutions
      of the reindexed fired zone. */
  lemma PinnedSat(f: Matrix, src: seq<int>, sigma: seq<nat>, v: seq<int>)
    requires Canonical(f) && SourcesFor(src, sigma, |f|) && |v| == |src|
    requires IndicesInto(sigma, |f|)
    ensures Sat(PinnedZone(f, src), v) <==> Sat(Reindex(f, sigma), v)
  {
    var z, r := PinnedZone(f, src), Reindex(f, sigma);
    if Sat(r, v) {
      forall i: nat, j: nat | i < |z| && j < |z|
        ensures Holds(z, v, i, j)
      {
        assert Holds(r, v, i, j);
      }
    }
    if Sat(z, v) {
      forall i: nat, j: nat | i < |r| && j < |r|
        ensures Holds(r, v, i, j)
      {
        var i', j' := if src[i] < 0 then 0 else i, if src[j] < 0 then 0 else j;
        assert Holds(z, v, i', j');
        assert src[i] < 0 ==> Holds(z, v, i, 0) && Holds(z, v, 0, i);
        assert src[j] < 0 ==> Holds(z, v, j, 0) && Holds(z, v, 0, j);
      }
    }
  }

  lemma PinnedCloses(f: Matrix, src: seq<int>, sigma: seq<nat>)
    requires Canonical(f) && SourcesFor(src, sigma, |f|) && IndicesInto(sigma, |f|)
    ensures ZeroDiagonal(PinnedZone(f, src)) && HasSolution(PinnedZone(f, src))
    ensures Close(PinnedZone(f, src)) == Reindex(f, sigma)
  {
    var z, r := PinnedZone(f, src), Reindex(f, sigma);
    forall v
      ensures Sat(z, v) <==> Sat(r, v)
    {
      if |v| == |src| {
        PinnedSat(f, src, sigma, v);
      }
    }
    ReindexCanonical(f, sigma);
    var v := ClosedHasSolution(r);
    assert Sat(z, v);
    assert ZeroDiagonal(z);
    CanonicalUnique(Close(z), r);
  }

  // ---------------------------------------------------------------- the analyser

  class StateClassReachabilityGraph {
    const net: Net
    /** std::hash<int>, which the sources leave to the library. */
    const stdHash: int -> bv64

    var mode: Mode
    var extrapolation: Extrapolation

    var vertices: seq<StateClass>
    var edges: seq<GraphEdge>
    var byMarking: map<Marking, seq<nat>>
    var byHash: map<nat, seq<nat>>
    var totalStates: nat
    var totalTransitions: nat
    var dedupHits: nat
    var truncated: bool
    ghost var birth: seq<nat>

    constructor (net: Net, stdHash: int -> bv64)
      ensures this.net == net && mode == Equality && extrapolation == Off
    {
      this.net, this.stdHash := net, stdHash;
      mode, extrapolation := Equality, Off;
      vertices, edges, byMarking, byHash := [], [], map[], map[];
      totalStates, totalTransitions, dedupHits, truncated := 0, 0, 0, false;
    }

    method SetCanonicalizationMode(m: Mode)
      modifies this`mode
      ensures mode == m
    {
      mode := m;
    }

    /** k is the largest finite endpoint of any static interval. */
    method SetExtrapolation(enabled: bool)
      requires ValidNet(net)
      modifies this`extrapolation
      ensures extrapolation.UpTo? <==> enabled
      ensures ValidExtrapolation(net, extrapolation)
      ensures extrapolation.UpTo? && extrapolation.k > 0 ==>
        exists t: nat :: t < |net.transitions|
          && (Earliest(net, t) == extrapolation.k || Latest(net, t) == Fin(extrapolation.k))
    {
      if !enabled {
        extrapolation := Off;
        return;
      }
      var k := 0;
      for t := 0 to |net.transitions|
        invariant k >= 0
        invariant forall u: nat :: u < t ==> Earliest(net, u) <= k && (Latest(net, u).Fin? ==> Latest(net, u).v <= k)
        invariant k == 0 || exists u: nat :: u < t && (Earliest(net, u) == k || Latest(net, u) == Fin(k))
      {
        k := Max(k, Earliest(net, t));
        var latest := Latest(net, t);
        if latest.Fin? {
          k := Max(k, latest.v);
        }
      }
      extrapolation := UpTo(k);
    }

    /** The scheduler sets and the layout of a marking. */
    method RecomputeSets(m: Marking) returns (s: StateClass)
      requires ValidNet(net) && ValidMarking(net, m)
      ensures s == MakeClass(net, m, [])
    {
      var structEnabled := ComputeStructEnabled(net, m);
      var active := FilterPriorityPerCore(net, structEnabled, m);
      var suspended := ComputeSuspended(net, structEnabled, active, m);
      var vars, exec, susp := BuildLayout(net, m, structEnabled, suspended);
      s := StateClass(m, [], vars, exec, susp, structEnabled, active, suspended);
    }

    method ComputeInitialClass() returns (s: StateClass)
      requires ValidNet(net)
      ensures s == InitialClass(net)
    {
      s := RecomputeSets(net.initial);
      LayoutFacts(net, net.initial);
      var zone := ZeroZone(|s.clockVars|);
      s := s.(zone := zone);
    }

    /** Every clock pinned to the reference variable. */
    method ZeroZone(n: nat) returns (zone: Matrix)
      requires n > 0
      ensures zone == ZeroMatrix(n)
    {
      hide OnlyAbove, Canonical, IsClosure;
      var d := new DBM(n);
      var src: seq<int> := seq(n, i => if i == 0 then 0 else -1);
      ghost var f, sigma: seq<nat> := ZeroMatrix(1), seq(n, _ => 0);
      FreshIsCarried(f, src);
      PinFresh(d, f, src);
      ZeroIsCanonical(1);
      PinnedCloses(f, src, sigma);
      ghost var pinned := d.matrix;
      d.Minimize();
      CloseUnique(pinned, d.matrix);
      zone := d.matrix;
      CopiesAreZero(n, sigma);
    }

    /** Pins every fresh clock to the reference variable. */
    method PinFresh(zone: DBM, ghost f: Matrix, src: seq<int>)
      requires |src| > 0 && src[0] == 0 && forall i :: 0 <= i < |src| ==> src[i] < |f|
      requires zone.matrix == CarriedZone(f, src)
      modifies zone`matrix
      ensures zone.matrix == PinnedZone(f, src)
    {
      var n := |src|;
      for i := 1 to n
        invariant |zone.matrix| == n
        invariant forall x: nat, y: nat :: x < n && y < n ==>
          zone.matrix[x][y] == if x < i then PinnedZone(f, src)[x][y] else CarriedZone(f, src)[x][y]
      {
        if src[i] < 0 {
          zone.SetConstraint(0, i, Fin(0));
          zone.SetConstraint(i, 0, Fin(0));
        }
      }
      assert forall x :: 0 <= x < n ==> zone.matrix[x] == PinnedZone(f, src)[x];
    }

    /** Time passes: running clocks are released, deadlines are imposed. */
    method TimeElapse(state: StateClass) returns (out: StateClass)
      requires ValidNet(net) && GoodClass(net, state)
      ensures out == Elapse(net, state)
    {
      var n := |state.zone|;
      var running := seq(n, _ => false);
      for i := 1 to n
        invariant |running| == n && !running[0]
        invariant forall x: nat :: 0 < x < i ==> (running[x] <==> RunsAt(net, state, x))
        invariant forall x: nat :: i <= x < n ==> !running[x]
      {
        var x := state.clockVars[i];
        if x.Suspension? {
          running := running[i := true];
        } else if x.Execution? && x.transition in state.priorityEnabled {
          running := running[i := true];
        }
      }
      LayoutFacts(net, state.marking);

      var zone := new DBM.Copy(state.zone, {});
      ReleaseRunning(zone, state, running);
      CapDeadlines(zone, state);
      ghost var relaxed := zone.matrix;
      RelaxedFacts(net, state);
      zone.Minimize();
      CloseUnique(relaxed, zone.matrix);
      out := state.(zone := zone.matrix);
    }

    /** Drops the upper bounds of running clocks against stationary variables. */
    method ReleaseRunning(zone: DBM, state: StateClass, running: seq<bool>)
      requires IsClass(net, state) && zone.matrix == state.zone && |running| == |state.zone|
      requires forall i: nat :: i < |running| ==> (running[i] <==> RunsAt(net, state, i))
      requires |running| > 0 && !running[0] && ZeroDiagonal(state.zone)
      modifies zone`matrix
      ensures zone.matrix == ReleasedZone(net, state)
    {
      var n := |running|;
      ghost var m, r := state.zone, ReleasedZone(net, state);
      var i := 0;
      while i < n
        invariant i <= n == |zone.matrix|
        invariant EditProgress(m, r, zone.matrix, i, 0)
      {
        if running[i] {
          var j := 0;
          while j < n
            invariant j <= n == |zone.matrix|
            invariant EditProgress(m, r, zone.matrix, i, j)
          {
            EditStep(m, r, zone.matrix, i, j, r[i][j]);
            if j != i && !running[j] {
              zone.SetConstraint(i, j, Inf);
            }
            j := j + 1;
          }
        } else {
          assert forall y: nat :: y < n ==> r[i][y] == m[i][y];
          assert m[i] == r[i];
        }
        EditRow(m, r, zone.matrix, i);
        i := i + 1;
      }
      EditDone(m, r, zone.matrix);
    }

    /** Caps each active execution clock at its deadline. */
    method CapDeadlines(zone: DBM, state: StateClass)
      requires IsClass(net, state) && zone.matrix == ReleasedZone(net, state)
      modifies zone`matrix
      ensures zone.matrix == RelaxedZone(net, state)
    {
      for k := 0 to |state.priorityEnabled|
        invariant CapProgress(net, state, zone.matrix, k)
      {
        CapStep(net, state, zone.matrix, k);
        var t := state.priorityEnabled[k];
        var upper := Latest(net, t);
        var row := state.execClock[t];
        assert row == Row(net, state, t);
        if upper.Fin? {
          var current := zone.matrix[row][0];
          if current.Inf? || upper.v < current.v {
            zone.SetConstraint(row, 0, upper);
          }
        }
      }
      CapDone(net, state, zone.matrix);
    }

    method CheckFirable(elapsed: StateClass, t: nat) returns (firable: bool)
      requires IsClass(net, elapsed)
      ensures firable <==> IsFirable(net, elapsed, t)
    {
      if t !in elapsed.priorityEnabled {
        return false;
      }
      var row := elapsed.execClock[t];
      assert row == Row(net, elapsed, t);
      var latest := elapsed.zone[row][0];
      return latest.Inf? || latest.v >= Earliest(net, t);
    }

    /** For each successor variable, the row it survives from, or -1. */
    method FindSources(vars: seq<ClockVar>, source: StateClass, t: nat) returns (src: seq<int>)
      requires IsClass(net, source) && |source.clockVars| > 0
      requires |vars| > 0 && vars[0] == Zero
      requires forall i :: 0 < i < |vars| ==> !vars[i].Zero? && vars[i].transition < |net.transitions|
      ensures SourcesFor(src, SourceMap(vars, source.clockVars, t), |source.clockVars|)
    {
      var n := |vars|;
      ghost var sigma, size := SourceMap(vars, source.clockVars, t), |source.clockVars|;
      src := seq(n, _ => -1)[0 := 0];
      for i := 1 to n
        invariant SourcesUpTo(src, sigma, size, i)
      {
        var u := vars[i].transition;
        var row := if vars[i].Execution? then source.execClock[u] else source.suspClock[u];
        SourceRow(net, source, vars, t, i, row);
        if u != t && row > 0 {
          src := src[i := row];
        }
      }
    }

    /** Carries surviving clocks over from the fired zone, and starts the others
        at zero. */
    method BuildSuccessorZone(fired: Matrix, src: seq<int>, ghost sigma: seq<nat>) returns (zone: Matrix)
      requires Canonical(fired) && SourcesFor(src, sigma, |fired|) && IndicesInto(sigma, |fired|)
      ensures zone == Reindex(fired, sigma)
    {
      hide OnlyAbove;
      var d := new DBM(|src|);
      CarryOver(d, fired, src);
      PinFresh(d, fired, src);
      PinnedCloses(fired, src, sigma);
      ghost var pinned := d.matrix;
      d.Minimize();
      CloseUnique(pinned, d.matrix);
      zone := d.matrix;
    }

    method CarryOver(zone: DBM, fired: Matrix, src: seq<int>)
      requires zone.matrix == FreshMatrix(|src|) && forall i :: 0 <= i < |src| ==> src[i] < |fired|
      modifies zone`matrix
      ensures zone.matrix == CarriedZone(fired, src)
    {
      var n := |src|;
      ghost var m, r := FreshMatrix(n), CarriedZone(fired, src);
      var i := 0;
      while i < n
        invariant i <= n == |zone.matrix|
        invariant EditProgress(m, r, zone.matrix, i, 0)
      {
        if src[i] >= 0 {
          var j := 0;
          while j < n
            invariant j <= n == |zone.matrix|
            invariant EditProgress(m, r, zone.matrix, i, j)
          {
            EditStep(m, r, zone.matrix, i, j, r[i][j]);
            if src[j] >= 0 {
              zone.SetConstraint(i, j, fired[src[i]][src[j]]);
            }
            j := j + 1;
          }
        } else {
          assert forall y: nat :: y < n ==> r[i][y] == m[i][y];
          assert m[i] == r[i];
        }
        EditRow(m, r, zone.matrix, i);
        i := i + 1;
      }
      EditDone(m, r, zone.matrix);
    }

    /** Fires t from a time-elapsed class. */
    method Fire(elapsed: StateClass, t: nat) returns (ok: bool, successor: StateClass)
      requires ValidNet(net) && GoodClass(net, elapsed)
      ensures ok <==> IsFirable(net, elapsed, t)
      ensures ok ==> successor == Successor(net, elapsed, t)
    {
      successor := elapsed;
      ok := CheckFirable(elapsed, t);
      if !ok {
        return;
      }
      var fired := FireZone(elapsed, t);
      successor := BuildSuccessor(elapsed, t, fired);
    }

    lemma FiredIs(z: Matrix, row: nat, low: int)
      requires Canonical(z) && 0 < row < |z| && Within(low, z[row][0])
      ensures Fired(z, row, low) == TightenMatrix(z, 0, row, -low) && Canonical(Fired(z, row, low))
      ensures exists v :: Sat(z, v) && v[0] - v[row] <= -low
    {
      FiredCanonical(z, row, low);
      TightenEmpty(z, 0, row, -low);
    }

    /** The zone cut to the firings of t. */
    method FireZone(elapsed: StateClass, t: nat) returns (zone: Matrix)
      requires ValidNet(net) && GoodClass(net, elapsed) && IsFirable(net, elapsed, t)
      ensures zone == Fired(elapsed.zone, Row(net, elapsed, t), Earliest(net, t)) && Canonical(zone)
    {
      var row, low := elapsed.execClock[t], Earliest(net, t);
      assert row == Row(net, elapsed, t);
      FiredIs(elapsed.zone, row, low);
      zone := TightenZone(elapsed.zone, row, low);
    }

    method TightenZone(z: Matrix, row: nat, low: int) returns (zone: Matrix)
      requires Canonical(z) && row < |z| && exists v :: Sat(z, v) && v[0] - v[row] <= -low
      ensures zone == TightenMatrix(z, 0, row, -low)
    {
      hide Canonical, Sat;
      var d := new DBM.Copy(z, {});
      var ok := d.Tighten(0, row, -low);
      zone := d.matrix;
    }

    /** The token move, the new sets and layout, and the carried zone. */
    method BuildSuccessor(elapsed: StateClass, t: nat, fired: Matrix) returns (successor: StateClass)
      requires ValidNet(net) && IsClass(net, elapsed) && Enabled(net, elapsed.marking, t)
      requires fired == Fired(elapsed.zone, Row(net, elapsed, t), Earliest(net, t)) && Canonical(fired)
      ensures successor == Successor(net, elapsed, t)
    {
      var m := PetriNet.Fire(net, elapsed.marking, t);
      FireMarkingValid(net, elapsed.marking, t);
      successor := RecomputeSets(m);
      LayoutFacts(net, m);
      LayoutFacts(net, elapsed.marking);
      forall i | 0 < i < |successor.clockVars|
        ensures !successor.clockVars[i].Zero? && successor.clockVars[i].transition < |net.transitions|
      {
        assert successor.clockVars[i] in successor.clockVars;
      }
      var src := FindSources(successor.clockVars, elapsed, t);
      ghost var sigma := SourceMap(successor.clockVars, elapsed.clockVars, t);
      var zone := BuildSuccessorZone(fired, src, sigma);
      successor := successor.(zone := zone);
    }

    // ------------------------------------------------------------- exploration

    ghost function Setting(): Graph.Setting
      reads this
    {
      Graph.Setting(net, mode, extrapolation)
    }

    ghost predicate Indexed()
      reads this
    {
      var hashed, marked := HashIndex(stdHash, vertices, byHash), MarkingIndex(vertices, byMarking);
      if mode == Equality then hashed else marked
    }

    /** The graph invariant, an index that lists every vertex, and the counters. */
    ghost predicate Explored()
      reads this
    {
      var graph, index := GraphInv(Setting(), vertices, edges, birth), Indexed();
      && graph && index
      && totalStates == |vertices| && totalTransitions == |edges|
      && |edges| == |vertices| - 1 + dedupHits
    }

    /** The bucket lookup agrees with a scan of all vertices. */
    method FindMatch(state: StateClass) returns (found: bool, match_: nat)
      requires Indexed()
      ensures found ==> match_ < |vertices| && CanMergeInto(state, vertices[match_], mode)
      ensures found <==> !Unmatched(Setting(), vertices, state)
    {
      match_ := 0;
      var bucket: seq<nat> := [];
      if mode == Equality {
        var hash := HashStateClass(stdHash, state);
        if hash in byHash {
          bucket := byHash[hash];
        }
        assert forall v: nat :: v < |vertices| && CanMergeInto(state, vertices[v], mode) ==> Listed(byHash, hash, v);
      } else {
        if state.marking in byMarking {
          bucket := byMarking[state.marking];
        }
        assert forall v: nat :: v < |vertices| && CanMergeInto(state, vertices[v], mode) ==>
          Listed(byMarking, state.marking, v);
      }
      for k := 0 to |bucket|
        invariant forall j :: 0 <= j < k ==> !CanMergeInto(state, vertices[bucket[j]], mode)
      {
        if CanMergeInto(state, vertices[bucket[k]], mode) {
          assert MatchAt(Setting(), vertices, state, bucket[k]);
          return true, bucket[k];
        }
      }
      found := false;
    }

    method AddState(state: StateClass) returns (v: nat)
      requires Indexed()
      modifies `vertices, `byHash, `byMarking
      ensures vertices == old(vertices) + [state] && v == |old(vertices)|
      ensures Indexed()
    {
      v := |vertices|;
      if mode == Equality {
        var hash := HashStateClass(stdHash, state);
        HashIndexGrows(stdHash, vertices, byHash, state, hash);
        byHash := byHash[hash := (if hash in byHash then byHash[hash] else []) + [v]];
      } else {
        MarkingIndexGrows(vertices, byMarking, state);
        var listed := if state.marking in byMarking then byMarking[state.marking] else [];
        byMarking := byMarking[state.marking := listed + [v]];
      }
      vertices := vertices + [state];
    }

    /** The firing and dwell windows of one firing. */
    method MakeEdge(current: StateClass, elapsed: StateClass, t: nat) returns (edge: FiringEdge)
      requires ValidNet(net) && GoodClass(net, current) && Enabled(net, current.marking, t)
      requires elapsed == Elapse(net, current)
      ensures edge == EdgeOf(net, current, t)
    {
      var row := current.execClock[t];
      assert row == Row(net, current, t) && Row(net, elapsed, t) == row;
      hide GoodClass, IsClass, Enabled, Elapse;
      var entryLow, entryHigh := LowerOf(current.zone[0][row]), current.zone[row][0];
      var hLow, hHigh := LowerOf(elapsed.zone[0][row]), elapsed.zone[row][0];
      var up := Latest(net, t);
      var fireMin := Max(Max(0, Earliest(net, t)), hLow);
      var fireMax := hHigh;
      if up.Fin? && (fireMax.Inf? || up.v < fireMax.v) {
        fireMax := up;
      }
      var dwellMin := if entryHigh.Inf? then 0 else Max(0, fireMin - entryHigh.v);
      var dwellMax := if fireMax.Inf? then Inf else Fin(Max(0, fireMax.v - entryLow));
      edge := FiringEdge(t, fireMin, fireMax, dwellMin, dwellMax);
    }

    /** Records an edge to a known vertex. */
    method Link(e: GraphEdge)
      requires Explored() && GoodEdge(Setting(), vertices, e)
      modifies `edges, `totalTransitions, `dedupHits
      ensures Explored() && edges == old(edges) + [e]
    {
      hide GraphInv, GoodEdge, HashIndex, MarkingIndex;
      AddEdgeInv(Setting(), vertices, edges, birth, e);
      ghost var graph := GraphInv(Setting(), vertices, edges + [e], birth);
      assert graph;
      dedupHits := dedupHits + 1;
      edges := edges + [e];
      totalTransitions := totalTransitions + 1;
      assert graph == GraphInv(Setting(), vertices, edges, birth);
    }

    /** Records a new vertex and the edge that leads to it. */
    method Discover(u: nat, t: nat, successor: StateClass, edge: FiringEdge)
      requires Explored() && VertexAt(Setting(), vertices, u)
      requires FirableFrom(Setting(), vertices[u], t) && Enabled(net, vertices[u].marking, t)
      requires successor == Post(net, extrapolation, vertices[u], t) && Unmatched(Setting(), vertices, successor)
      requires edge == EdgeOf(net, vertices[u], t)
      modifies `vertices, `edges, `birth, `byHash, `byMarking, `totalStates, `totalTransitions
      ensures Explored() && vertices == old(vertices) + [successor]
      ensures edges == old(edges) + [GraphEdge(u, |old(vertices)|, edge)]
    {
      hide GraphInv, HashIndex, MarkingIndex;
      var e := GraphEdge(u, |vertices|, edge);
      AddVertexInv(Setting(), vertices, edges, birth, u, t, successor, e);
      Append(successor, e);
    }

    /** The new vertex, its edge and the counters. */
    method Append(successor: StateClass, e: GraphEdge)
      requires Explored() && GraphInv(Setting(), vertices + [successor], edges + [e], birth + [|edges|])
      modifies `vertices, `edges, `birth, `byHash, `byMarking, `totalStates, `totalTransitions
      ensures Explored() && vertices == old(vertices) + [successor] && edges == old(edges) + [e]
    {
      hide GraphInv, HashIndex, MarkingIndex;
      ghost var graph := GraphInv(Setting(), vertices + [successor], edges + [e], birth + [|edges|]);
      birth := birth + [|edges|];
      edges := edges + [e];
      var v := AddState(successor);
      totalStates, totalTransitions := totalStates + 1, totalTransitions + 1;
      assert graph == GraphInv(Setting(), vertices, edges, birth);
    }

    /** Computes the successor of u by t and its edge. */
    method Successors(u: nat, elapsed: StateClass, t: nat)
      returns (firable: bool, successor: StateClass, edge: FiringEdge)
      requires ValidSetting(Setting()) && VertexAt(Setting(), vertices, u)
      requires elapsed == Elapse(net, vertices[u])
      ensures firable <==> FirableFrom(Setting(), vertices[u], t)
      ensures firable ==> Enabled(net, vertices[u].marking, t) && successor == Post(net, extrapolation, vertices[u], t)
      ensures firable ==> edge == EdgeOf(net, vertices[u], t)
    {
      var current := vertices[u];
      ElapseGood(net, current);
      edge := FiringEdge(t, 0, Inf, 0, Inf);
      firable, successor := Fire(elapsed, t);
      if firable {
        SuccessorGood(net, elapsed, t);
        successor := ExtrapolateClass(successor);
        edge := MakeEdge(current, elapsed, t);
      }
    }

    /** Fires t from vertex u, and links to a matching or to a new vertex. */
    method Branch(u: nat, elapsed: StateClass, t: nat, maxStates: nat) returns (added: bool)
      requires Explored() && VertexAt(Setting(), vertices, u) && elapsed == Elapse(net, vertices[u])
      modifies `vertices, `edges, `birth, `byHash, `byMarking, `totalStates, `totalTransitions, `dedupHits, `truncated
      ensures Explored()
      ensures old(vertices) <= vertices && old(edges) <= edges
      ensures |vertices| == |old(vertices)| + if added then 1 else 0
      ensures added ==> |old(vertices)| < maxStates
      ensures truncated ==> old(truncated) || |vertices| >= maxStates
      ensures old(truncated) ==> truncated
      ensures truncated || Branched(Setting(), vertices, edges, u, t)
    {
      hide HashIndex, MarkingIndex;
      added := false;
      var firable, successor, edge := Successors(u, elapsed, t);
      if firable {
        added := Attach(u, t, successor, edge, maxStates);
      }
    }

    /** Links u to a vertex that matches the successor, or to a new one. */
    method Attach(u: nat, t: nat, successor: StateClass, edge: FiringEdge, maxStates: nat) returns (added: bool)
      requires Explored() && VertexAt(Setting(), vertices, u)
      requires FirableFrom(Setting(), vertices[u], t) && Enabled(net, vertices[u].marking, t)
      requires successor == Post(net, extrapolation, vertices[u], t) && edge == EdgeOf(net, vertices[u], t)
      modifies `vertices, `edges, `birth, `byHash, `byMarking, `totalStates, `totalTransitions, `dedupHits, `truncated
      ensures Explored()
      ensures old(vertices) <= vertices && old(edges) <= edges
      ensures |vertices| == |old(vertices)| + if added then 1 else 0
      ensures added ==> |old(vertices)| < maxStates
      ensures truncated ==> old(truncated) || |vertices| >= maxStates
      ensures old(truncated) ==> truncated
      ensures truncated || HasEdge(edges, u, t)
    {
      hide GraphInv, HashIndex, MarkingIndex;
      var found, v := FindMatch(successor);
      added := !found && totalStates < maxStates;
      if found {
        var e := GraphEdge(u, v, edge);
        HasLastEdge(edges, e);
        Link(e);
      } else if added {
        HasLastEdge(edges, GraphEdge(u, |vertices|, edge));
        Discover(u, t, successor, edge);
      } else {
        truncated := true;
      }
    }

    method ExtrapolateClass(s: StateClass) returns (r: StateClass)
      requires GoodClass(net, s) && ValidExtrapolation(net, extrapolation)
      ensures r == Extrapolated(net, extrapolation, s)
    {
      r := s;
      if extrapolation.UpTo? {
        var d := new DBM.Copy(s.zone, {});
        d.Extrapolate(extrapolation.k);
        r := s.(zone := d.matrix);
      }
    }

    /** Branches over every active transition of u. */
    method Expand(u: nat, maxStates: nat) returns (next: seq<nat>)
      requires Explored() && u < |vertices|
      modifies `vertices, `edges, `birth, `byHash, `byMarking, `totalStates, `totalTransitions, `dedupHits, `truncated
      ensures Explored()
      ensures old(vertices) <= vertices && old(edges) <= edges
      ensures next == Range(|old(vertices)|, |vertices|)
      ensures |vertices| > |old(vertices)| ==> |vertices| <= maxStates
      ensures truncated ==> old(truncated) || |vertices| >= maxStates
      ensures truncated || Expanded(Setting(), vertices, edges, u)
    {
      assert VertexAt(Setting(), vertices, u);
      var current := vertices[u];
      var elapsed := TimeElapse(current);
      next := BranchAll(u, elapsed, current.priorityEnabled, maxStates);
      if !truncated {
        AllBranched(Setting(), vertices, edges, u);
      }
    }

    method BranchAll(u: nat, elapsed: StateClass, enabled: seq<nat>, maxStates: nat) returns (next: seq<nat>)
      requires Explored() && VertexAt(Setting(), vertices, u) && elapsed == Elapse(net, vertices[u])
      modifies `vertices, `edges, `birth, `byHash, `byMarking, `totalStates, `totalTransitions, `dedupHits, `truncated
      ensures Explored()
      ensures old(vertices) <= vertices && old(edges) <= edges
      ensures next == Range(|old(vertices)|, |vertices|)
      ensures |vertices| > |old(vertices)| ==> |vertices| <= maxStates
      ensures truncated ==> old(truncated) || |vertices| >= maxStates
      ensures truncated || BranchedOver(Setting(), vertices, edges, u, enabled)
    {
      hide HashIndex, MarkingIndex;
      next := [];
      ghost var first := |vertices|;
      for k := 0 to |enabled|
        invariant Explored() && u < first <= |vertices|
        invariant old(vertices) <= vertices && old(edges) <= edges
        invariant next == Range(first, |vertices|)
        invariant |vertices| > first ==> |vertices| <= maxStates
        invariant truncated ==> old(truncated) || |vertices| >= maxStates
        invariant truncated || BranchedOver(Setting(), vertices, edges, u, enabled[..k])
      {
        ghost var before, beforeEdges := vertices, edges;
        assert VertexAt(Setting(), vertices, u);
        var added := Branch(u, elapsed, enabled[k], maxStates);
        if !truncated {
          BranchedOverStep(Setting(), before, vertices, beforeEdges, edges, u, enabled, k);
        }
        if added {
          next := AppendNext(next, first, |vertices| - 1);
        }
      }
      assert enabled[..|enabled|] == enabled;
    }

    /** Breadth-first exploration until every class is expanded, or maxStates
        classes exist. */
    method Build(maxStates: nat)
      requires ValidNet(net) && ValidExtrapolation(net, extrapolation)
      modifies `vertices, `edges, `birth, `byHash, `byMarking, `totalStates, `totalTransitions, `dedupHits, `truncated
      ensures Explored() && |vertices| <= Max(1, maxStates)
      ensures truncated <==> |vertices| >= maxStates
      ensures !truncated ==> Complete(Setting(), vertices, edges, birth)
    {
      Start();
      var frontier: seq<nat> := [0];
      ghost var done: nat := 0;
      while frontier != [] && !truncated
        invariant Explored() && done <= |vertices| <= Max(1, maxStates)
        invariant truncated ==> |vertices| >= maxStates
        invariant !truncated && done == |vertices| ==> |vertices| < maxStates
        invariant !truncated ==> frontier == Range(done, |vertices|)
        invariant !truncated ==> AllExpanded(Setting(), vertices, edges, done)
        decreases Max(1, maxStates) - done
      {
        ghost var last := |vertices|;
        frontier := ExploreLevel(frontier, maxStates, done);
        done := last;
      }
    }

    /** Expands one level; the vertices it discovers are the next level. */
    method ExploreLevel(frontier: seq<nat>, maxStates: nat, ghost done: nat) returns (next: seq<nat>)
      requires Explored() && !truncated && done < |vertices| && frontier == Range(done, |vertices|)
      requires AllExpanded(Setting(), vertices, edges, done)
      modifies `vertices, `edges, `birth, `byHash, `byMarking, `totalStates, `totalTransitions, `dedupHits, `truncated
      ensures Explored() && |old(vertices)| <= |vertices|
      ensures |vertices| > |old(vertices)| ==> |vertices| <= maxStates
      ensures truncated ==> |vertices| >= maxStates
      ensures !truncated ==> next == Range(|old(vertices)|, |vertices|)
      ensures !truncated ==> AllExpanded(Setting(), vertices, edges, |old(vertices)|)
      ensures !truncated && |vertices| == |old(vertices)| ==> |vertices| < maxStates
    {
      next := [];
      ghost var last := |vertices|;
      for i := 0 to |frontier|
        invariant Explored() && !truncated && last <= |vertices|
        invariant |vertices| > last ==> |vertices| <= maxStates
        invariant i > 0 && |vertices| == last ==> |vertices| < maxStates
        invariant next == Range(last, |vertices|)
        invariant AllExpanded(Setting(), vertices, edges, done + i)
      {
        if totalStates >= maxStates {
          truncated := true;
          return;
        }
        ghost var before, beforeEdges := vertices, edges;
        var u := frontier[i];
        var found := Expand(u, maxStates);
        RangeAppend(last, |before|, |vertices|);
        next := next + found;
        if truncated {
          return;
        }
        AllExpandedStep(Setting(), before, vertices, beforeEdges, edges, u);
      }
    }

    /** The initial class becomes vertex 0. */
    method Start()
      requires ValidNet(net) && ValidExtrapolation(net, extrapolation)
      modifies `vertices, `edges, `birth, `byHash, `byMarking, `totalStates, `totalTransitions, `dedupHits, `truncated
      ensures Explored() && |vertices| == 1 && !truncated
    {
      var initial := ComputeStart();
      Begin(initial);
    }

    method Begin(initial: StateClass)
      requires GraphInv(Setting(), [initial], [], [])
      modifies `vertices, `edges, `birth, `byHash, `byMarking, `totalStates, `totalTransitions, `dedupHits, `truncated
      ensures Explored() && |vertices| == 1 && !truncated
    {
      hide GraphInv;
      ghost var graph := GraphInv(Setting(), [initial], [], []);
      vertices, edges, birth := [], [], [];
      byMarking, byHash := map[], map[];
      totalStates, totalTransitions, dedupHits, truncated := 1, 0, 0, false;
      var v := AddState(initial);
      assert vertices == [initial];
      assert graph == GraphInv(Setting(), vertices, edges, birth);
    }

    method ComputeStart() returns (initial: StateClass)
      requires ValidNet(net) && ValidExtrapolation(net, extrapolation)
      ensures GraphInv(Setting(), [initial], [], [])
    {
      initial := ComputeInitialClass();
      InitialClassGood(net);
      initial := ExtrapolateClass(initial);
      StartInv(Setting());
    }
  }

  /** Nothing carried over leaves a fresh matrix. */
  lemma FreshIsCarried(f: Matrix, src: seq<int>)
    requires f == ZeroMatrix(1) && src != [] && src[0] == 0 && forall i :: 0 < i < |src| ==> src[i] == -1
    ensures FreshMatrix(|src|) == CarriedZone(f, src)
  {
    assert forall i :: 0 <= i < |src| ==> FreshMatrix(|src|)[i] == CarriedZone(f, src)[i];
  }

  lemma ZeroIsCanonical(n: nat)
    ensures Canonical(ZeroMatrix(n))
  {
  }

  lemma CopiesAreZero(n: nat, sigma: seq<nat>)
    requires |sigma| == n && forall i :: 0 <= i < n ==> sigma[i] == 0
    ensures Reindex(ZeroMatrix(1), sigma) == ZeroMatrix(n)
  {
    assert forall i :: 0 <= i < n ==> Reindex(ZeroMatrix(1), sigma)[i] == ZeroMatrix(n)[i];
  }

  function Range(lo: nat, hi: nat): (r: seq<nat>)
    requires lo <= hi
    ensures |r| == hi - lo && forall i :: 0 <= i < |r| ==> r[i] == lo + i
  {
    seq(hi - lo, i requires 0 <= i => lo + i)
  }

  method AppendNext(range: seq<nat>, ghost lo: nat, hi: nat) returns (more: seq<nat>)
    requires lo <= hi && range == Range(lo, hi)
    ensures more == Range(lo, hi + 1)
  {
    more := range + [hi];
  }

  lemma RangeAppend(a: nat, b: nat, c: nat)
    requires a <= b <= c
    ensures Range(a, b) + Range(b, c) == Range(a, c)
  {
  }
}
