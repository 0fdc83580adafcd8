/** The analysis as the compiler runs it: a recursive three-colour visit, then states resolved on demand
over already visited predecessors and remembered per block. */
module KeptAnalysis {
  import opened Wrappers
  import opened ShaderIr
  import opened GuardImplication
  import opened ControlFlowWalk
  import opened KeptInvocations

  // ----- Summaries of families of paths

  datatype State = State(written: set<Guard>, live: Guard, liveKnown: bool)

  ghost predicate Describes(p: Program, family: iset<seq<nat>>, s: State)
    requires WellFormed(p)
  {
    && Known(p, s.live) && (forall g :: g in s.written ==> Known(p, g))
    && (forall g :: g in s.written <==> forall q :: q in family ==> PathWrites(p, q, g))
    && (s.liveKnown ==> SameLive(p, family, s.live))
    && (!s.liveKnown ==> forall g :: !SameLive(p, family, g))
  }

  ghost predicate SameLive(p: Program, family: iset<seq<nat>>, g: Guard)
    requires WellFormed(p)
  {
    forall q :: q in family ==> PathLive(p, q) == g
  }

  function Meet(a: State, b: State): State {
    State(a.written * b.written, a.live, a.liveKnown && b.liveKnown && a.live == b.live)
  }

  lemma MeetDescribes(p: Program, A: iset<seq<nat>>, B: iset<seq<nat>>, a: State, b: State)
    requires WellFormed(p) && Describes(p, A, a) && Describes(p, B, b) && A != iset{} && B != iset{}
    ensures Describes(p, A + B, Meet(a, b))
  {
    var m := Meet(a, b);
    forall g ensures g in m.written <==> forall q :: q in A + B ==> PathWrites(p, q, g) {
      if forall q :: q in A + B ==> PathWrites(p, q, g) {
        assert forall q :: q in A ==> q in A + B;
        assert forall q :: q in B ==> q in A + B;
      }
    }
    if !m.liveKnown {
      forall g ensures !SameLive(p, A + B, g) {
        if SameLive(p, A + B, g) {
          assert forall q :: q in A ==> q in A + B;
          assert forall q :: q in B ==> q in A + B;
          assert SameLive(p, A, g) && SameLive(p, B, g);
        }
      }
    }
  }

  ghost predicate HasMask(p: Program, instructions: seq<nat>)
    requires WellFormed(p)
  {
    exists i :: 0 <= i < |instructions| && IsMaskExport(p, instructions[i])
  }

  lemma {:induction false} MaskHidesBefore(p: Program, instructions: seq<nat>, x: Guard, y: Guard)
    requires WellFormed(p)
    ensures HasMask(p, instructions) ==> LiveAfter(p, instructions, x) == LiveAfter(p, instructions, y)
    ensures !HasMask(p, instructions) ==> LiveAfter(p, instructions, x) == x
  {
    if instructions != [] {
      var last := |instructions| - 1;
      MaskHidesBefore(p, instructions[..last], x, y);
      if HasMask(p, instructions[..last]) {
        var i :| 0 <= i < last && IsMaskExport(p, instructions[..last][i]);
        assert IsMaskExport(p, instructions[i]);
      }
      if HasMask(p, instructions) && !IsMaskExport(p, instructions[last]) {
        var i :| 0 <= i < |instructions| && IsMaskExport(p, instructions[i]);
        assert IsMaskExport(p, instructions[..last][i]);
      }
    }
  }

  ghost function Extended(family: iset<seq<nat>>, b: nat): iset<seq<nat>> {
    iset q: seq<nat> | |q| > 0 && q[|q| - 1] == b && q[..|q| - 1] in family
  }

  /** `s` is what running block `b` makes of the entry state `e`. */
  ghost predicate Transfers(p: Program, instructions: seq<nat>, e: State, s: State)
    requires WellFormed(p)
  {
    && (forall g :: g in s.written <==> g in e.written || BlockWrites(p, instructions, g))
    && s.live == LiveAfter(p, instructions, e.live)
    && s.liveKnown == (e.liveKnown || HasMask(p, instructions))
  }

  lemma ExtendWrites(p: Program, q: seq<nat>, b: nat, g: Guard)
    requires WellFormed(p)
    ensures PathWrites(p, q + [b], g) <==> PathWrites(p, q, g) || BlockWrites(p, Instructions(p, b), g)
  {
    var r := q + [b];
    if PathWrites(p, q, g) {
      var i :| 0 <= i < |q| && BlockWrites(p, Instructions(p, q[i]), g);
      assert BlockWrites(p, Instructions(p, r[i]), g);
    }
    if BlockWrites(p, Instructions(p, b), g) { assert BlockWrites(p, Instructions(p, r[|q|]), g); }
  }

  lemma WritesKnown(p: Program, instructions: seq<nat>, g: Guard)
    requires WellFormed(p) && BlockWrites(p, instructions, g)
    ensures Known(p, g)
  {
  }

  lemma ExtendWritten(p: Program, family: iset<seq<nat>>, b: nat, e: State, s: State, g: Guard)
    requires WellFormed(p) && Describes(p, family, e) && Transfers(p, Instructions(p, b), e, s)
    ensures g in s.written <==> forall q :: q in Extended(family, b) ==> PathWrites(p, q, g)
  {
    forall q | q in Extended(family, b) ensures PathWrites(p, q, g) <==>
        PathWrites(p, q[..|q| - 1], g) || BlockWrites(p, Instructions(p, b), g) {
      assert q == q[..|q| - 1] + [b];
      ExtendWrites(p, q[..|q| - 1], b, g);
    }
    if !BlockWrites(p, Instructions(p, b), g) && (forall q :: q in Extended(family, b) ==> PathWrites(p, q, g)) {
      forall q | q in family ensures PathWrites(p, q, g) {
        assert (q + [b])[..|q|] == q;
        assert q + [b] in Extended(family, b);
      }
    }
  }

  lemma ExtendLive(p: Program, family: iset<seq<nat>>, b: nat, e: State, s: State)
    requires WellFormed(p) && Describes(p, family, e) && Transfers(p, Instructions(p, b), e, s)
    ensures s.liveKnown ==> SameLive(p, Extended(family, b), s.live)
    ensures !s.liveKnown ==> forall g :: !SameLive(p, Extended(family, b), g)
  {
    var code := Instructions(p, b);
    if s.liveKnown {
      forall q | q in Extended(family, b) ensures PathLive(p, q) == s.live {
        MaskHidesBefore(p, code, PathLive(p, q[..|q| - 1]), e.live);
      }
    } else {
      forall g ensures !SameLive(p, Extended(family, b), g) {
        if SameLive(p, Extended(family, b), g) {
          forall q | q in family ensures PathLive(p, q) == g {
            var r := q + [b];
            assert r[..|q|] == q && r in Extended(family, b);
            MaskHidesBefore(p, code, PathLive(p, q), g);
          }
          assert SameLive(p, family, g);
        }
      }
    }
  }

  lemma ExtendDescribes(p: Program, family: iset<seq<nat>>, b: nat, e: State, s: State)
    requires WellFormed(p) && Describes(p, family, e) && Transfers(p, Instructions(p, b), e, s)
    ensures Describes(p, Extended(family, b), s)
  {
    forall g ensures g in s.written <==> forall q :: q in Extended(family, b) ==> PathWrites(p, q, g) {
      ExtendWritten(p, family, b, e, s, g);
    }
    ExtendLive(p, family, b, e, s);
    forall g | g in s.written ensures Known(p, g) {
      if g !in e.written { WritesKnown(p, Instructions(p, b), g); }
    }
  }

  // ----- Paths through visited blocks

  ghost function PathsTo(edges: Edges, b: nat): iset<seq<nat>> { iset path: seq<nat> | PathTo(edges, path, b) }

  /** Paths that end in one of the first `k` predecessors. */
  ghost function PathsInto(edges: Edges, sources: seq<nat>, k: nat): iset<seq<nat>>
    requires k <= |sources|
  {
    iset path: seq<nat>, i | 0 <= i < k && PathTo(edges, path, sources[i]) :: path
  }

  ghost predicate PredecessorsOf(edges: Edges, sources: seq<nat>, b: nat) {
    forall a: nat :: a in sources <==> a < |edges| && b in edges[a]
  }

  lemma PathsThrough(edges: Edges, sources: seq<nat>, b: nat)
    requires Closed(edges) && b < |edges| && PredecessorsOf(edges, sources, b)
    ensures b != 0 ==> PathsTo(edges, b) == Extended(PathsInto(edges, sources, |sources|), b)
  {
    if b != 0 {
      forall q: seq<nat> ensures q in PathsTo(edges, b) <==> q in Extended(PathsInto(edges, sources, |sources|), b) {
        if q in PathsTo(edges, b) {
          var r := q[..|q| - 1];
          assert |q| > 1;
          assert q[|r| - 1 + 1] in edges[q[|r| - 1]];
          var i :| 0 <= i < |sources| && sources[i] == r[|r| - 1];
          assert PathTo(edges, r, sources[i]);
        }
        if q in Extended(PathsInto(edges, sources, |sources|), b) {
          var r := q[..|q| - 1];
          var i :| 0 <= i < |sources| && PathTo(edges, r, sources[i]);
          assert sources[i] in sources && b in edges[sources[i]];
          forall j | 0 <= j < |q| - 1 ensures q[j + 1] in edges[q[j]] {
            if j < |r| - 1 { assert r[j + 1] in edges[r[j]]; }
          }
          assert forall j :: 0 <= j < |r| ==> q[j] == r[j];
        }
      }
    }
  }

  lemma RepeatIsACycle(edges: Edges, walk: seq<nat>, i: nat, j: nat)
    requires WalkOf(edges, walk) && i < j < |walk| && walk[0] == 0 && walk[i] == walk[j]
    ensures !NoCycleFromEntry(edges)
  {
  }

  lemma EntryPath(edges: Edges)
    requires |edges| > 0 && NoCycleFromEntry(edges)
    ensures PathsTo(edges, 0) == Extended(iset{[]}, 0)
    ensures forall a :: 0 <= a < |edges| && Reachable(edges, a) ==> 0 !in edges[a]
  {
    forall q: seq<nat> ensures q in PathsTo(edges, 0) <==> q in Extended(iset{[]}, 0) {}
    forall a | 0 <= a < |edges| && Reachable(edges, a) ensures 0 !in edges[a] {
      var path :| PathTo(edges, path, a);
      if 0 in edges[a] {
        RepeatIsACycle(edges, path + [0], 0, |path|);
      }
    }
  }

  // ----- The visit

  /** The grey blocks lie on the trail, below the block being visited. */
  ghost predicate GreyOnTrail(colors: seq<nat>, trail: seq<nat>) {
    forall b :: 0 <= b < |colors| && colors[b] == 1 ==> exists i :: 0 <= i < |trail| - 1 && trail[i] == b
  }

  ghost predicate BlackReachable(edges: Edges, colors: seq<nat>) {
    forall b :: 0 <= b < |colors| && colors[b] == 2 ==> Reachable(edges, b)
  }

  /** Grey blocks stay grey and black ones stay black. */
  ghost predicate OnlyBlackened(before: seq<nat>, after: seq<nat>) {
    |before| == |after| && forall b :: 0 <= b < |before| ==> after[b] == before[b] || (before[b] == 0 && after[b] == 2)
  }

  lemma TrailExtends(edges: Edges, colors: seq<nat>, trail: seq<nat>, b: nat, k: nat)
    requires Closed(edges) && |colors| == |edges| && b < |edges| && PathTo(edges, trail, b) && k < |edges[b]|
    requires forall c :: 0 <= c < |colors| && colors[c] == 1 ==> c in trail
    ensures PathTo(edges, trail + [edges[b][k]], edges[b][k])
    ensures GreyOnTrail(colors, trail + [edges[b][k]])
  {
    var next := trail + [edges[b][k]];
    forall j | 0 <= j < |next| - 1 ensures next[j + 1] in edges[next[j]] {
      if j < |trail| - 1 { assert trail[j + 1] in edges[trail[j]]; }
    }
    forall c | 0 <= c < |colors| && colors[c] == 1 ensures exists i :: 0 <= i < |next| - 1 && next[i] == c {
      var i :| 0 <= i < |trail| && trail[i] == c;
      assert next[i] == c;
    }
  }

  method Visit(edges: Edges, reached: array<nat>, index: nat, ghost rank0: map<nat, nat>, ghost clock0: nat,
               ghost trail: seq<nat>)
    returns (ok: bool, ghost rank: map<nat, nat>, ghost clock: nat)
    requires Closed(edges) && reached.Length == |edges| && index < |edges|
    requires forall b :: 0 <= b < reached.Length ==> reached[b] <= 2
    requires BlackOk(edges, reached[..], rank0, clock0) && BlackReachable(edges, reached[..])
    requires PathTo(edges, trail, index) && GreyOnTrail(reached[..], trail)
    modifies reached
    ensures !ok ==> !NoCycleFromEntry(edges)
    ensures ok ==> OnlyBlackened(old(reached[..]), reached[..]) && reached[index] == 2
    ensures ok ==> BlackOk(edges, reached[..], rank, clock) && BlackReachable(edges, reached[..])
    decreases White(reached[..])
  {
    rank, clock := rank0, clock0;
    if reached[index] == 1 {
      assert reached[..][index] == 1;
      ghost var i :| 0 <= i < |trail| - 1 && trail[i] == index;
      assert trail[i] == trail[|trail| - 1];
      return false, rank, clock;
    }
    if reached[index] == 2 { return true, rank, clock; }
    ghost var before := reached[..];
    reached[index] := 1;
    ColorsKept(edges, before, rank, clock, index);
    assert reached[..] == before[index := 1];
    assert index in White(before) && index !in White(reached[..]);
    for k := 0 to |edges[index]|
      invariant OnlyBlackened(before[index := 1], reached[..])
      invariant BlackOk(edges, reached[..], rank, clock) && BlackReachable(edges, reached[..])
      invariant DoneBlack(edges, reached[..], index, k)
    {
      assert reached[..][index] == 1;
      assert White(reached[..]) <= White(before) - {index};
      forall c | 0 <= c < reached.Length && reached[..][c] == 1 ensures c in trail {
        assert before[index := 1][c] == 1;
        if c != index {
          assert before[c] == 1;
          var i :| 0 <= i < |trail| - 1 && trail[i] == c;
        }
      }
      TrailExtends(edges, reached[..], trail, index, k);
      ghost var now := reached[..];
      ok, rank, clock := Visit(edges, reached, edges[index][k], rank, clock, trail + [edges[index][k]]);
      if !ok { return; }
      assert OnlyBlackened(now, reached[..]);
    }
    ghost var now := reached[..];
    FinishBlack(edges, now, rank, clock, index);
    reached[index] := 2;
    assert reached[..] == now[index := 2];
    rank, clock := rank[index := clock], clock + 1;
    assert Reachable(edges, index);
    ok := true;
  }

  // ----- Resolving states

  /** The check made at a return is the one stated over paths. */
  lemma ReturnCheck(p: Program, edges: Edges, oracle: Oracle, b: nat, s: State)
    requires WellFormed(p) && Describes(p, PathsTo(edges, b), s)
    ensures ReturnDefined(p, edges, oracle, b) <==> StateDefined(p, oracle, s)
  {
    var family := PathsTo(edges, b);
    assert forall g :: AllWrite(p, edges, b, g) <==> g in s.written;
    assert forall g :: AllLive(p, edges, b, g) <==> SameLive(p, family, g);
  }

  ghost predicate StateDefined(p: Program, oracle: Oracle, s: State)
    requires WellFormed(p) && Known(p, s.live) && forall g :: g in s.written ==> Known(p, g)
  {
    || None in s.written
    || (s.liveKnown && (Boolean(p, s.live, false) || exists g :: g in s.written && Proves(p, oracle, s.live, g)))
  }

  ghost function Rank(rank: map<nat, nat>, b: nat): nat { if b in rank then rank[b] else 0 }

  /** Blocks are visited exactly when the entry reaches them, and a visited predecessor ranks above its successor. */
  ghost predicate SourceOk(edges: Edges, sources: seq<nat>, reached: seq<nat>, rank: map<nat, nat>, clock: nat,
                           index: nat, k: nat)
    requires k < |sources| && |reached| == |edges|
  {
    var previous := sources[k];
    && previous < |edges|
    && PathsInto(edges, sources, k + 1) == PathsInto(edges, sources, k) + PathsTo(edges, previous)
    && (reached[previous] == 2 <==> PathsTo(edges, previous) != iset{})
    && (reached[previous] == 2 ==> index != 0 && Rank(rank, index) < Rank(rank, previous) < clock)
  }

  ghost function Before(edges: Edges, sources: seq<nat>, index: nat): iset<seq<nat>> {
    if index == 0 then iset{[]} else PathsInto(edges, sources, |sources|)
  }

  ghost predicate NodeOk(edges: Edges, sources: seq<nat>, reached: seq<nat>, rank: map<nat, nat>, clock: nat,
                         index: nat)
    requires |reached| == |edges|
  {
    && PathsTo(edges, index) == Extended(Before(edges, sources, index), index)
    && Before(edges, sources, index) != iset{}
    && forall k :: 0 <= k < |sources| ==> SourceOk(edges, sources, reached, rank, clock, index, k)
  }

  lemma ReachableIsBlack(edges: Edges, reached: seq<nat>, rank: map<nat, nat>, clock: nat, b: nat)
    requires Closed(edges) && BlackOk(edges, reached, rank, clock) && |edges| > 0 && reached[0] == 2 && b < |edges|
             && Reachable(edges, b)
    ensures reached[b] == 2
  {
    var path :| PathTo(edges, path, b);
    if |path| > 1 { BlackWalksDescend(edges, reached, rank, clock, path, 0, |path| - 1); }
  }

  lemma RankDescends(edges: Edges, reached: seq<nat>, rank: map<nat, nat>, clock: nat, a: nat, b: nat)
    requires BlackOk(edges, reached, rank, clock) && a < |edges| && b in edges[a] && reached[a] == 2
    ensures Rank(rank, b) < Rank(rank, a) < clock
  {
    assert FinishedOk(edges, reached, rank, a);
  }

  lemma VisitedSource(edges: Edges, sources: seq<nat>, reached: seq<nat>, rank: map<nat, nat>, clock: nat, index: nat,
                      k: nat)
    requires Closed(edges) && NoCycleFromEntry(edges) && BlackOk(edges, reached, rank, clock)
             && BlackReachable(edges, reached)
    requires |edges| > 0 && reached[0] == 2 && index < |edges| && PredecessorsOf(edges, sources, index) && k < |sources|
    ensures SourceOk(edges, sources, reached, rank, clock, index, k)
  {
    var previous := sources[k];
    assert previous in sources;
    assert PathsInto(edges, sources, k + 1) == PathsInto(edges, sources, k) + PathsTo(edges, previous);
    if reached[previous] == 2 {
      RankDescends(edges, reached, rank, clock, previous, index);
      EntryPath(edges);
      var path :| PathTo(edges, path, previous);
      assert path in PathsTo(edges, previous);
    } else if PathsTo(edges, previous) != iset{} {
      var path :| path in PathsTo(edges, previous);
      ReachableIsBlack(edges, reached, rank, clock, previous);
    }
  }

  lemma VisitedNode(edges: Edges, sources: seq<nat>, reached: seq<nat>, rank: map<nat, nat>, clock: nat, index: nat)
    requires Closed(edges) && NoCycleFromEntry(edges) && BlackOk(edges, reached, rank, clock)
             && BlackReachable(edges, reached)
    requires |edges| > 0 && reached[0] == 2 && index < |edges| && reached[index] == 2
             && PredecessorsOf(edges, sources, index)
    ensures NodeOk(edges, sources, reached, rank, clock, index)
  {
    forall k | 0 <= k < |sources| ensures SourceOk(edges, sources, reached, rank, clock, index, k) {
      VisitedSource(edges, sources, reached, rank, clock, index, k);
    }
    EntryPath(edges);
    PathsThrough(edges, sources, index);
    var path :| PathTo(edges, path, index);
    assert path in PathsTo(edges, index);
    assert path[..|path| - 1] in Before(edges, sources, index);
  }

  /** Where the meet over the first `k` predecessors stands; `first` until a visited one is met. */
  ghost predicate Entered(p: Program, edges: Edges, sources: seq<nat>, index: nat, k: nat, first: bool, state: State)
    requires WellFormed(p) && k <= |sources|
  {
    var family := PathsInto(edges, sources, k);
    if first then state == State({}, None, true) && family == iset{}
    else index != 0 && family != iset{} && Describes(p, family, state)
  }

  lemma EnterStep(p: Program, edges: Edges, sources: seq<nat>, index: nat, k: nat, first: bool, state: State,
                  incoming: State)
    requires WellFormed(p) && k < |sources| && index != 0 && Entered(p, edges, sources, index, k, first, state)
    requires Describes(p, PathsTo(edges, sources[k]), incoming) && PathsTo(edges, sources[k]) != iset{}
    requires PathsInto(edges, sources, k + 1) == PathsInto(edges, sources, k) + PathsTo(edges, sources[k])
    ensures Entered(p, edges, sources, index, k + 1, false, if first then incoming else Meet(state, incoming))
  {
    var into, family := PathsInto(edges, sources, k), PathsTo(edges, sources[k]);
    if first { assert into + family == family; }
    else { MeetDescribes(p, into, family, state, incoming); }
  }

  lemma EntryDescribes(p: Program)
    requires WellFormed(p)
    ensures Describes(p, iset{[]}, State({}, None, true))
  {
    var empty: seq<nat> := [];
    assert empty in iset{empty};
    assert forall g :: !PathWrites(p, [], g);
  }

  lemma EnterDone(p: Program, edges: Edges, sources: seq<nat>, index: nat, first: bool, state: State)
    requires WellFormed(p) && Entered(p, edges, sources, index, |sources|, first, state)
             && Before(edges, sources, index) != iset{}
    requires index == 0 ==> first
    ensures Describes(p, Before(edges, sources, index), state)
  {
    if first { EntryDescribes(p); }
  }

  lemma FinishBlock(p: Program, edges: Edges, sources: seq<nat>, index: nat, entry: State, state: State)
    requires WellFormed(p) && Describes(p, Before(edges, sources, index), entry)
             && Transfers(p, Instructions(p, index), entry, state)
    requires PathsTo(edges, index) == Extended(Before(edges, sources, index), index)
    ensures Describes(p, PathsTo(edges, index), state)
  {
    ExtendDescribes(p, Before(edges, sources, index), index, entry, state);
  }

  class Resolver {
    const p: Program
    const edges: Edges
    const predecessors: seq<seq<nat>>
    const oracle: Oracle
    const reached: seq<nat>
    const states: array<Option<State>>
    var valid: bool
    ghost const rank: map<nat, nat>
    ghost const clock: nat

    ghost predicate Setup() {
      && WellFormed(p) && |predecessors| == |edges| == |reached| == states.Length == |p.metadata|
      && forall b :: 0 <= b < |edges| && reached[b] == 2 ==> NodeOk(edges, predecessors[b], reached, rank, clock, b)
    }

    ghost predicate Resolved(b: nat)
      requires Setup() && b < |edges|
      reads states
    {
      states[b].Some? ==> reached[b] == 2 && Describes(p, PathsTo(edges, b), states[b].value)
    }

    /** A state that has been resolved at a return fails the check. */
    ghost predicate Undefined(b: nat)
      requires Setup() && b < |edges| && Resolved(b)
      reads states
    {
      states[b].Some? && p.metadata[b].kind.ReturnKind? && !StateDefined(p, oracle, states[b].value)
    }

    ghost predicate Valid()
      reads this, states
    {
      && Setup()
      && (forall b :: 0 <= b < |edges| ==> Resolved(b))
      && (valid <==> forall b :: 0 <= b < |edges| ==> !Undefined(b))
    }

    constructor (p: Program, edges: Edges, predecessors: seq<seq<nat>>, oracle: Oracle, reached: seq<nat>,
                 ghost rank: map<nat, nat>, ghost clock: nat)
      requires WellFormed(p) && |predecessors| == |edges| == |reached| == |p.metadata|
      requires forall b :: 0 <= b < |edges| && reached[b] == 2 ==>
               NodeOk(edges, predecessors[b], reached, rank, clock, b)
      ensures Valid() && fresh(states)
      ensures this.p == p && this.edges == edges && this.oracle == oracle && this.reached == reached
    {
      this.p, this.edges, this.predecessors, this.oracle := p, edges, predecessors, oracle;
      this.reached, this.rank, this.clock := reached, rank, clock;
      states := new Option<State>[|edges|](_ => None);
      valid := true;
    }

    /** The state at entry to block `index`: the meet over its visited predecessors. */
    method Entry(index: nat) returns (state: State)
      requires Valid() && index < |edges| && reached[index] == 2
      modifies this`valid, states
      ensures Valid() && Describes(p, Before(edges, predecessors[index], index), state)
      ensures forall b :: 0 <= b < |edges| && old(states[b]).Some? ==> states[b] == old(states[b])
      ensures forall b :: 0 <= b < |edges| && states[b] != old(states[b]) ==> Rank(rank, index) < Rank(rank, b)
      decreases clock - Rank(rank, index), 0
    {
      state := State({}, None, true);
      var first, sources := true, predecessors[index];
      assert NodeOk(edges, sources, reached, rank, clock, index);
      for k := 0 to |sources|
        invariant Valid() && Entered(p, edges, sources, index, k, first, state)
        invariant forall b :: 0 <= b < |edges| && old(states[b]).Some? ==> states[b] == old(states[b])
        invariant forall b :: 0 <= b < |edges| && states[b] != old(states[b]) ==> Rank(rank, index) < Rank(rank, b)
      {
        assert SourceOk(edges, sources, reached, rank, clock, index, k);
        var previous := sources[k];
        if reached[previous] == 2 {
          var incoming := Resolve(previous);
          EnterStep(p, edges, sources, index, k, first, state, incoming);
          if first { state, first := incoming, false; }
          else { state := Meet(state, incoming); }
        } else {
          assert PathsInto(edges, sources, k + 1) == PathsInto(edges, sources, k);
        }
      }
      EnterDone(p, edges, sources, index, first, state);
    }

    method Resolve(index: nat) returns (state: State)
      requires Valid() && index < |edges| && reached[index] == 2
      modifies this`valid, states
      ensures Valid() && Describes(p, PathsTo(edges, index), state)
      ensures states[index] == Some(state)
      ensures forall b :: 0 <= b < |edges| && old(states[b]).Some? ==> states[b] == old(states[b])
      ensures forall b :: 0 <= b < |edges| && states[b] != old(states[b]) ==> Rank(rank, index) <= Rank(rank, b)
      decreases clock - Rank(rank, index), 1
    {
      assert Resolved(index);
      if states[index].Some? { return states[index].value; }
      var entry := Entry(index);
      state := RunBlock(p, Instructions(p, index), entry);
      assert NodeOk(edges, predecessors[index], reached, rank, clock, index);
      FinishBlock(p, edges, predecessors[index], index, entry, state);
      Record(index, state);
    }

    /** Checks a resolved state at a return and remembers it. */
    method Record(index: nat, state: State)
      requires Valid() && index < |edges| && reached[index] == 2 && states[index].None?
      requires Describes(p, PathsTo(edges, index), state)
      modifies this`valid, states
      ensures Valid() && states[index] == Some(state)
      ensures forall b :: 0 <= b < |edges| && b != index ==> states[b] == old(states[b])
    {
      if p.metadata[index].kind.ReturnKind? {
        var killed := state.liveKnown && Boolean(p, state.live, false);
        var written := None in state.written || (state.liveKnown && exists g ::
                                                 g in state.written
                                                 && Proves(p, oracle, state.live, g));
        if !killed && !written { valid := false; }
      }
      states[index] := Some(state);
      forall b | 0 <= b < |edges| ensures Resolved(b) && (b != index ==> Undefined(b) == old(Undefined(b))) {
        if b != index { assert old(Resolved(b)); }
      }
      if !old(valid) {
        ghost var b :| 0 <= b < |edges| && old(Undefined(b));
        assert Undefined(b);
      }
      assert Undefined(index) <==> p.metadata[index].kind.ReturnKind? && !StateDefined(p, oracle, state);
    }
  }

  /** The instructions of one block, in order. */
  method RunBlock(p: Program, instructions: seq<nat>, entry: State) returns (state: State)
    requires WellFormed(p) && Known(p, entry.live)
    ensures Transfers(p, instructions, entry, state)
  {
    state := entry;
    for i := 0 to |instructions|
      invariant Transfers(p, instructions[..i], entry, state)
    {
      var v := instructions[i];
      assert instructions[..i + 1][..i] == instructions[..i];
      assert forall j :: 0 <= j < i ==> instructions[..i + 1][j] == instructions[..i][j];
      if IsExport(p, v) {
        ExportsKnown(p, v);
        var active := ActiveGuard(p, v);
        if p.values[v].exportInfo.stencil && !Boolean(p, active, false) {
          state := state.(written := state.written + {Recorded(p, active)});
        }
        if p.values[v].exportInfo.validMask {
          state := state.(live := Recorded(p, active), liveKnown := true);
        }
      }
    }
    assert instructions[..|instructions|] == instructions;
  }

  // ----- The whole analysis

  ghost predicate UpTo(edges: Edges, sources: seq<nat>, b: nat, k: nat) {
    forall a: nat :: a in sources <==> a < k && a < |edges| && b in edges[a]
  }

  lemma TableAt(p: Program, edges: Edges, i: nat)
    requires TableOk(p, edges) && i < |p.metadata|
    ensures BlockOk(p, i, edges[i])
  {
  }

  lemma TableCloses(p: Program, edges: Edges)
    requires |edges| == |p.metadata| && forall i :: 0 <= i < |edges| ==> BlockOk(p, i, edges[i])
    ensures Closed(edges)
  {
    forall i, k | 0 <= i < |edges| && 0 <= k < |edges[i]| ensures edges[i][k] < |edges| {
      assert BlockOk(p, i, edges[i]);
      DanglingHasNoEdges(p.metadata, i, edges[i]);
    }
  }

  /** Resolves every terminator and lists, for each block, the blocks that jump to it. */
  method BuildEdges(p: Program) returns (ok: bool, edges: Edges, predecessors: seq<seq<nat>>)
    requires 0 < |p.blocks| == |p.metadata| && DistinctIds(p.metadata)
    ensures ok ==> TableOk(p, edges) && Closed(edges)
    ensures ok ==> |predecessors| == |edges| && forall b :: 0 <= b < |edges| ==>
            PredecessorsOf(edges, predecessors[b], b)
    ensures !ok ==> forall other :: !TableOk(p, other)
  {
    edges, predecessors := [], seq(|p.blocks|, _ => []);
    for i := 0 to |p.metadata|
      invariant |edges| == i && |predecessors| == |p.blocks|
      invariant forall j :: 0 <= j < i ==> BlockOk(p, j, edges[j])
      invariant forall b :: 0 <= b < |predecessors| ==> UpTo(edges, predecessors[b], b, i)
    {
      var info := p.metadata[i];
      if info.loopHeader || info.kind.OtherKind? {
        forall other: Edges ensures !TableOk(p, other) {
          if TableOk(p, other) { TableAt(p, other, i); }
        }
        return false, edges, predecessors;
      }
      var list := ResolveTargets(p.metadata, i);
      if list.None? {
        forall other: Edges ensures !TableOk(p, other) {
          if TableOk(p, other) {
            TableAt(p, other, i);
            DanglingHasNoEdges(p.metadata, i, other[i]);
          }
        }
        return false, edges, predecessors;
      }
      DanglingHasNoEdges(p.metadata, i, list.value);
      predecessors := AddPredecessors(edges, predecessors, list.value);
      edges := edges + [list.value];
    }
    TableCloses(p, edges);
    forall b | 0 <= b < |edges| ensures PredecessorsOf(edges, predecessors[b], b) {
      assert UpTo(edges, predecessors[b], b, |edges|);
    }
    ok := true;
  }

  method AddPredecessors(edges: Edges, before: seq<seq<nat>>, list: seq<nat>) returns (predecessors: seq<seq<nat>>)
    requires forall k :: 0 <= k < |list| ==> list[k] < |before|
    requires forall b :: 0 <= b < |before| ==> UpTo(edges, before[b], b, |edges|)
    ensures |predecessors| == |before|
    ensures forall b :: 0 <= b < |before| ==> UpTo(edges + [list], predecessors[b], b, |edges| + 1)
  {
    predecessors := before;
    for k := 0 to |list|
      invariant |predecessors| == |before|
      invariant forall b, a: nat :: 0 <= b < |before| ==>
                (a in predecessors[b] <==> a in before[b] || (a == |edges| && b in list[..k]))
    {
      assert list[..k + 1] == list[..k] + [list[k]];
      predecessors := predecessors[list[k] := predecessors[list[k]] + [|edges|]];
    }
    assert list[..|list|] == list;
    forall b | 0 <= b < |before| ensures UpTo(edges + [list], predecessors[b], b, |edges| + 1) {
      assert UpTo(edges, before[b], b, |edges|);
    }
  }

  method IdsDistinct(metadata: seq<BlockInfo>) returns (ok: bool)
    ensures ok <==> DistinctIds(metadata)
  {
    for i := 0 to |metadata|
      invariant forall j, k :: 0 <= j < k < i ==> metadata[j].id != metadata[k].id
    {
      var seen := FindId(metadata[..i], metadata[i].id);
      if seen.Some? { return false; }
      forall j | 0 <= j < i ensures metadata[j].id != metadata[i].id {
        assert !Names(metadata[..i], metadata[i].id, j);
      }
    }
    return true;
  }

  /** Visits from the entry, then resolves every visited block. */
  method Analyse(p: Program, oracle: Oracle, edges: Edges, predecessors: seq<seq<nat>>) returns (ok: bool)
    requires WellFormed(p) && TableOk(p, edges) && Closed(edges)
    requires |predecessors| == |edges| && forall b :: 0 <= b < |edges| ==> PredecessorsOf(edges, predecessors[b], b)
    ensures ok <==> Accepted(p, edges, oracle)
  {
    var reached := new nat[|edges|](_ => 0);
    ghost var rank, clock;
    ok, rank, clock := Visit(edges, reached, 0, map[], 0, [0]);
    if !ok { return; }
    var colors := reached[..];
    EntryIsAcyclic(edges, colors, rank, clock);
    forall b | 0 <= b < |edges| && colors[b] == 2 ensures NodeOk(edges, predecessors[b], colors, rank, clock, b) {
      VisitedNode(edges, predecessors[b], colors, rank, clock, b);
    }
    ok := ResolveAll(p, oracle, edges, predecessors, colors, rank, clock);
  }

  method ResolveAll(p: Program, oracle: Oracle, edges: Edges, predecessors: seq<seq<nat>>, colors: seq<nat>,
                    ghost rank: map<nat, nat>, ghost clock: nat)
    returns (ok: bool)
    requires WellFormed(p) && |predecessors| == |edges| == |colors| == |p.metadata|
    requires forall b :: 0 <= b < |edges| && colors[b] == 2 ==> NodeOk(edges, predecessors[b], colors, rank, clock, b)
    requires forall b :: 0 <= b < |edges| && Reachable(edges, b) ==> colors[b] == 2
    ensures ok <==> forall b :: 0 <= b < |edges| && Reachable(edges, b) && p.metadata[b].kind.ReturnKind? ==>
            ReturnDefined(p, edges, oracle, b)
  {
    var resolver := new Resolver(p, edges, predecessors, oracle, colors, rank, clock);
    for index := 0 to |edges|
      invariant resolver.Valid() && fresh(resolver) && fresh(resolver.states)
      invariant forall b :: 0 <= b < index && colors[b] == 2 ==> resolver.states[b].Some?
    {
      if colors[index] == 2 { var _ := resolver.Resolve(index); }
    }
    ok := resolver.valid;
    Verdict(resolver);
  }

  /** Yes exactly for the programs `Accepted` describes over all paths, which AcceptedDefinesKeptInvocations shows to be
      safe. */
  method StencilReferenceDefinedForKeptInvocations(p: Program, oracle: Oracle) returns (ok: bool)
    requires WellFormed(p)
    ensures ok <==> exists edges :: Accepted(p, edges, oracle)
  {
    if |p.blocks| == 0 || |p.blocks| != |p.metadata| { return false; }
    ok := IdsDistinct(p.metadata);
    if !ok { return; }
    var edges, predecessors;
    ok, edges, predecessors := BuildEdges(p);
    if !ok { return; }
    TablesAgree(p, edges);
    ok := Analyse(p, oracle, edges, predecessors);
  }

  lemma TablesAgree(p: Program, edges: Edges)
    requires TableOk(p, edges)
    ensures forall other :: TableOk(p, other) ==> other == edges
  {
    forall other | TableOk(p, other) ensures other == edges {
      forall i | 0 <= i < |edges| ensures other[i] == edges[i] {
        EdgesDetermined(p.metadata, i, other[i], edges[i]);
      }
    }
  }

  lemma EntryIsAcyclic(edges: Edges, colors: seq<nat>, rank: map<nat, nat>, clock: nat)
    requires Closed(edges) && |edges| > 0 && BlackOk(edges, colors, rank, clock) && colors[0] == 2
    ensures NoCycleFromEntry(edges)
    ensures forall b :: 0 <= b < |edges| && Reachable(edges, b) ==> colors[b] == 2
  {
    BlackEntryHasNoCycle(edges, colors, rank, clock);
    forall b | 0 <= b < |edges| && Reachable(edges, b) ensures colors[b] == 2 {
      ReachableIsBlack(edges, colors, rank, clock, b);
    }
  }

  lemma Verdict(resolver: Resolver)
    requires resolver.Valid()
    requires forall b :: 0 <= b < |resolver.edges| && resolver.reached[b] == 2 ==> resolver.states[b].Some?
    requires forall b :: 0 <= b < |resolver.edges| && Reachable(resolver.edges, b) ==> resolver.reached[b] == 2
    ensures resolver.valid <==>
            forall b ::
              0 <= b < |resolver.edges| && Reachable(resolver.edges, b) && resolver.p.metadata[b].kind.ReturnKind? ==>
                ReturnDefined(resolver.p, resolver.edges, resolver.oracle, b)
  {
    forall b | 0 <= b < |resolver.edges|
      ensures resolver.Undefined(b) <==>
        Reachable(resolver.edges, b) && resolver.p.metadata[b].kind.ReturnKind?
          && !ReturnDefined(resolver.p, resolver.edges, resolver.oracle, b)
    {
      assert resolver.Resolved(b);
      if resolver.states[b].Some? {
        VisitedIsReachable(resolver.edges, resolver.predecessors[b], resolver.reached, resolver.rank, resolver.clock,
                           b);
        ReturnCheck(resolver.p, resolver.edges, resolver.oracle, b, resolver.states[b].value);
      }
    }
  }

  lemma VisitedIsReachable(edges: Edges, sources: seq<nat>, reached: seq<nat>, rank: map<nat, nat>, clock: nat, b: nat)
    requires |reached| == |edges| && NodeOk(edges, sources, reached, rank, clock, b)
    ensures Reachable(edges, b)
  {
    var q :| q in Before(edges, sources, b);
    assert (q + [b])[..|q|] == q;
    assert q + [b] in PathsTo(edges, b);
  }
}
