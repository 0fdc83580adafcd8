/** The cycle test over block metadata: an explicit-stack walk with three colours. */
module ControlFlowWalk {
  import opened Wrappers
  import opened ShaderIr

  /** The block list (possibly with null entries), the metadata beside it, and the successors each block records. */
  datatype ControlFlow = ControlFlow(blocks: seq<Option<nat>>, metadata: seq<BlockInfo>, recorded: nat -> set<nat>)

  type Edges = seq<seq<nat>>

  const MAX_BLOCKS := 4096

  ghost predicate WalkOf(edges: Edges, walk: seq<nat>) {
    && (forall i :: 0 <= i < |walk| ==> walk[i] < |edges|)
    && (forall i :: 0 <= i < |walk| - 1 ==> walk[i + 1] in edges[walk[i]])
  }

  ghost predicate NoRepeat(walk: seq<nat>) {
    forall i, j :: 0 <= i < j < |walk| ==> walk[i] != walk[j]
  }

  /** No cycle can be reached from block 0: no walk from it meets a block twice. */
  ghost predicate NoCycleFromEntry(edges: Edges) {
    forall walk: seq<nat> :: |walk| > 0 && walk[0] == 0 && WalkOf(edges, walk) ==> NoRepeat(walk)
  }

  // ----- What the metadata must look like

  ghost predicate DistinctIds(metadata: seq<BlockInfo>) {
    forall i, j :: 0 <= i < j < |metadata| ==> metadata[i].id != metadata[j].id
  }

  ghost predicate Names(metadata: seq<BlockInfo>, id: nat, index: nat) {
    index < |metadata| && metadata[index].id == id
  }

  /** The ids a terminator jumps to, in the order the edges are listed. */
  function Targets(info: BlockInfo): seq<nat> {
    match info.kind
    case BranchKind => [info.trueBlock]
    case ConditionalKind => [info.trueBlock, info.falseBlock]
    case _ => []
  }

  ghost predicate EdgeListOf(metadata: seq<BlockInfo>, index: nat, list: seq<nat>)
    requires index < |metadata|
  {
    var info := metadata[index];
    match info.kind
    case BranchKind => |list| == 1 && Names(metadata, info.trueBlock, list[0])
    case ConditionalKind =>
      |list| == 2 && Names(metadata, info.trueBlock, list[0]) && Names(metadata, info.falseBlock, list[1])
    case _ => list == []
  }

  /** Block ids are distinct, so a terminator resolves in only one way. */
  lemma EdgesDetermined(metadata: seq<BlockInfo>, index: nat, list: seq<nat>, other: seq<nat>)
    requires DistinctIds(metadata) && index < |metadata|
    requires EdgeListOf(metadata, index, list) && EdgeListOf(metadata, index, other)
    ensures list == other
  {
    var ids := Targets(metadata[index]);
    forall k | 0 <= k < |ids| ensures list[k] == other[k] {
      assert Names(metadata, ids[k], list[k]) && Names(metadata, ids[k], other[k]);
    }
  }

  /** Some target id names no block, so the terminator does not resolve. */
  ghost predicate Dangling(metadata: seq<BlockInfo>, index: nat)
    requires index < |metadata|
  {
    exists k :: 0 <= k < |Targets(metadata[index])| && NamesNothing(metadata, Targets(metadata[index])[k])
  }

  ghost predicate NamesNothing(metadata: seq<BlockInfo>, id: nat) { forall i :: !Names(metadata, id, i) }

  lemma DanglingHasNoEdges(metadata: seq<BlockInfo>, index: nat, list: seq<nat>)
    requires index < |metadata| && EdgeListOf(metadata, index, list)
    ensures !Dangling(metadata, index)
    ensures forall k :: 0 <= k < |list| ==> list[k] < |metadata|
  {
    forall k | 0 <= k < |Targets(metadata[index])| ensures !NamesNothing(metadata, Targets(metadata[index])[k]) {
      assert Names(metadata, Targets(metadata[index])[k], list[k]);
    }
  }

  method FindId(metadata: seq<BlockInfo>, id: nat) returns (index: Option<nat>)
    ensures index.Some? ==> Names(metadata, id, index.value)
    ensures index.None? ==> NamesNothing(metadata, id)
  {
    for i := 0 to |metadata|
      invariant forall j :: 0 <= j < i ==> !Names(metadata, id, j)
    {
      if metadata[i].id == id { return Some(i); }
    }
    return None;
  }

  /** Looks up the blocks one terminator jumps to, or reports an id that names no block. */
  method ResolveTargets(metadata: seq<BlockInfo>, index: nat) returns (list: Option<seq<nat>>)
    requires index < |metadata|
    ensures list.Some? ==> EdgeListOf(metadata, index, list.value)
    ensures list.None? ==> Dangling(metadata, index)
  {
    var ids, found := Targets(metadata[index]), [];
    for k := 0 to |ids|
      invariant |found| == k && forall j :: 0 <= j < k ==> Names(metadata, ids[j], found[j])
    {
      var target := FindId(metadata, ids[k]);
      if target.None? {
        return None;
      }
      found := found + [target.value];
    }
    return Some(found);
  }

  ghost predicate ListsOk(f: ControlFlow) {
    && 0 < |f.blocks| == |f.metadata| <= MAX_BLOCKS
    && (forall i :: 0 <= i < |f.blocks| ==> f.blocks[i].Some?)
    && (forall i, j :: 0 <= i < j < |f.blocks| ==> f.blocks[i] != f.blocks[j])
    && DistinctIds(f.metadata)
  }

  ghost predicate TerminatorOk(f: ControlFlow, index: nat, list: seq<nat>)
    requires index < |f.metadata| == |f.blocks| && f.blocks[index].Some?
  {
    var info := f.metadata[index];
    && !info.loopHeader && !info.kind.OtherKind? && (info.kind.ConditionalKind? ==> info.hasCondition)
    && EdgeListOf(f.metadata, index, list)
    && (forall k :: 0 <= k < |list| ==> f.blocks[list[k]].Some?)
    && f.recorded(f.blocks[index].value) == set k | 0 <= k < |list| :: f.blocks[list[k]].value
  }

  /** `edges` is the successor table of metadata that passes every check. */
  ghost predicate EdgesOf(f: ControlFlow, edges: Edges) {
    && ListsOk(f)
    && |edges| == |f.blocks|
    && forall i :: 0 <= i < |edges| ==> TerminatorOk(f, i, edges[i])
  }

  /** Resolves one block's terminator, or reports that it fails a check. */
  method ResolveEdges(f: ControlFlow, index: nat) returns (list: Option<seq<nat>>)
    requires ListsOk(f) && index < |f.blocks|
    ensures list.Some? ==> TerminatorOk(f, index, list.value)
    ensures list.None? ==> forall l :: !TerminatorOk(f, index, l)
  {
    var info := f.metadata[index];
    if info.loopHeader || info.kind.OtherKind? || (info.kind.ConditionalKind? && !info.hasCondition) { return None; }
    list := ResolveTargets(f.metadata, index);
    if list.None? {
      forall l ensures !TerminatorOk(f, index, l) {
        if TerminatorOk(f, index, l) { DanglingHasNoEdges(f.metadata, index, l); }
      }
    } else {
      var found := list.value;
      assert forall k :: 0 <= k < |found| ==> Names(f.metadata, Targets(info)[k], found[k]);
      var expected := set k | 0 <= k < |found| :: f.blocks[found[k]].value;
      if f.recorded(f.blocks[index].value) != expected {
        forall l ensures !TerminatorOk(f, index, l) {
          if TerminatorOk(f, index, l) { EdgesDetermined(f.metadata, index, l, found); }
        }
        return None;
      }
    }
  }

  // ----- The walk

  type Frame = (nat, nat)

  ghost predicate InRange(edges: Edges, frame: Frame) { frame.0 < |edges| && frame.1 <= |edges[frame.0]| }

  /** Edges the frames have still to take, and the frames themselves. */
  ghost function Work(edges: Edges, pending: seq<Frame>): nat {
    if pending == [] then 0
    else
      var top := pending[|pending| - 1];
      Work(edges, pending[..|pending| - 1]) + if InRange(edges, top) then |edges[top.0]| - top.1 + 1 else 0
  }

  ghost function Trail(pending: seq<Frame>): seq<nat> { seq(|pending|, i requires 0 <= i < |pending| => pending[i].0) }

  /** The first `done` edges of block `b` lead to black blocks. */
  ghost predicate DoneBlack(edges: Edges, colors: seq<nat>, b: nat, done: int) {
    |colors| == |edges| && b < |edges| && done <= |edges[b]| &&
    forall k :: 0 <= k < done ==> edges[b][k] < |colors| && colors[edges[b][k]] == 2
  }

  /** A grey block on the stack: its edges already taken lead to black blocks, the last of them to the frame above. */
  ghost predicate FrameOk(edges: Edges, colors: seq<nat>, pending: seq<Frame>, i: nat)
    requires i < |pending|
  {
    var (block, edge) := pending[i];
    && InRange(edges, pending[i]) && |colors| == |edges| && colors[block] == 1
    && (if i < |pending| - 1 then
          edge > 0 && edges[block][edge - 1] == pending[i + 1].0 && DoneBlack(edges, colors, block, edge - 1)
        else DoneBlack(edges, colors, block, edge))
  }

  ghost predicate DistinctFrames(pending: seq<Frame>) {
    forall i, j :: 0 <= i < j < |pending| ==> pending[i].0 != pending[j].0
  }

  ghost predicate GreyOnStack(colors: seq<nat>, pending: seq<Frame>) {
    forall b :: 0 <= b < |colors| && colors[b] == 1 ==> OnStack(pending, b)
  }

  /** The stack holds exactly the grey blocks, as a walk from block 0. */
  ghost predicate StackOk(edges: Edges, colors: seq<nat>, pending: seq<Frame>) {
    && |colors| == |edges|
    && (forall i :: 0 <= i < |pending| ==> FrameOk(edges, colors, pending, i))
    && DistinctFrames(pending)
    && GreyOnStack(colors, pending)
    && (|pending| > 0 ==> pending[0].0 == 0)
  }

  ghost predicate OnStack(pending: seq<Frame>, b: nat) { exists i :: 0 <= i < |pending| && pending[i].0 == b }

  /** Black blocks were finished after all their successors. */
  ghost predicate BlackOk(edges: Edges, colors: seq<nat>, rank: map<nat, nat>, clock: nat) {
    && |colors| == |edges|
    && forall b :: 0 <= b < |colors| && colors[b] == 2 ==> b in rank && rank[b] < clock
                                                           && FinishedOk(edges, colors, rank, b)
  }

  ghost predicate FinishedOk(edges: Edges, colors: seq<nat>, rank: map<nat, nat>, b: nat)
    requires b < |edges| && b in rank
  {
    DoneBlack(edges, colors, b, |edges[b]|) &&
    forall k :: 0 <= k < |edges[b]| ==> edges[b][k] in rank && rank[edges[b][k]] < rank[b]
  }

  ghost predicate Closed(edges: Edges) {
    forall b, k :: 0 <= b < |edges| && 0 <= k < |edges[b]| ==> edges[b][k] < |edges|
  }

  ghost function White(colors: seq<nat>): set<nat> { set b | 0 <= b < |colors| && colors[b] == 0 }

  /** Every successor of the top block has been taken: it turns black and leaves the stack. */
  lemma FinishStack(edges: Edges, colors: seq<nat>, pending: seq<Frame>)
    requires StackOk(edges, colors, pending) && |pending| > 0
    requires InRange(edges, pending[|pending| - 1]) && pending[|pending| - 1].1 == |edges[pending[|pending| - 1].0]|
    ensures StackOk(edges, colors[pending[|pending| - 1].0 := 2], pending[..|pending| - 1])
  {
    var last := |pending| - 1;
    var rest, now := pending[..last], colors[pending[last].0 := 2];
    assert FrameOk(edges, colors, pending, last);
    forall b | 0 <= b < |now| && now[b] == 1 ensures OnStack(rest, b) {
      assert OnStack(pending, b);
      var i :| 0 <= i < |pending| && pending[i].0 == b;
      assert rest[i].0 == b;
    }
    forall i | 0 <= i < |rest| ensures FrameOk(edges, now, rest, i) {
      assert FrameOk(edges, colors, pending, i);
    }
  }

  lemma FinishBlack(edges: Edges, colors: seq<nat>, rank: map<nat, nat>, clock: nat, block: nat)
    requires BlackOk(edges, colors, rank, clock) && block < |edges| && colors[block] == 1
    requires DoneBlack(edges, colors, block, |edges[block]|)
    ensures BlackOk(edges, colors[block := 2], rank[block := clock], clock + 1)
  {
    var now, later := colors[block := 2], rank[block := clock];
    forall b | 0 <= b < |now| && now[b] == 2 ensures b in later && later[b] < clock + 1
        && FinishedOk(edges, now, later, b) {
      if b != block {
        assert FinishedOk(edges, colors, rank, b);
        forall k | 0 <= k < |edges[b]| ensures edges[b][k] in later && later[edges[b][k]] < later[b] {
          assert colors[edges[b][k]] == 2;
        }
      }
    }
  }

  /** The top block's next edge leads to a white block: it turns grey on top of the stack. */
  lemma PushStack(edges: Edges, colors: seq<nat>, pending: seq<Frame>, block: nat, edge: nat)
    requires Closed(edges) && StackOk(edges, colors, pending) && |pending| > 0
    requires pending[|pending| - 1] == (block, edge) && block < |edges| && edge < |edges[block]|
             && colors[edges[block][edge]] == 0
    ensures StackOk(edges, colors[edges[block][edge] := 1],
                    pending[|pending| - 1 := (block, edge + 1)] + [(edges[block][edge], 0)])
  {
    var last, next := |pending| - 1, edges[block][edge];
    var now, stack := colors[next := 1], pending[last := (block, edge + 1)] + [(next, 0)];
    forall b | 0 <= b < |now| && now[b] == 1 ensures OnStack(stack, b) {
      if b == next {
        assert stack[last + 1].0 == b;
      } else {
        assert OnStack(pending, b);
        var i :| 0 <= i < |pending| && pending[i].0 == b;
        assert stack[i].0 == b;
      }
    }
    forall i | 0 <= i < |stack| ensures FrameOk(edges, now, stack, i) {
      if i <= last { assert FrameOk(edges, colors, pending, i); }
    }
    forall i, j | 0 <= i < j < |stack| ensures stack[i].0 != stack[j].0 {
      assert FrameOk(edges, colors, pending, i);
    }
  }

  /** The top block's next edge leads to a black block: it is simply taken. */
  lemma SkipStack(edges: Edges, colors: seq<nat>, pending: seq<Frame>, block: nat, edge: nat)
    requires Closed(edges) && StackOk(edges, colors, pending) && |pending| > 0
    requires pending[|pending| - 1] == (block, edge) && block < |edges| && edge < |edges[block]|
             && colors[edges[block][edge]] == 2
    ensures StackOk(edges, colors, pending[|pending| - 1 := (block, edge + 1)])
  {
    var stack := pending[|pending| - 1 := (block, edge + 1)];
    forall b | 0 <= b < |colors| && colors[b] == 1 ensures OnStack(stack, b) {
      assert OnStack(pending, b);
      var i :| 0 <= i < |pending| && pending[i].0 == b;
      assert stack[i].0 == b;
    }
    forall i | 0 <= i < |stack| ensures FrameOk(edges, colors, stack, i) {
      assert FrameOk(edges, colors, pending, i);
    }
  }

  lemma ColorsKept(edges: Edges, colors: seq<nat>, rank: map<nat, nat>, clock: nat, next: nat)
    requires BlackOk(edges, colors, rank, clock) && next < |colors| && colors[next] == 0
    ensures BlackOk(edges, colors[next := 1], rank, clock)
  {
    var now := colors[next := 1];
    forall b | 0 <= b < |now| && now[b] == 2 ensures FinishedOk(edges, now, rank, b) {
      assert FinishedOk(edges, colors, rank, b);
    }
  }

  lemma {:induction false} BlackWalksDescend(edges: Edges, colors: seq<nat>, rank: map<nat, nat>, clock: nat,
                                             walk: seq<nat>, i: nat, j: nat)
    requires Closed(edges) && BlackOk(edges, colors, rank, clock) && WalkOf(edges, walk)
    requires i < j < |walk| && colors[walk[i]] == 2
    ensures colors[walk[j]] == 2 && rank[walk[j]] < rank[walk[i]]
    decreases j
  {
    if j > i + 1 { BlackWalksDescend(edges, colors, rank, clock, walk, i, j - 1); }
    assert walk[j - 1 + 1] in edges[walk[j - 1]];
  }

  lemma {:induction false} BlackEntryHasNoCycle(edges: Edges, colors: seq<nat>, rank: map<nat, nat>, clock: nat)
    requires Closed(edges) && |edges| > 0 && BlackOk(edges, colors, rank, clock) && colors[0] == 2
    ensures NoCycleFromEntry(edges)
  {
    forall walk: seq<nat>, i, j | |walk| > 0 && walk[0] == 0 && WalkOf(edges, walk) && 0 <= i < j < |walk|
      ensures walk[i] != walk[j] {
      if i > 0 { BlackWalksDescend(edges, colors, rank, clock, walk, 0, i); }
      BlackWalksDescend(edges, colors, rank, clock, walk, i, j);
    }
  }

  lemma GreyEdgeIsACycle(edges: Edges, colors: seq<nat>, pending: seq<Frame>, next: nat)
    requires StackOk(edges, colors, pending) && |pending| > 0
    requires InRange(edges, pending[|pending| - 1]) && next < |edges| && next in edges[pending[|pending| - 1].0]
             && colors[next] == 1
    ensures !NoCycleFromEntry(edges)
  {
    var walk := Trail(pending) + [next];
    forall i | 0 <= i < |walk| ensures walk[i] < |edges| && (i < |walk| - 1 ==> walk[i + 1] in edges[walk[i]]) {
      if i < |pending| { assert FrameOk(edges, colors, pending, i); }
    }
    assert OnStack(pending, next);
    var i :| 0 <= i < |pending| && pending[i].0 == next;
    assert walk[0] == 0 && walk[i] == walk[|pending|];
  }

  ghost predicate WalkOk(edges: Edges, colors: seq<nat>, pending: seq<Frame>, rank: map<nat, nat>, clock: nat) {
    && |colors| == |edges| > 0 && Closed(edges)
    && StackOk(edges, colors, pending) && BlackOk(edges, colors, rank, clock)
    && colors[0] != 0 && forall b :: 0 <= b < |colors| ==> colors[b] <= 2
  }

  lemma TopFrame(edges: Edges, colors: seq<nat>, pending: seq<Frame>, rank: map<nat, nat>, clock: nat)
    requires WalkOk(edges, colors, pending, rank, clock) && |pending| > 0
    ensures InRange(edges, pending[|pending| - 1]) && colors[pending[|pending| - 1].0] == 1
  {
    assert FrameOk(edges, colors, pending, |pending| - 1);
  }

  lemma FinishStep(edges: Edges, colors: seq<nat>, pending: seq<Frame>, rank: map<nat, nat>, clock: nat, block: nat)
    requires WalkOk(edges, colors, pending, rank, clock) && |pending| > 0 && block < |edges|
    requires pending[|pending| - 1] == (block, |edges[block]|)
    ensures WalkOk(edges, colors[block := 2], pending[..|pending| - 1], rank[block := clock], clock + 1)
    ensures White(colors[block := 2]) == White(colors) && Work(edges, pending[..|pending| - 1]) < Work(edges, pending)
  {
    TopFrame(edges, colors, pending, rank, clock);
    assert FrameOk(edges, colors, pending, |pending| - 1);
    FinishStack(edges, colors, pending);
    FinishBlack(edges, colors, rank, clock, block);
  }

  lemma PushStep(edges: Edges, colors: seq<nat>, pending: seq<Frame>, rank: map<nat, nat>, clock: nat, block: nat,
                 edge: nat)
    requires WalkOk(edges, colors, pending, rank, clock) && |pending| > 0 && block < |edges| && edge < |edges[block]|
    requires pending[|pending| - 1] == (block, edge) && edges[block][edge] < |colors| && colors[edges[block][edge]] == 0
    ensures WalkOk(edges, colors[edges[block][edge] := 1],
                   pending[|pending| - 1 := (block, edge + 1)] + [(edges[block][edge], 0)], rank, clock)
    ensures White(colors[edges[block][edge] := 1]) < White(colors)
  {
    PushStack(edges, colors, pending, block, edge);
    ColorsKept(edges, colors, rank, clock, edges[block][edge]);
    assert edges[block][edge] in White(colors) && edges[block][edge] !in White(colors[edges[block][edge] := 1]);
  }

  lemma SkipStep(edges: Edges, colors: seq<nat>, pending: seq<Frame>, rank: map<nat, nat>, clock: nat, block: nat,
                 edge: nat)
    requires WalkOk(edges, colors, pending, rank, clock) && |pending| > 0 && block < |edges| && edge < |edges[block]|
    requires pending[|pending| - 1] == (block, edge) && edges[block][edge] < |colors| && colors[edges[block][edge]] == 2
    ensures WalkOk(edges, colors, pending[|pending| - 1 := (block, edge + 1)], rank, clock)
    ensures Work(edges, pending[|pending| - 1 := (block, edge + 1)]) < Work(edges, pending)
  {
    SkipStack(edges, colors, pending, block, edge);
    assert pending[|pending| - 1 := (block, edge + 1)][..|pending| - 1] == pending[..|pending| - 1];
  }

  lemma WalkStarts(edges: Edges, colors: seq<nat>)
    requires |colors| == |edges| > 0 && Closed(edges) && colors[0] == 1
             && forall b :: 0 < b < |colors| ==> colors[b] == 0
    ensures WalkOk(edges, colors, [(0, 0)], map[], 0)
  {
    var pending: seq<Frame> := [(0, 0)];
    assert pending[0].0 == 0;
    assert OnStack(pending, 0);
  }

  lemma WalkEnds(edges: Edges, colors: seq<nat>, rank: map<nat, nat>, clock: nat)
    requires WalkOk(edges, colors, [], rank, clock)
    ensures NoCycleFromEntry(edges)
  {
    assert colors[0] == 1 ==> OnStack([], 0);
    BlackEntryHasNoCycle(edges, colors, rank, clock);
  }

  method Walk(edges: Edges) returns (ok: bool)
    requires |edges| > 0 && Closed(edges)
    ensures ok <==> NoCycleFromEntry(edges)
  {
    var colors := new nat[|edges|](_ => 0);
    var pending: seq<Frame> := [(0, 0)];
    colors[0] := 1;
    ghost var rank: map<nat, nat>, clock: nat := map[], 0;
    WalkStarts(edges, colors[..]);
    while pending != []
      invariant WalkOk(edges, colors[..], pending, rank, clock)
      decreases White(colors[..]), Work(edges, pending)
    {
      var last := |pending| - 1;
      var (block, edge) := pending[last];
      ghost var before, stack := colors[..], pending;
      TopFrame(edges, before, stack, rank, clock);
      if edge == |edges[block]| {
        FinishStep(edges, before, stack, rank, clock, block);
        colors[block] := 2;
        assert colors[..] == before[block := 2];
        pending := pending[..last];
        rank, clock := rank[block := clock], clock + 1;
        continue;
      }
      var next := edges[block][edge];
      pending := pending[last := (block, edge + 1)];
      if colors[next] == 1 {
        GreyEdgeIsACycle(edges, before, stack, next);
        return false;
      }
      if colors[next] == 2 {
        SkipStep(edges, before, stack, rank, clock, block, edge);
        continue;
      }
      PushStep(edges, before, stack, rank, clock, block, edge);
      colors[next] := 1;
      assert colors[..] == before[next := 1];
      pending := pending + [(next, 0)];
    }
    WalkEnds(edges, colors[..], rank, clock);
    return true;
  }

  /** The answer is yes exactly when the metadata passes every check and no cycle is reachable from block 0. */
  method FaultControlFlowAcyclic(f: ControlFlow) returns (ok: bool)
    ensures ok <==> exists edges :: EdgesOf(f, edges) && NoCycleFromEntry(edges)
  {
    if |f.blocks| == 0 || |f.blocks| != |f.metadata| || |f.blocks| > MAX_BLOCKS { return false; }
    var owned, ids := {}, {};
    for i := 0 to |f.blocks|
      invariant forall j :: 0 <= j < i ==> f.blocks[j].Some?
      invariant forall j, k :: 0 <= j < k < i ==> f.blocks[j] != f.blocks[k] && f.metadata[j].id != f.metadata[k].id
      invariant owned == set j | 0 <= j < i :: f.blocks[j]
      invariant ids == set j | 0 <= j < i :: f.metadata[j].id
    {
      if f.blocks[i].None? || f.blocks[i] in owned || f.metadata[i].id in ids { return false; }
      owned, ids := owned + {f.blocks[i]}, ids + {f.metadata[i].id};
    }
    var successors: Edges := [];
    for i := 0 to |f.blocks|
      invariant |successors| == i && forall j :: 0 <= j < i ==> TerminatorOk(f, j, successors[j])
    {
      var list := ResolveEdges(f, i);
      if list.None? {
        forall edges ensures !EdgesOf(f, edges) {
          if EdgesOf(f, edges) { EdgesAt(f, edges, i); }
        }
        return false;
      }
      successors := successors + [list.value];
    }
    EdgesUnique(f, successors);
    ok := Walk(successors);
  }

  lemma EdgesAt(f: ControlFlow, edges: Edges, i: nat)
    requires EdgesOf(f, edges) && i < |f.blocks|
    ensures i < |edges| && TerminatorOk(f, i, edges[i])
  {
  }

  lemma EdgesUnique(f: ControlFlow, edges: Edges)
    requires EdgesOf(f, edges)
    ensures Closed(edges)
    ensures forall other :: EdgesOf(f, other) ==> other == edges
  {
    forall i, k | 0 <= i < |edges| && 0 <= k < |edges[i]| ensures edges[i][k] < |edges| {
      EdgesAt(f, edges, i);
      DanglingHasNoEdges(f.metadata, i, edges[i]);
    }
    forall other | EdgesOf(f, other) ensures other == edges {
      forall i | 0 <= i < |edges| ensures other[i] == edges[i] {
        EdgesAt(f, edges, i);
        EdgesAt(f, other, i);
        EdgesDetermined(f.metadata, i, other[i], edges[i]);
      }
    }
  }
}
