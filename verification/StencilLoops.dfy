/** Why the search for stencil reference values needs control flow without a cycle: over any other there is a program
whose answer misses a reference that is exported. */
module StencilLoops {
  import opened Wrappers
  import opened ShaderIr
  import opened GuardImplication
  import opened ControlFlowWalk
  import opened StencilReferences
  import opened StencilValues
  import opened ShaderRuns
  import opened StencilRuns

  // ----- The program

  function Word(value: bv32): IrValue { IrValue(Constant, U32, Some(value), [], [], 0, ExportInfo(false, false)) }

  function Instruction(opcode: Opcode, ty: IrType, arguments: seq<nat>, block: nat,
                       info: ExportInfo := ExportInfo(false, false)): IrValue {
    IrValue(opcode, ty, None, arguments, [], block, info)
  }

  const SEVEN: nat := 0
  const ONE: nat := 1
  const TWO: nat := 2
  const CONDITION: nat := 3
  const CHOICE: nat := 4
  const PHI: nat := 5
  const COLOR: nat := 6
  const EXPORT: nat := 7

  /** 7 from wherever block `h` is entered, but the choice of the last round when it is entered from `q`. */
  function Carried(blocks: nat, h: nat, q: nat): IrValue {
    IrValue(Phi, U32, None, seq(blocks + 1, b => if b == q then CHOICE else SEVEN), seq(blocks + 1, b => b), h,
            ExportInfo(false, false))
  }

  /** Block `h` chooses 1 or 2 by a fresh condition, and under that condition exports what the last round chose. */
  function LoopProgram(metadata: seq<BlockInfo>, h: nat, q: nat): Program {
    Program(
      [Word(7), Word(1), Word(2),
       Instruction(OtherOpcode, Bool, [], h),
       Instruction(SelectU32, U32, [CONDITION, ONE, TWO], h),
       Carried(|metadata|, h, q),
       Instruction(CompositeConstructU32x4, OtherType, [SEVEN, PHI], h),
       Instruction(SetAttribute, OtherType, [COLOR, CONDITION], h, ExportInfo(true, false))],
      seq(|metadata|, b => if b == h then [PHI, CONDITION, CHOICE, COLOR, EXPORT] else []),
      metadata, 32)
  }

  function NoOracle(): Oracle { (c, q) => false }

  lemma LoopWellFormed(metadata: seq<BlockInfo>, h: nat, q: nat)
    ensures var p := LoopProgram(metadata, h, q); WellFormed(p) && Laid(p)
  {
  }

  // ----- What the search answers

  lemma WordBytes(p: Program, active: Guard, v: nat, depth: nat, visiting: set<nat>, value: bv32)
    requires WellFormed(p) && v < |p.values| && Known(p, active) && p.values[v] == Word(value) && depth <= 64
             && v !in visiting
    ensures Bytes(p, NoOracle(), active, v, depth, None, visiting) == Some({LowByte(value)})
  {
    assert |{LowByte(value)}| == 1;
  }

  /** The guard is the condition of the choice, so only 1 is found for it. */
  lemma ChoiceBytes(metadata: seq<BlockInfo>, h: nat, q: nat)
    ensures var p := LoopProgram(metadata, h, q);
            WellFormed(p) && Bytes(p, NoOracle(), Some(CONDITION), CHOICE, 2, None, {COLOR, PHI}) == Some({LowByte(1)})
  {
    var p := LoopProgram(metadata, h, q);
    LoopWellFormed(metadata, h, q);
    assert Implies(p, Some(CONDITION), Some(CONDITION));
    WordBytes(p, Some(CONDITION), ONE, 3, {COLOR, PHI} + {CHOICE}, 1);
  }

  lemma {:induction false} OperandBytes(metadata: seq<BlockInfo>, h: nat, q: nat, vs: seq<nat>)
    requires forall i :: 0 <= i < |vs| ==> vs[i] == CHOICE || vs[i] == SEVEN
    ensures var p := LoopProgram(metadata, h, q);
            && WellFormed(p)
            && var found := BytesOfAll(p, NoOracle(), Some(CONDITION), vs, 1, {COLOR, PHI});
               found.Some? && (vs != [] ==> found.value != {}) && found.value <= {LowByte(7), LowByte(1)}
    decreases |vs|
  {
    var p := LoopProgram(metadata, h, q);
    LoopWellFormed(metadata, h, q);
    if vs != [] {
      OperandBytes(metadata, h, q, vs[..|vs| - 1]);
      ChoiceBytes(metadata, h, q);
      WordBytes(p, Some(CONDITION), SEVEN, 2, {COLOR, PHI}, 7);
    }
  }

  lemma PhiBytes(metadata: seq<BlockInfo>, h: nat, q: nat)
    ensures var p := LoopProgram(metadata, h, q);
            && WellFormed(p)
            && var found := Bytes(p, NoOracle(), Some(CONDITION), PHI, 1, None, {COLOR});
               found.Some? && found.value != {} && found.value <= {LowByte(7), LowByte(1)}
  {
    var p := LoopProgram(metadata, h, q);
    LoopWellFormed(metadata, h, q);
    OperandBytes(metadata, h, q, p.values[PHI].arguments);
    var found := BytesOfAll(p, NoOracle(), Some(CONDITION), p.values[PHI].arguments, 1, {COLOR, PHI}).value;
    assert {COLOR} + {PHI} == {COLOR, PHI};
    AtMostTwo(found);
  }

  lemma AtMostTwo(found: set<bv32>)
    requires found <= {LowByte(7), LowByte(1)}
    ensures |found| <= 2
  {
    var rest := {LowByte(7), LowByte(1)} - found;
    assert found + rest == {LowByte(7), LowByte(1)};
  }

  /** The search answers, and neither it nor anything else finds 2. */
  lemma LoopAnswer(metadata: seq<BlockInfo>, h: nat, q: nat) returns (references: set<bv32>)
    requires h < |metadata|
    ensures Answer(LoopProgram(metadata, h, q), NoOracle(), references) && references <= {LowByte(7), LowByte(1)}
  {
    var p := LoopProgram(metadata, h, q);
    LoopWellFormed(metadata, h, q);
    PhiBytes(metadata, h, q);
    assert {} + {COLOR} == {COLOR};
    var phi := Bytes(p, NoOracle(), Some(CONDITION), PHI, 1, None, {COLOR}).value;
    AtMostTwo(phi);
    assert ReferenceBytes(p, NoOracle(), EXPORT) == Some(phi);
    references := phi;
    OnlyExport(metadata, h, q, phi);
    AtMostTwo(phi);
  }

  lemma OnlyExport(metadata: seq<BlockInfo>, h: nat, q: nat, references: set<bv32>)
    requires h < |metadata| && WellFormed(LoopProgram(metadata, h, q))
    requires ReferenceBytes(LoopProgram(metadata, h, q), NoOracle(), EXPORT) == Some(references)
    ensures AllKnown(LoopProgram(metadata, h, q), NoOracle())
            && Holding(LoopProgram(metadata, h, q), NoOracle(), references)
  {
    var p := LoopProgram(metadata, h, q);
    assert p.blocks[h][4] == EXPORT;
    assert Placed(p, EXPORT);
    ReferenceExact(p, NoOracle(), EXPORT);
    forall v: nat ensures ExportsReference(p, v) <==> v == EXPORT {}
    forall x ensures x in references <==> exists v: nat :: Writes(p, NoOracle(), v, x) {
      if x in references { assert Writes(p, NoOracle(), EXPORT, x); }
    }
  }

  // ----- The execution

  /** A walk from the entry that comes back to a block with its last step, and to none before. */
  ghost predicate ComesBack(edges: Edges, walk: seq<nat>, i: nat) {
    && i < |walk| - 1 && walk[0] == 0 && WalkOf(edges, walk) && NoRepeat(walk[..|walk| - 1])
    && walk[i] == walk[|walk| - 1]
  }

  lemma {:induction false} FirstReturn(edges: Edges, walk: seq<nat>) returns (back: seq<nat>, i: nat)
    requires |walk| > 0 && walk[0] == 0 && WalkOf(edges, walk) && !NoRepeat(walk)
    ensures ComesBack(edges, back, i)
    decreases |walk|
  {
    var last := |walk| - 1;
    var j, k :| 0 <= j < k < |walk| && walk[j] == walk[k];
    if NoRepeat(walk[..last]) {
      assert forall x :: 0 <= x < last ==> walk[..last][x] == walk[x];
      back, i := walk, j;
    } else {
      back, i := FirstReturn(edges, walk[..last]);
    }
  }

  /** The words of the lane: everything changes with the last step only. */
  function LoopWord(last: nat, t: nat, v: nat, c: nat): bv32 {
    if v == SEVEN then 7
    else if v == ONE then 1
    else if v == TWO then 2
    else if v == CONDITION then (if t < last then 0 else 1)
    else if v == CHOICE then (if t < last then 2 else 1)
    else if v == PHI then (if t < last then 7 else 2)
    else if v == COLOR then (if c == 1 then (if t < last then 7 else 2) else 7)
    else 0
  }

  /** One lane walks; in the first round its condition is false, in the second true. */
  ghost function LoopRun(walk: seq<nat>, blocks: nat): Run {
    Run((l: Lane) => if l == 0 then walk else [],
        (l: Lane, t: nat, v: nat, c: nat) => LoopWord(if walk == [] then 0 else |walk| - 1, t, v, c),
        (l: Lane, t: nat, k: Lane) => None,
        (l: Lane) => blocks,
        (l: Lane) => false)
  }

  lemma LoopWords(walk: seq<nat>, blocks: nat)
    requires walk != []
    ensures var r := LoopRun(walk, blocks); r.path(0) == walk && forall l :: l != 0 ==> r.path(l) == []
    ensures forall t: nat, v: nat, c: nat :: LoopRun(walk, blocks).word(0, t, v, c) == LoopWord(|walk| - 1, t, v, c)
  {
  }

  /** The block a walk comes back to, and the one before it. */
  ghost function LoopOf(metadata: seq<BlockInfo>, walk: seq<nat>): Program
    requires |walk| > 1
  {
    LoopProgram(metadata, walk[|walk| - 1], walk[|walk| - 2])
  }

  ghost predicate AllReached(p: Program, r: Run, t: nat) { forall u: nat :: u < 8 ==> Reached(p, r, 0, t, u) }

  lemma LoopOperands(metadata: seq<BlockInfo>, edges: Edges, walk: seq<nat>, i: nat, t: nat, v: nat)
    requires |metadata| == |edges| && ComesBack(edges, walk, i) && v < 8
    requires Enters(LoopOf(metadata, walk), LoopRun(walk, |metadata|), 0, t, v)
             && LoopOf(metadata, walk).values[v].immediate.None?
    ensures t == i || t == |walk| - 1
    ensures AllReached(LoopOf(metadata, walk), LoopRun(walk, |metadata|), t)
    ensures i < t ==> AllReached(LoopOf(metadata, walk), LoopRun(walk, |metadata|), t - 1)
  {
    var p, r, last := LoopOf(metadata, walk), LoopRun(walk, |metadata|), |walk| - 1;
    assert forall x :: 0 <= x < last ==> walk[..last][x] == walk[x];
    forall u: nat, s: nat | u < 8 && i <= s < |walk| ensures Reached(p, r, 0, s, u) {
      if p.values[u].immediate.None? { assert Enters(p, r, 0, i, u); }
    }
    assert t >= i;
  }

  lemma LoopPhi(metadata: seq<BlockInfo>, edges: Edges, walk: seq<nat>, i: nat, t: nat)
    requires |metadata| == |edges| && ComesBack(edges, walk, i)
             && Enters(LoopOf(metadata, walk), LoopRun(walk, |metadata|), 0, t, PHI)
    ensures TakesPhi(LoopOf(metadata, walk), LoopRun(walk, |metadata|), 0, t, PHI)
  {
    var p, r, last := LoopOf(metadata, walk), LoopRun(walk, |metadata|), |walk| - 1;
    var n, from := p.values[PHI], Previous(r, 0, t);
    LoopOperands(metadata, edges, walk, i, t, PHI);
    assert forall x :: 0 <= x < last ==> walk[..last][x] == walk[x];
    LoopWords(walk, |metadata|);
    assert from <= |metadata| && n.phiBlocks[from] == from;
    assert t == last <==> from == walk[last - 1];
    forall k | 0 <= k < |n.phiBlocks| && k < |n.arguments| && n.phiBlocks[k] == from
      ensures TakesOperand(p, r, 0, t, PHI, n.arguments[k]) {
      assert k == from && n.arguments[k] == if t == last then CHOICE else SEVEN;
    }
  }

  lemma LoopOpcode(metadata: seq<BlockInfo>, edges: Edges, walk: seq<nat>, i: nat, t: nat, v: nat)
    requires |metadata| == |edges| && ComesBack(edges, walk, i) && 3 <= v < 8 && v != PHI
    requires Enters(LoopOf(metadata, walk), LoopRun(walk, |metadata|), 0, t, v)
    ensures ComputesAt(LoopOf(metadata, walk), LoopRun(walk, |metadata|), 0, t, v)
  {
    var p, r := LoopOf(metadata, walk), LoopRun(walk, |metadata|);
    LoopOperands(metadata, edges, walk, i, t, v);
    forall u: nat, c: nat ensures Moment(p, r, 0, t).word(0, u, c) == LoopWord(|walk| - 1, t, u, c) {
      MomentOwn(p, r, 0, t, u, c);
    }
  }

  lemma LoopStep(metadata: seq<BlockInfo>, edges: Edges, walk: seq<nat>, i: nat, t: nat, v: nat)
    requires |metadata| == |edges| && ComesBack(edges, walk, i)
    ensures StepOk(LoopOf(metadata, walk), LoopRun(walk, |metadata|), 0, t, v)
  {
    var p, r := LoopOf(metadata, walk), LoopRun(walk, |metadata|);
    LoopWords(walk, |metadata|);
    if t < |walk| && v < 8 && p.values[v].immediate.None? && Enters(p, r, 0, t, v) {
      if v == PHI { LoopPhi(metadata, edges, walk, i, t); } else { LoopOpcode(metadata, edges, walk, i, t, v); }
    }
  }

  lemma LoopRuns(metadata: seq<BlockInfo>, edges: Edges, walk: seq<nat>, i: nat)
    requires |metadata| == |edges| && ComesBack(edges, walk, i)
    ensures Execution(LoopOf(metadata, walk), edges, NoOracle(), LoopRun(walk, |metadata|))
  {
    var p, r := LoopOf(metadata, walk), LoopRun(walk, |metadata|);
    forall l, t: nat, v: nat ensures StepOk(p, r, l, t, v) { if l == 0 { LoopStep(metadata, edges, walk, i, t, v); } }
  }

  /** In the second round 2 is exported, under a guard that is true. */
  lemma LoopExports(metadata: seq<BlockInfo>, edges: Edges, walk: seq<nat>, i: nat, references: set<bv32>)
    requires |metadata| == |edges| && ComesBack(edges, walk, i) && references <= {LowByte(7), LowByte(1)}
    ensures !Covered(LoopOf(metadata, walk), LoopRun(walk, |metadata|), references)
  {
    var p, r, last: nat := LoopOf(metadata, walk), LoopRun(walk, |metadata|), |walk| - 1;
    LoopWords(walk, |metadata|);
    assert Exports(p, r, 0, last, EXPORT) && Reference(p, r, 0, last, EXPORT) == LowByte(2);
    assert LowByte(2) != LowByte(7) && LowByte(2) != LowByte(1);
  }

  // ----- Exactly the control flows without a cycle

  /** `edges` is the edge table of the metadata. */
  ghost predicate FlowOf(metadata: seq<BlockInfo>, edges: Edges) {
    && 0 < |metadata| == |edges| && DistinctIds(metadata)
    && forall i :: 0 <= i < |edges| ==> !metadata[i].kind.OtherKind? && EdgeListOf(metadata, i, edges[i])
  }

  /** Every answer for a program with this metadata has what any execution exports. */
  ghost predicate AnswersRight(metadata: seq<BlockInfo>, edges: Edges) {
    forall p: Program, oracle: Oracle, references: set<bv32>, r: Run ::
      p.metadata == metadata && Answer(p, oracle, references) && Execution(p, edges, oracle, r) ==>
          Covered(p, r, references)
  }

  /** The answers for the programs over some control flow are right exactly when no cycle can be reached from the
      entry. */
  lemma RightWithoutCycle(metadata: seq<BlockInfo>, edges: Edges)
    requires FlowOf(metadata, edges)
    ensures AnswersRight(metadata, edges) <==> NoCycleFromEntry(edges)
  {
    if NoCycleFromEntry(edges) {
      forall p: Program, oracle: Oracle, references: set<bv32>, r: Run | p.metadata == metadata
          && Answer(p, oracle, references) && Execution(p, edges, oracle, r)
        ensures Covered(p, r, references)
      {
        AcyclicCovered(p, edges, oracle, references, r);
      }
    } else {
      var walk: seq<nat> :| |walk| > 0 && walk[0] == 0 && WalkOf(edges, walk) && !NoRepeat(walk);
      var back, i := FirstReturn(edges, walk);
      var p := LoopMisses(metadata, edges, back, i);
    }
  }

  /** A program over a cycle, an answer for it, and an execution that exports something else. */
  lemma LoopMisses(metadata: seq<BlockInfo>, edges: Edges, walk: seq<nat>, i: nat) returns (p: Program)
    requires |metadata| == |edges| && ComesBack(edges, walk, i)
    ensures p == LoopOf(metadata, walk) && p.metadata == metadata
    ensures exists references: set<bv32>, r: Run :: Answer(p, NoOracle(), references)
                                                    && Execution(p, edges, NoOracle(), r) && !Covered(p, r, references)
  {
    p := LoopOf(metadata, walk);
    var references := LoopAnswer(metadata, walk[|walk| - 1], walk[|walk| - 2]);
    LoopRuns(metadata, edges, walk, i);
    LoopExports(metadata, edges, walk, i, references);
  }

  /** The smallest loop: block 1 goes back to itself or on to block 2. */
  lemma SmallestLoopMisses()
    ensures var metadata := [BlockInfo(0, BranchKind, 1, 0, false, false),
                             BlockInfo(1, ConditionalKind, 1, 2, true, false),
                             BlockInfo(2, ReturnKind, 0, 0, false, false)];
            FlowOf(metadata, [[1], [1, 2], []]) && !AnswersRight(metadata, [[1], [1, 2], []])
  {
    var metadata := [BlockInfo(0, BranchKind, 1, 0, false, false), BlockInfo(1, ConditionalKind, 1, 2, true, false),
                     BlockInfo(2, ReturnKind, 0, 0, false, false)];
    var edges: Edges := [[1], [1, 2], []];
    var walk := [0, 1, 1];
    assert 1 in edges[0] && 1 in edges[1] && walk[1] == walk[2];
    assert WalkOf(edges, walk) && !NoRepeat(walk);
    assert Targets(metadata[0]) == [1] && Targets(metadata[1]) == [1, 2] && Targets(metadata[2]) == [];
    RightWithoutCycle(metadata, edges);
  }
}
