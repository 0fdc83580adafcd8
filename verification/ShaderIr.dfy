/** The slice of the shader IR the stencil replay analyses read, and what it means.

A program is a finite table of SSA values and a table of blocks; `Wave` is one execution of it by the
lanes of a wave. Every value is a vector of 32-bit words, booleans being 0 or 1. Each lane computes a
value at most once, so the semantics covers executions of acyclic control flow. `Resolve` is the
identity: Identity values are taken to be folded away. */
module ShaderIr {
  import opened Wrappers

  datatype IrType = Bool | U32 | OtherType

  datatype Opcode =
    | LogicalNot | LogicalAnd | LogicalOr
    | IEqual32 | INotEqual32 | ULessThan32
    | BitwiseAnd32 | ShiftRightLogical32
    | SelectU1 | SelectU32 | Select
    | Phi
    | LaneId | Ballot | WqmU64
    | CompositeConstructU64 | CompositeExtractU64
    | CompositeConstructU32x4 | CompositeExtractU32x4
    | GetBuiltin
    | SetAttribute
    | Constant
    | OtherOpcode

  datatype IrValue = IrValue(
    opcode: Opcode,
    ty: IrType,
    immediate: Option<bv32>,
    arguments: seq<nat>,
    phiBlocks: seq<nat>,
    parent: nat,
    exportInfo: ExportInfo)

  /** What the flags of a SetAttribute select: does it write the stencil reference (an MrtZ export
  whose second component is enabled), does it carry the valid mask. */
  datatype ExportInfo = ExportInfo(stencil: bool, validMask: bool)

  datatype TerminatorKind = BranchKind | ConditionalKind | ReturnKind | OtherKind

  /** One block's metadata; a terminator names its targets by block id. */
  datatype BlockInfo = BlockInfo(id: nat, kind: TerminatorKind, trueBlock: nat, falseBlock: nat, hasCondition: bool,
                                 loopHeader: bool)

  /** `blocks` holds each block's instructions, `metadata` the record kept beside it. */
  datatype Program = Program(values: seq<IrValue>, blocks: seq<seq<nat>>, metadata: seq<BlockInfo>, waveSize: bv32)

  /** Lanes are numbered by words, as the LaneId instruction returns them. */
  type Lane = bv32

  /** Immediates carry no operator, and operators have the operands their meaning needs. */
  predicate ArityOk(n: IrValue) {
    (n.immediate.Some? ==> n.opcode.Constant?) &&
    match n.opcode
    case LogicalNot => |n.arguments| == 1
    case LogicalAnd | LogicalOr | BitwiseAnd32 | SetAttribute => |n.arguments| == 2
    case Phi => |n.phiBlocks| <= |n.arguments|
    case _ => true
  }

  ghost predicate WellFormed(p: Program) {
    && (forall v :: 0 <= v < |p.values| ==> ArityOk(p.values[v]))
    && (forall v, i :: 0 <= v < |p.values| && 0 <= i < |p.values[v].arguments| ==>
        p.values[v].arguments[i] < |p.values|)
    && (forall b, i :: 0 <= b < |p.blocks| && 0 <= i < |p.blocks[b]| ==> p.blocks[b][i] < |p.values|)
  }

  /** One execution by a wave: which lane computes which value, the words it gets, the block each lane
  entered a block from, the lanes taking part in a cross-lane operation, and the helper lanes. */
  datatype Wave = Wave(
    runs: (Lane, nat) -> bool,
    word: (Lane, nat, nat) -> bv32,
    cameFrom: (Lane, nat) -> nat,
    together: (nat, Lane, Lane) -> bool,
    helper: Lane -> bool)

  function Truth(b: bool): bv32 { if b then 1 else 0 }

  predicate Below(x: bv32, y: bv32) { x < y }

  function And(x: bv32, y: bv32): bv32 { x & y }

  /** Shifts take their amount modulo the word size. */
  function ShiftRight(x: bv32, amount: bv32): bv32 { x >> (amount & 31) }

  predicate Bit(w: bv32, k: bv32)
    requires k < 32
  {
    (w >> k) & 1 != 0
  }

  /** The number of stage input kind HelperInvocation, the 19th of them. */
  const HELPER_INVOCATION: bv32 := 18

  predicate IsWord(p: Program, v: nat, expected: bv32) {
    v < |p.values| && p.values[v].ty.U32? && p.values[v].immediate == Some(expected)
  }

  predicate IsHelperTest(p: Program, n: IrValue) {
    n.opcode.GetBuiltin? && |n.arguments| == 2 && IsWord(p, n.arguments[0], HELPER_INVOCATION)
      && IsWord(p, n.arguments[1], 0)
  }

  /** What lane `l` computes for a value with neither immediate nor phi. */
  ghost predicate ComputesOpcode(p: Program, w: Wave, l: Lane, v: nat)
    requires v < |p.values|
  {
    var n := p.values[v];
    var a := n.arguments;
    match n.opcode
    case LogicalNot => |a| == 1 ==> w.word(l, v, 0) == Truth(w.word(l, a[0], 0) == 0)
    case LogicalAnd => |a| == 2 ==> w.word(l, v, 0) == Truth(w.word(l, a[0], 0) != 0 && w.word(l, a[1], 0) != 0)
    case LogicalOr => |a| == 2 ==> w.word(l, v, 0) == Truth(w.word(l, a[0], 0) != 0 || w.word(l, a[1], 0) != 0)
    case IEqual32 => |a| == 2 ==> w.word(l, v, 0) == Truth(w.word(l, a[0], 0) == w.word(l, a[1], 0))
    case INotEqual32 => |a| == 2 ==> w.word(l, v, 0) == Truth(w.word(l, a[0], 0) != w.word(l, a[1], 0))
    case ULessThan32 => |a| == 2 ==> w.word(l, v, 0) == Truth(Below(w.word(l, a[0], 0), w.word(l, a[1], 0)))
    case BitwiseAnd32 => |a| == 2 ==> w.word(l, v, 0) == And(w.word(l, a[0], 0), w.word(l, a[1], 0))
    case ShiftRightLogical32 => |a| == 2 ==> w.word(l, v, 0) == ShiftRight(w.word(l, a[0], 0), w.word(l, a[1], 0))
    case SelectU1 | SelectU32 | Select =>
      |a| == 3 ==> forall c :: w.word(l, v, c) == if w.word(l, a[0], 0) != 0 then w.word(l, a[1], c)
          else w.word(l, a[2], c)
    case LaneId => w.word(l, v, 0) == l
    case Ballot => |a| == 1 ==> ComputesBallot(p, w, l, v)
    case WqmU64 =>
      |a| == 1 ==> forall h: nat, k: bv32 :: h < 2 && k < 32 ==>
        (Bit(w.word(l, v, h), k) <==> QuadAny(w.word(l, a[0], h), k))
    case CompositeConstructU64 | CompositeConstructU32x4 => forall c: nat :: c < |a| ==>
        w.word(l, v, c) == w.word(l, a[c], 0)
    case CompositeExtractU64 | CompositeExtractU32x4 =>
      |a| == 2 && a[1] < |p.values| && p.values[a[1]].immediate.Some? ==>
        w.word(l, v, 0) == w.word(l, a[0], p.values[a[1]].immediate.value as nat)
    case GetBuiltin => IsHelperTest(p, n) ==> w.word(l, v, 0) == Truth(w.helper(l))
    case _ => true
  }

  /** The bits of a ballot are the votes of the lanes. */
  ghost predicate ComputesBallot(p: Program, w: Wave, l: Lane, v: nat)
    requires v < |p.values| && |p.values[v].arguments| == 1
  {
    forall h: nat, k: bv32 :: h < 2 && k < 32 ==>
        (Bit(w.word(l, v, h), k) <==> BallotVote(p, w, l, v, if h == 0 then k else k + 32))
  }

  /** Lane `k` contributes to the ballot `v` that lane `l` reads. */
  ghost predicate BallotVote(p: Program, w: Wave, l: Lane, v: nat, k: Lane)
    requires v < |p.values| && |p.values[v].arguments| == 1
  {
    k < p.waveSize && w.runs(k, v) && w.together(v, l, k) && w.word(k, p.values[v].arguments[0], 0) != 0
  }

  /** Whole quad mode: some bit of the quad of `k` is set. */
  predicate QuadAny(x: bv32, k: bv32)
    requires k < 32
  {
    var q := k & 28;
    Bit(x, q) || Bit(x, q + 1) || Bit(x, q + 2) || Bit(x, q + 3)
  }

  /** A phi takes the operand of the block the lane came from; operands listed for one block agree. */
  ghost predicate ComputesPhi(p: Program, w: Wave, l: Lane, v: nat)
    requires v < |p.values|
  {
    var n := p.values[v];
    && (exists i :: 0 <= i < |n.phiBlocks| && i < |n.arguments| && n.phiBlocks[i] == w.cameFrom(l, n.parent))
    && (forall i :: 0 <= i < |n.phiBlocks| && i < |n.arguments| && n.phiBlocks[i] == w.cameFrom(l, n.parent) ==>
          w.runs(l, n.arguments[i]) && forall c :: w.word(l, v, c) == w.word(l, n.arguments[i], c))
  }

  /** If lane `l` computes `v` at all, it computes it as the IR says. */
  ghost predicate Computes(p: Program, w: Wave, l: Lane, v: nat) {
    w.runs(l, v) ==> l < p.waveSize && (v < |p.values| ==>
      var n := p.values[v];
      if n.immediate.Some? then
        w.word(l, v, 0) == if n.ty.Bool? then Truth(n.immediate.value != 0) else n.immediate.value
      else if n.opcode.Phi? then ComputesPhi(p, w, l, v)
      else
        && (forall i :: 0 <= i < |n.arguments| ==> w.runs(l, n.arguments[i]))
        && ComputesOpcode(p, w, l, v))
  }

  /** An SSA-consistent execution. */
  ghost predicate Consistent(p: Program, w: Wave) {
    forall l: Lane, v: nat :: Computes(p, w, l, v)
  }

  ghost predicate Holds(w: Wave, l: Lane, v: nat) { w.word(l, v, 0) != 0 }

  /** What a lane that computes an operator knows: its operands were computed, and their words determine its own. */
  lemma OperatorComputed(p: Program, w: Wave, l: Lane, v: nat)
    requires WellFormed(p) && Consistent(p, w) && w.runs(l, v) && v < |p.values|
    requires !p.values[v].opcode.Phi? && !p.values[v].opcode.Constant?
    ensures forall i :: 0 <= i < |p.values[v].arguments| ==> w.runs(l, p.values[v].arguments[i])
    ensures ComputesOpcode(p, w, l, v) && l < p.waveSize
  {
    assert Computes(p, w, l, v) && ArityOk(p.values[v]);
  }

  lemma WordComputed(p: Program, w: Wave, l: Lane, v: nat, expected: bv32)
    requires Consistent(p, w) && w.runs(l, v) && IsWord(p, v, expected)
    ensures w.word(l, v, 0) == expected
  {
    assert Computes(p, w, l, v);
  }
}
