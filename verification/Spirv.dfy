/** The SPIR-V word stream (section 2.3 of the SPIR-V specification): a header of five words, then instructions, each
with its word count in the high half of its first word and its opcode in the low half. */
module Spirv {
  import opened Wrappers

  const MAGIC: nat := 0x0723_0203
  const HALF: nat := 0x1_0000
  const WORD: nat := 0x1_0000_0000
  const HEADER: nat := 5

  const OpName: nat := 5
  const OpEntryPoint: nat := 15
  const OpTypeInt: nat := 21
  const OpTypeFloat: nat := 22
  const OpTypeVector: nat := 23
  const OpTypePointer: nat := 32
  const OpConstant: nat := 43
  const OpFunction: nat := 54
  const OpVariable: nat := 59
  const OpLoad: nat := 61
  const OpStore: nat := 62
  const OpCopyMemory: nat := 63
  const OpCopyMemorySized: nat := 64
  const OpAccessChain: nat := 65
  const OpInBoundsAccessChain: nat := 66
  const OpPtrAccessChain: nat := 67
  const OpInBoundsPtrAccessChain: nat := 70
  const OpDecorate: nat := 71
  const OpCompositeConstruct: nat := 80
  const OpCompositeExtract: nat := 81
  const OpCopyObject: nat := 83
  const OpBitcast: nat := 124

  const StorageClassOutput: nat := 3
  const DecorationLocation: nat := 30
  const DecorationIndex: nat := 32

  datatype Instr = Instr(op: nat, operands: seq<nat>)

  /** Operand `k` of the instruction counted from its first word, zero past its end. */
  function Operand(i: Instr, k: nat): nat { if 0 < k <= |i.operands| then i.operands[k - 1] else 0 }

  function Count(i: Instr): nat { |i.operands| + 1 }

  /** An instruction whose count and opcode fit their halves. */
  predicate Fits(i: Instr) { i.op < HALF && Count(i) < HALF }

  /** The first word; a count that does not fit wraps. */
  function HeadWord(i: Instr): nat { (Count(i) * HALF + i.op) % WORD }

  function InstrWords(i: Instr): seq<nat> { [HeadWord(i)] + i.operands }

  function StreamWords(instrs: seq<Instr>): seq<nat> {
    if instrs == [] then [] else InstrWords(instrs[0]) + StreamWords(instrs[1..])
  }

  /** Is the next instruction cut off? */
  predicate Truncated(words: seq<nat>)
    requires words != []
  {
    words[0] / HALF == 0 || words[0] / HALF > |words|
  }

  function First(words: seq<nat>): (i: Instr)
    requires words != [] && !Truncated(words)
    ensures Count(i) == words[0] / HALF
  {
    Instr(words[0] % HALF, words[1..words[0] / HALF])
  }

  function Parse(words: seq<nat>): Option<seq<Instr>>
    decreases |words|
  {
    if words == [] then Some([])
    else if Truncated(words) then None
    else
      match Parse(words[words[0] / HALF..])
      case Some(rest) => Some([First(words)] + rest)
      case None => None
  }

  /** The index of the first function, or the number of instructions. */
  function FirstFunction(instrs: seq<Instr>): (f: nat)
    ensures f <= |instrs|
    decreases |instrs|
  {
    if instrs == [] then 0 else if instrs[0].op == OpFunction then 0 else 1 + FirstFunction(instrs[1..])
  }

  ghost predicate AllFit(instrs: seq<Instr>) { forall i <- instrs :: Fits(i) }

  lemma HeadParts(i: Instr)
    ensures Fits(i) <==> i.op < HALF && HeadWord(i) / HALF == Count(i)
    ensures Fits(i) ==> HeadWord(i) % HALF == i.op
  {
    if Fits(i) { assert Count(i) * HALF + i.op < WORD; }
  }

  /** A stream parses back to its instructions. */
  lemma {:induction false} ParseStream(instrs: seq<Instr>)
    requires AllFit(instrs)
    ensures Parse(StreamWords(instrs)) == Some(instrs)
  {
    if instrs != [] {
      var i, rest := instrs[0], instrs[1..];
      var words := StreamWords(instrs);
      HeadParts(i);
      assert instrs == [i] + rest;
      ParseStream(rest);
      assert words[1..Count(i)] == i.operands && words[Count(i)..] == StreamWords(rest);
    }
  }

  ghost predicate Words32(words: seq<nat>) { forall w <- words :: w < WORD }

  /** What parses is the stream of its instructions. */
  lemma {:induction false} StreamParse(words: seq<nat>)
    requires Parse(words).Some? && Words32(words)
    ensures StreamWords(Parse(words).value) == words && AllFit(Parse(words).value)
    decreases |words|
  {
    if words != [] {
      var i, rest := First(words), words[words[0] / HALF..];
      forall w <- rest ensures w < WORD { assert w in words; }
      StreamParse(rest);
      assert words[0] in words;
      assert HeadWord(i) == words[0];
      assert words == [words[0]] + words[1..words[0] / HALF] + rest;
      var instrs := Parse(words).value;
      assert instrs[1..] == Parse(rest).value;
    }
  }

  lemma {:induction false} StreamJoins(a: seq<Instr>, b: seq<Instr>)
    ensures StreamWords(a + b) == StreamWords(a) + StreamWords(b)
  {
    if a == [] {
      assert a + b == b;
    } else {
      assert (a + b)[1..] == a[1..] + b;
      StreamJoins(a[1..], b);
    }
  }
}
