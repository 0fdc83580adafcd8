/** What the helper-lane analysis amounts to without its memo: a plain recursion over values whose operands come
first. */
module HelperReference {
  import opened Wrappers
  import opened ShaderIr
  import opened HelperLanes

  /** A height for every value. */
  type Ranks = nat -> nat

  /** Operands lie lower than what uses them, so no value rests on itself. */
  ghost predicate Ranked(p: Program, rank: Ranks) {
    WellFormed(p) && forall v, i :: 0 <= v < |p.values| && 0 <= i < |p.values[v].arguments| ==>
        rank(p.values[v].arguments[i]) < rank(v)
  }

  function MaskRank(p: Program, rank: Ranks, m: Mask): nat {
    if p.waveSize == 32 || rank(m.low) >= rank(m.high) then rank(m.low) else rank(m.high)
  }

  lemma OperandsLower(p: Program, rank: Ranks, v: nat)
    requires Ranked(p, rank) && v < |p.values|
    ensures forall i :: 0 <= i < |p.values[v].arguments| ==> p.values[v].arguments[i] < |p.values|
                                                             && rank(p.values[v].arguments[i]) < rank(v)
  {
    ArgumentsKnown(p, v);
  }

  lemma OwnLower(p: Program, rank: Ranks, v: nat)
    requires Ranked(p, rank) && v < |p.values| && Own(p, v).Some?
    ensures MaskRank(p, rank, Own(p, v).value) < rank(v)
  {
    var bit := Other(p, v, 0).value;
    var shifted := Other(p, bit, 1).value;
    var word := p.values[shifted].arguments[0];
    OperandsLower(p, rank, v);
    OperandsLower(p, rank, bit);
    OperandsLower(p, rank, shifted);
    OperandsLower(p, rank, word);
  }

  function OfImmediate(n: IrValue): Option<bv32>
    requires n.immediate.Some?
  {
    match n.ty case Bool => Some(Truth(n.immediate.value != 0)) case U32 => n.immediate case OtherType => None
  }

  function Negated(c: Option<bv32>): Option<bv32> { if c.Some? then Some(if c.value == 0 then 1 else 0) else None }

  function Agreed(left: Option<bv32>, right: Option<bv32>): Option<bv32> {
    if left.Some? && left == right then left else None
  }

  function Both(left: HelperMask, right: HelperMask): HelperMask {
    if left.RealOnly? || right.RealOnly? then RealOnly else if left.QuadStable? && right.QuadStable? then QuadStable
    else Uncertain
  }

  function Better(first: HelperMask, swapped: HelperMask): HelperMask {
    if !first.RealOnly? && (swapped.RealOnly? || (swapped.QuadStable? && first.Uncertain?)) then swapped else first
  }

  /** The last of the first `n` operands of a phi that comes from a block. */
  function LastFrom(h: IrValue, block: nat, n: nat): Option<nat>
    requires n <= |h.phiBlocks| && n <= |h.arguments|
  {
    if n == 0 then None else if h.phiBlocks[n - 1] == block then Some(h.arguments[n - 1]) else LastFrom(h, block, n - 1)
  }

  lemma {:induction false} LastFromComes(p: Program, v: nat, block: nat, n: nat)
    requires v < |p.values| && n <= |p.values[v].phiBlocks| && n <= |p.values[v].arguments|
    ensures var r := LastFrom(p.values[v], block, n);
            r.Some? ==> exists j: nat :: j < n && ComesFrom(p, v, j, block, r.value)
  {
    if n > 0 {
      if p.values[v].phiBlocks[n - 1] == block { assert ComesFrom(p, v, n - 1, block, p.values[v].arguments[n - 1]); }
      else { LastFromComes(p, v, block, n - 1); }
    }
  }

  /** The high word that goes with low operand `i` of a phi of masks; the last one listed for the block counts. */
  function HighOf(p: Program, m: Mask, i: nat): Option<nat>
    requires IsPhiMask(p, m) && i < |p.values[m.low].arguments|
  {
    if p.waveSize == 32 then Some(p.values[m.low].arguments[i])
    else LastFrom(p.values[m.high], p.values[m.low].phiBlocks[i], |p.values[m.high].phiBlocks|)
  }

  lemma HighPaired(p: Program, m: Mask, i: nat)
    requires IsPhiMask(p, m) && i < |p.values[m.low].arguments|
    ensures var h := HighOf(p, m, i); h.Some? ==> Paired(p, m, i, h.value)
  {
    if p.waveSize != 32 { LastFromComes(p, m.high, p.values[m.low].phiBlocks[i], |p.values[m.high].phiBlocks|); }
  }

  lemma HighLower(p: Program, rank: Ranks, m: Mask, i: nat)
    requires Ranked(p, rank) && IsPhiMask(p, m) && i < |p.values[m.low].arguments| && HighOf(p, m, i).Some?
    ensures MaskRank(p, rank, Mask(p.values[m.low].arguments[i], HighOf(p, m, i).value)) < MaskRank(p, rank, m)
  {
    OperandsLower(p, rank, m.low);
    HighPaired(p, m, i);
    if p.waveSize != 32 {
      OperandsLower(p, rank, m.high);
      var j :| ComesFrom(p, m.high, j, p.values[m.low].phiBlocks[i], HighOf(p, m, i).value);
    }
  }

  /** Is the mask an AND of masks, word by word? */
  predicate IsAndMask(p: Program, m: Mask) {
    HasOpcode(p, Some(m.low), BitwiseAnd32, 2) && (p.waveSize == 32 || HasOpcode(p, Some(m.high), BitwiseAnd32, 2))
  }

  /** Operand `i` of the low word with operand `j` of the high one. */
  function AndPart(p: Program, m: Mask, i: nat, j: nat): Mask
    requires IsAndMask(p, m) && i < 2 && j < 2
  {
    Mask(p.values[m.low].arguments[i], if p.waveSize == 32 then p.values[m.low].arguments[i]
         else p.values[m.high].arguments[j])
  }

  lemma AndLower(p: Program, rank: Ranks, m: Mask, i: nat, j: nat)
    requires Ranked(p, rank) && IsAndMask(p, m) && i < 2 && j < 2
    ensures MaskRank(p, rank, AndPart(p, m, i, j)) < MaskRank(p, rank, m)
  {
    OperandsLower(p, rank, m.low);
    if p.waveSize != 32 { OperandsLower(p, rank, m.high); }
  }

  predicate IsWqmMask(p: Program, m: Mask) {
    HasOpcode(p, Some(m.low), CompositeExtractU64, 2) && IsWord(p, p.values[m.low].arguments[1], 0)
  }

  /** The mask a whole-quad mask is made from, when both words of `m` extract the same one. */
  function WqmSource(p: Program, m: Mask): Option<Mask>
    requires IsWqmMask(p, m)
  {
    var wqm := p.values[m.low].arguments[0];
    if !((p.waveSize == 32 || WqmWord(p, m.high, wqm, 1)) && HasOpcode(p, Some(wqm), WqmU64, 1)) then None
    else
      var source := p.values[wqm].arguments[0];
      if !HasOpcode(p, Some(source), CompositeConstructU64, 2) then None
      else Some(Mask(p.values[source].arguments[0], p.values[source].arguments[1]))
  }

  lemma WqmLower(p: Program, rank: Ranks, m: Mask)
    requires Ranked(p, rank) && IsWqmMask(p, m) && WqmSource(p, m).Some?
    ensures MaskRank(p, rank, WqmSource(p, m).value) < MaskRank(p, rank, m)
  {
    var wqm := p.values[m.low].arguments[0];
    OperandsLower(p, rank, m.low);
    OperandsLower(p, rank, wqm);
    OperandsLower(p, rank, p.values[wqm].arguments[0]);
  }

  /** The ballot whose upper half the high word is; a wave of 32 has but one half. */
  function HighBallot(p: Program, m: Mask): Option<nat> {
    if p.waveSize == 32 then BallotWord(p, m.low, 0) else BallotWord(p, m.high, 1)
  }

  lemma BallotsLower(p: Program, rank: Ranks, m: Mask)
    requires Ranked(p, rank) && BallotWord(p, m.low, 0).Some? && HighBallot(p, m).Some?
    ensures var low := Predicate(p, BallotWord(p, m.low, 0).value); low < |p.values| && rank(low) < MaskRank(p, rank, m)
    ensures var high := Predicate(p, HighBallot(p, m).value); high < |p.values| && rank(high) < MaskRank(p, rank, m)
  {
    OperandsLower(p, rank, m.low);
    OperandsLower(p, rank, BallotWord(p, m.low, 0).value);
    if p.waveSize != 32 { OperandsLower(p, rank, m.high); }
    OperandsLower(p, rank, HighBallot(p, m).value);
  }

  // ----- Replay stability

  /** Does a value rest on the lanes of a wave only through bits of stable masks that lanes read for themselves? */
  ghost predicate StableValue(p: Program, rank: Ranks, v: nat)
    requires Ranked(p, rank) && v < |p.values|
    decreases rank(v), 2
  {
    var n := p.values[v];
    OperandsLower(p, rank, v);
    if n.immediate.Some? then true
    else if Own(p, v).Some? then
      OwnLower(p, rank, v);
      StableMask(p, rank, Own(p, v).value)
    else !CrossLane(n) && StableArguments(p, rank, v)
  }

  ghost predicate StableArguments(p: Program, rank: Ranks, v: nat)
    requires Ranked(p, rank) && v < |p.values|
    decreases rank(v), 1
  {
    forall i :: 0 <= i < |p.values[v].arguments| ==> StableArgument(p, rank, v, i)
  }

  ghost predicate StableArgument(p: Program, rank: Ranks, v: nat, i: nat)
    requires Ranked(p, rank) && v < |p.values| && i < |p.values[v].arguments|
    decreases rank(v), 0
  {
    OperandsLower(p, rank, v);
    StableValue(p, rank, p.values[v].arguments[i])
  }

  predicate CrossLane(n: IrValue) { n.opcode.Ballot? || n.opcode.LaneId? || n.opcode.WqmU64? }

  /** Is a mask built from ballots over stable values by AND, whole quads and phis? */
  ghost predicate StableMask(p: Program, rank: Ranks, m: Mask)
    requires Ranked(p, rank)
    decreases MaskRank(p, rank, m), 2
  {
    if BothWords(p, m, 0) || BothWords(p, m, 0xffffffff) then true
    else if BallotWord(p, m.low, 0).Some? && HighBallot(p, m).Some? then
      BallotsLower(p, rank, m);
      StableValue(p, rank, Predicate(p, BallotWord(p, m.low, 0).value))
        && StableValue(p, rank, Predicate(p, HighBallot(p, m).value))
    else if IsAndMask(p, m) then StablePair(p, rank, m, 0) || (p.waveSize != 32 && StablePair(p, rank, m, 1))
    else if IsWqmMask(p, m) then StableQuads(p, rank, m)
    else IsPhiMask(p, m) && StableIncoming(p, rank, m)
  }

  /** The first low operand with high operand `j`, the second one with the other. */
  ghost predicate StablePair(p: Program, rank: Ranks, m: Mask, j: nat)
    requires Ranked(p, rank) && IsAndMask(p, m) && j < 2
    decreases MaskRank(p, rank, m), 1
  {
    AndLower(p, rank, m, 0, j);
    AndLower(p, rank, m, 1, 1 - j);
    StableMask(p, rank, AndPart(p, m, 0, j)) && StableMask(p, rank, AndPart(p, m, 1, 1 - j))
  }

  /** Whole quads are made of a stable mask whose helper bits are known. */
  ghost predicate StableQuads(p: Program, rank: Ranks, m: Mask)
    requires Ranked(p, rank) && IsWqmMask(p, m)
    decreases MaskRank(p, rank, m), 1
  {
    WqmSource(p, m).Some? && StableSource(p, rank, m, WqmSource(p, m).value)
  }

  ghost predicate StableSource(p: Program, rank: Ranks, m: Mask, source: Mask)
    requires Ranked(p, rank) && IsWqmMask(p, m) && WqmSource(p, m) == Some(source)
    decreases MaskRank(p, rank, m), 0
  {
    WqmLower(p, rank, m);
    var verdict := MaskVerdict(p, rank, source);
    StableMask(p, rank, source) && (verdict.RealOnly? || verdict.QuadStable?)
  }

  ghost predicate StableIncoming(p: Program, rank: Ranks, m: Mask)
    requires Ranked(p, rank) && IsPhiMask(p, m)
    decreases MaskRank(p, rank, m), 1
  {
    forall i :: 0 <= i < |p.values[m.low].arguments| ==> StableOperand(p, rank, m, i)
  }

  ghost predicate StableOperand(p: Program, rank: Ranks, m: Mask, i: nat)
    requires Ranked(p, rank) && IsPhiMask(p, m) && i < |p.values[m.low].arguments|
    decreases MaskRank(p, rank, m), 0
  {
    HighOf(p, m, i).Some? &&
    (HighLower(p, rank, m, i);
     StableMask(p, rank, Mask(p.values[m.low].arguments[i], HighOf(p, m, i).value)))
  }

  // ----- Helper lanes

  /** The word helper lanes compute for a value. */
  ghost function HelperValue(p: Program, rank: Ranks, v: nat): Option<bv32>
    requires Ranked(p, rank) && v < |p.values|
    decreases rank(v), 2
  {
    var n := p.values[v];
    var a := n.arguments;
    OperandsLower(p, rank, v);
    if n.immediate.Some? then OfImmediate(n)
    else if IsHelperTest(p, n) then Some(1)
    else if Own(p, v).Some? then
      OwnLower(p, rank, v);
      if MaskVerdict(p, rank, Own(p, v).value).RealOnly? then Some(0) else None
    else if n.opcode.LogicalNot? && |a| == 1 then Negated(HelperValue(p, rank, a[0]))
    else if IsLogic(n) then CombineLogic(n.opcode, HelperValue(p, rank, a[0]), HelperValue(p, rank, a[1]))
    else if IsHelperSelect(n) then ChosenValue(p, rank, v)
    else if IsPhiWord(p, v) then MergedValue(p, rank, v)
    else None
  }

  /** A select takes the arm its condition is known to choose, or the word both arms agree on. */
  ghost function ChosenValue(p: Program, rank: Ranks, v: nat): Option<bv32>
    requires Ranked(p, rank) && v < |p.values| && IsHelperSelect(p.values[v])
    decreases rank(v), 1
  {
    var a := p.values[v].arguments;
    OperandsLower(p, rank, v);
    var condition := HelperValue(p, rank, a[0]);
    if condition.Some? then HelperValue(p, rank, if condition.value != 0 then a[1] else a[2])
    else Agreed(HelperValue(p, rank, a[1]), HelperValue(p, rank, a[2]))
  }

  /** A phi takes the word all its operands agree on. */
  ghost function MergedValue(p: Program, rank: Ranks, v: nat): Option<bv32>
    requires Ranked(p, rank) && IsPhiWord(p, v)
    decreases rank(v), 1
  {
    var a := p.values[v].arguments;
    OperandsLower(p, rank, v);
    if forall i :: 0 <= i < |a| ==> HelperValue(p, rank, a[i]) == HelperValue(p, rank, a[0])
    then HelperValue(p, rank, a[0])
    else None
  }

  /** What is known of a mask's helper bits. */
  ghost function MaskVerdict(p: Program, rank: Ranks, m: Mask): (r: HelperMask)
    requires Ranked(p, rank)
    ensures !r.Visiting?
    decreases MaskRank(p, rank, m), 2
  {
    if BothWords(p, m, 0) then RealOnly
    else if BothWords(p, m, 0xffffffff) then QuadStable
    else if BallotWord(p, m.low, 0).Some? && HighBallot(p, m).Some? then BallotVerdict(p, rank, m)
    else if IsAndMask(p, m) then PairedVerdict(p, rank, m)
    else if IsWqmMask(p, m) then QuadVerdict(p, rank, m)
    else if IsPhiMask(p, m) then MergedVerdict(p, rank, m)
    else Uncertain
  }

  /** Ballots that no helper lane votes in have no helper bits. */
  ghost function BallotVerdict(p: Program, rank: Ranks, m: Mask): (r: HelperMask)
    requires Ranked(p, rank) && BallotWord(p, m.low, 0).Some? && HighBallot(p, m).Some?
    ensures !r.Visiting?
    decreases MaskRank(p, rank, m), 1
  {
    BallotsLower(p, rank, m);
    if HelperValue(p, rank, Predicate(p, BallotWord(p, m.low, 0).value)) == Some(0)
        && HelperValue(p, rank, Predicate(p, HighBallot(p, m).value)) == Some(0)
    then RealOnly else Uncertain
  }

  /** The better of the two ways to pair low with high operands. */
  ghost function PairedVerdict(p: Program, rank: Ranks, m: Mask): (r: HelperMask)
    requires Ranked(p, rank) && IsAndMask(p, m)
    ensures !r.Visiting?
    decreases MaskRank(p, rank, m), 1
  {
    var first := AndVerdict(p, rank, m, 0, 1);
    if p.waveSize == 32 then first else Better(first, AndVerdict(p, rank, m, 1, 0))
  }

  /** The low operands in order, each with the named high operand. */
  ghost function AndVerdict(p: Program, rank: Ranks, m: Mask, i: nat, j: nat): (r: HelperMask)
    requires Ranked(p, rank) && IsAndMask(p, m) && i < 2 && j < 2
    ensures !r.Visiting?
    decreases MaskRank(p, rank, m), 0
  {
    AndLower(p, rank, m, 0, i);
    AndLower(p, rank, m, 1, j);
    if !StableMask(p, rank, AndPart(p, m, 0, i)) || !StableMask(p, rank, AndPart(p, m, 1, j)) then Uncertain
    else Both(MaskVerdict(p, rank, AndPart(p, m, 0, i)), MaskVerdict(p, rank, AndPart(p, m, 1, j)))
  }

  /** Whole quads of a mask that is at least quad-stable. */
  ghost function QuadVerdict(p: Program, rank: Ranks, m: Mask): (r: HelperMask)
    requires Ranked(p, rank) && IsWqmMask(p, m)
    ensures !r.Visiting?
    decreases MaskRank(p, rank, m), 1
  {
    if WqmSource(p, m).None? then Uncertain
    else
      WqmLower(p, rank, m);
      var input := MaskVerdict(p, rank, WqmSource(p, m).value);
      if input.RealOnly? || input.QuadStable? then QuadStable else Uncertain
  }

  /** The worst of what comes in. */
  ghost function MergedVerdict(p: Program, rank: Ranks, m: Mask): (r: HelperMask)
    requires Ranked(p, rank) && IsPhiMask(p, m)
    ensures !r.Visiting?
    decreases MaskRank(p, rank, m), 1
  {
    if exists i :: 0 <= i < |p.values[m.low].arguments| && IncomingVerdict(p, rank, m, i).Uncertain? then Uncertain
    else if exists i :: 0 <= i < |p.values[m.low].arguments| && IncomingVerdict(p, rank, m, i).QuadStable?
    then QuadStable
    else RealOnly
  }

  ghost function IncomingVerdict(p: Program, rank: Ranks, m: Mask, i: nat): (r: HelperMask)
    requires Ranked(p, rank) && IsPhiMask(p, m) && i < |p.values[m.low].arguments|
    ensures !r.Visiting?
    decreases MaskRank(p, rank, m), 0
  {
    if HighOf(p, m, i).None? then Uncertain
    else
      HighLower(p, rank, m, i);
      MaskVerdict(p, rank, Mask(p.values[m.low].arguments[i], HighOf(p, m, i).value))
  }

  ghost function AllIncoming(p: Program, rank: Ranks, m: Mask): nat -> HelperMask
    requires Ranked(p, rank) && IsPhiMask(p, m)
  {
    (i: nat) => if i < |p.values[m.low].arguments| then IncomingVerdict(p, rank, m, i) else Uncertain
  }

  /** None of the first `n` masks is uncertain, and the verdict is quad-stable when one of them is no better. */
  ghost predicate Worst(incoming: nat -> HelperMask, n: nat, verdict: HelperMask) {
    && (forall i: nat :: i < n ==> !incoming(i).Uncertain?)
    && verdict == if exists i: nat :: i < n && incoming(i).QuadStable? then QuadStable else RealOnly
  }

  lemma WorstMore(incoming: nat -> HelperMask, n: nat, verdict: HelperMask)
    requires Worst(incoming, n, verdict) && !incoming(n).Uncertain?
    ensures Worst(incoming, n + 1, if incoming(n).QuadStable? then QuadStable else verdict)
  {
  }

  lemma WorstMerges(p: Program, rank: Ranks, m: Mask, verdict: HelperMask)
    requires Ranked(p, rank) && IsPhiMask(p, m) && Worst(AllIncoming(p, rank, m), |p.values[m.low].arguments|, verdict)
    ensures verdict == MergedVerdict(p, rank, m)
  {
    var incoming := AllIncoming(p, rank, m);
    assert forall i: nat :: i < |p.values[m.low].arguments| ==> incoming(i) == IncomingVerdict(p, rank, m, i);
  }

  lemma UncertainMerges(p: Program, rank: Ranks, m: Mask, i: nat)
    requires Ranked(p, rank) && IsPhiMask(p, m) && i < |p.values[m.low].arguments|
             && IncomingVerdict(p, rank, m, i).Uncertain?
    ensures MergedVerdict(p, rank, m).Uncertain?
  {
  }

  /** A wave of 32 has no use for the high word. */
  lemma KeyVerdict(p: Program, rank: Ranks, m: Mask)
    requires Ranked(p, rank)
    ensures MaskRank(p, rank, Key(p, m)) == MaskRank(p, rank, m)
            && MaskVerdict(p, rank, Key(p, m)) == MaskVerdict(p, rank, m)
  {
    var key := Key(p, m);
    if key != m {
      if IsPhiMask(p, m) {
        forall i | 0 <= i < |p.values[m.low].arguments|
          ensures IncomingVerdict(p, rank, key, i) == IncomingVerdict(p, rank, m, i) {}
        assert MergedVerdict(p, rank, key) == MergedVerdict(p, rank, m);
      } else if IsAndMask(p, m) {
        assert AndVerdict(p, rank, key, 0, 1) == AndVerdict(p, rank, m, 0, 1);
      } else if IsWqmMask(p, m) {
        assert QuadVerdict(p, rank, key) == QuadVerdict(p, rank, m);
      } else if BallotWord(p, m.low, 0).Some? {
        assert BallotVerdict(p, rank, key) == BallotVerdict(p, rank, m);
      }
    }
  }

  lemma KeyStable(p: Program, rank: Ranks, m: Mask)
    requires Ranked(p, rank)
    ensures StableMask(p, rank, Key(p, m)) == StableMask(p, rank, m)
  {
    var key := Key(p, m);
    if key != m {
      if IsPhiMask(p, m) {
        forall i | 0 <= i < |p.values[m.low].arguments|
          ensures StableOperand(p, rank, key, i) == StableOperand(p, rank, m, i) {}
        assert StableIncoming(p, rank, key) == StableIncoming(p, rank, m);
      } else if IsAndMask(p, m) {
        assert StablePair(p, rank, key, 0) == StablePair(p, rank, m, 0);
      } else if IsWqmMask(p, m) {
        assert StableQuads(p, rank, key) == StableQuads(p, rank, m);
      }
    }
  }

  lemma AndParts(p: Program, m: Mask, i: nat, j: nat)
    requires IsAndMask(p, m) && i < 2 && j < 2 && i != j
    ensures IsAnd(p, m, AndPart(p, m, 0, i), AndPart(p, m, 1, j))
  {
  }

  // ----- What the plain recursion says is true of every execution

  lemma {:induction false} ValueSound(p: Program, rank: Ranks, v: nat)
    requires Ranked(p, rank) && WaveSizeOk(p) && v < |p.values|
    ensures Known(p, v, HelperValue(p, rank, v))
    decreases rank(v), 2
  {
    var n := p.values[v];
    var a := n.arguments;
    OperandsLower(p, rank, v);
    if n.immediate.Some? {
      ImmediateOnHelpers(p, v);
    } else if IsHelperTest(p, n) {
      HelperTestOnHelpers(p, v);
    } else if Own(p, v).Some? {
      OwnLower(p, rank, v);
      VerdictSound(p, rank, Own(p, v).value);
      if MaskVerdict(p, rank, Own(p, v).value).RealOnly? { OwnOnHelpers(p, v); }
    } else if n.opcode.LogicalNot? && |a| == 1 {
      ValueSound(p, rank, a[0]);
      var c := HelperValue(p, rank, a[0]);
      if c.Some? { NotOnHelpers(p, v, c.value); }
    } else if IsLogic(n) {
      ValueSound(p, rank, a[0]);
      ValueSound(p, rank, a[1]);
      LogicOnHelpers(p, v, HelperValue(p, rank, a[0]), HelperValue(p, rank, a[1]));
    } else if IsHelperSelect(n) {
      ChosenSound(p, rank, v);
    } else if IsPhiWord(p, v) {
      MergedValueSound(p, rank, v);
    }
  }

  lemma {:induction false} ChosenSound(p: Program, rank: Ranks, v: nat)
    requires Ranked(p, rank) && WaveSizeOk(p) && v < |p.values| && IsHelperSelect(p.values[v])
    ensures Known(p, v, ChosenValue(p, rank, v))
    decreases rank(v), 1
  {
    var a := p.values[v].arguments;
    OperandsLower(p, rank, v);
    forall i | 0 <= i < 3 ensures Known(p, a[i], HelperValue(p, rank, a[i])) { ValueSound(p, rank, a[i]); }
    var c := ChosenValue(p, rank, v);
    if c.Some? { SelectOnHelpers(p, v, c.value); }
  }

  lemma {:induction false} MergedValueSound(p: Program, rank: Ranks, v: nat)
    requires Ranked(p, rank) && WaveSizeOk(p) && IsPhiWord(p, v)
    ensures Known(p, v, MergedValue(p, rank, v))
    decreases rank(v), 1
  {
    var a := p.values[v].arguments;
    OperandsLower(p, rank, v);
    forall i | 0 <= i < |a| ensures Known(p, a[i], HelperValue(p, rank, a[i])) { ValueSound(p, rank, a[i]); }
    var c := MergedValue(p, rank, v);
    if c.Some? { PhiOnHelpers(p, v, c.value); }
  }

  /** RealOnly and QuadStable are true of the mask in every execution. */
  lemma {:induction false} VerdictSound(p: Program, rank: Ranks, m: Mask)
    requires Ranked(p, rank) && WaveSizeOk(p)
    ensures Means(p, m, MaskVerdict(p, rank, m))
    decreases MaskRank(p, rank, m), 2
  {
    if BothWords(p, m, 0) {
      ZeroIsRealOnly(p, m);
    } else if BothWords(p, m, 0xffffffff) {
      OnesAreQuadStable(p, m);
    } else if BallotWord(p, m.low, 0).Some? && HighBallot(p, m).Some? {
      BallotSound(p, rank, m);
    } else if IsAndMask(p, m) {
      PairedSound(p, rank, m);
    } else if IsWqmMask(p, m) {
      QuadSound(p, rank, m);
    } else if IsPhiMask(p, m) {
      MergedSound(p, rank, m);
    }
  }

  lemma {:induction false} BallotSound(p: Program, rank: Ranks, m: Mask)
    requires Ranked(p, rank) && WaveSizeOk(p) && BallotWord(p, m.low, 0).Some? && HighBallot(p, m).Some?
    ensures Means(p, m, BallotVerdict(p, rank, m))
    decreases MaskRank(p, rank, m), 1
  {
    BallotsLower(p, rank, m);
    ValueSound(p, rank, Predicate(p, BallotWord(p, m.low, 0).value));
    ValueSound(p, rank, Predicate(p, HighBallot(p, m).value));
    if BallotVerdict(p, rank, m).RealOnly? { BallotIsRealOnly(p, m); }
  }

  lemma {:induction false} PairedSound(p: Program, rank: Ranks, m: Mask)
    requires Ranked(p, rank) && WaveSizeOk(p) && IsAndMask(p, m)
    ensures Means(p, m, PairedVerdict(p, rank, m))
    decreases MaskRank(p, rank, m), 1
  {
    AndSound(p, rank, m, 0, 1);
    AndSound(p, rank, m, 1, 0);
  }

  /** Whatever the mask was, whole quads are constant. */
  lemma QuadSound(p: Program, rank: Ranks, m: Mask)
    requires Ranked(p, rank) && WaveSizeOk(p) && IsWqmMask(p, m)
    ensures Means(p, m, QuadVerdict(p, rank, m))
  {
    if WqmSource(p, m).Some? { WqmIsQuadStable(p, m, p.values[m.low].arguments[0]); }
  }

  lemma {:induction false} AndSound(p: Program, rank: Ranks, m: Mask, i: nat, j: nat)
    requires Ranked(p, rank) && WaveSizeOk(p) && IsAndMask(p, m) && i < 2 && j < 2 && i != j
    ensures Means(p, m, AndVerdict(p, rank, m, i, j))
    decreases MaskRank(p, rank, m), 0
  {
    AndLower(p, rank, m, 0, i);
    AndLower(p, rank, m, 1, j);
    VerdictSound(p, rank, AndPart(p, m, 0, i));
    VerdictSound(p, rank, AndPart(p, m, 1, j));
    AndParts(p, m, i, j);
    AndMeans(p, m, AndPart(p, m, 0, i), AndPart(p, m, 1, j));
  }

  lemma {:induction false} MergedSound(p: Program, rank: Ranks, m: Mask)
    requires Ranked(p, rank) && WaveSizeOk(p) && IsPhiMask(p, m)
    ensures Means(p, m, MergedVerdict(p, rank, m))
    decreases MaskRank(p, rank, m), 1
  {
    var a, verdict := p.values[m.low].arguments, MergedVerdict(p, rank, m);
    if !verdict.Uncertain? {
      var highs := seq(|a|, i requires 0 <= i < |a| => if HighOf(p, m, i).Some? then HighOf(p, m, i).value else 0);
      forall i | 0 <= i < |a| ensures Paired(p, m, i, highs[i]) && Means(p, Mask(a[i], highs[i]), verdict) {
        assert !IncomingVerdict(p, rank, m, i).Uncertain? && HighOf(p, m, i).Some?;
        HighPaired(p, m, i);
        HighLower(p, rank, m, i);
        VerdictSound(p, rank, Mask(a[i], highs[i]));
        if MeansRealOnly(p, Mask(a[i], highs[i])) { RealOnlyIsQuadStable(p, Mask(a[i], highs[i])); }
      }
      PhiMeans(p, m, highs);
    }
  }
}
