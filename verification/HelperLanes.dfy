/** What wave masks say about helper lanes.

An abstract interpretation over pairs of mask words: a mask is RealOnly when no helper lane has its bit
set, and QuadStable when it is RealOnly or constant within every quad. `Uncertain` promises nothing. */
module HelperLanes {
  import opened Wrappers
  import opened ShaderIr

  datatype Mask = Mask(low: nat, high: nat)

  datatype HelperMask = Visiting | RealOnly | QuadStable | Uncertain

  const MAX_DEPTH := 128

  // ----- Lane-wise meaning

  predicate MaskBit(low: bv32, high: bv32, k: Lane)
    requires k < 64
  {
    if k < 32 then Bit(low, k) else Bit(high, k - 32)
  }

  ghost predicate WaveSizeOk(p: Program) { p.waveSize == 32 || p.waveSize == 64 }

  ghost predicate Observes(p: Program, w: Wave, l: Lane, m: Mask) {
    w.runs(l, m.low) && (p.waveSize == 32 || w.runs(l, m.high))
  }

  /** The high word has no lanes in a wave of 32. */
  ghost function High(p: Program, w: Wave, l: Lane, m: Mask): bv32 {
    if p.waveSize == 32 then 0 else w.word(l, m.high, 0)
  }

  /** A mask as the set of lanes whose bit is set. */
  type Bits = Lane -> bool

  ghost function BitsOf(low: bv32, high: bv32): Bits { (k: Lane) => k < 64 && MaskBit(low, high, k) }

  ghost function Seen(p: Program, w: Wave, l: Lane, m: Mask): Bits { BitsOf(w.word(l, m.low, 0), High(p, w, l, m)) }

  ghost predicate NoHelperBit(p: Program, w: Wave, bits: Bits) {
    forall k: Lane :: k < p.waveSize && w.helper(k) ==> !bits(k)
  }

  function QuadOf(k: Lane): Lane { k & 0xfffffffc }

  ghost predicate QuadConstant(p: Program, bits: Bits) {
    forall k: Lane :: k < p.waveSize ==> bits(k) == bits(QuadOf(k))
  }

  ghost predicate QuadSafe(p: Program, w: Wave, bits: Bits) { NoHelperBit(p, w, bits) || QuadConstant(p, bits) }

  ghost predicate MeansRealOnly(p: Program, m: Mask) {
    forall w: Wave, l: Lane :: Consistent(p, w) && Observes(p, w, l, m) ==> NoHelperBit(p, w, Seen(p, w, l, m))
  }

  ghost predicate MeansQuadStable(p: Program, m: Mask) {
    forall w: Wave, l: Lane :: Consistent(p, w) && Observes(p, w, l, m) ==> QuadSafe(p, w, Seen(p, w, l, m))
  }

  ghost predicate Means(p: Program, m: Mask, verdict: HelperMask) {
    match verdict
    case RealOnly => MeansRealOnly(p, m)
    case QuadStable => MeansQuadStable(p, m)
    case _ => true
  }

  /** Every helper lane that computes `v` gets `c`. */
  ghost predicate OnHelpers(p: Program, v: nat, c: bv32) {
    forall w: Wave, l: Lane :: Consistent(p, w) && w.helper(l) && w.runs(l, v) ==> w.word(l, v, 0) == c
  }

  // ----- The own-bit pattern

  /** The operand beside the word immediate `expected`. */
  function Other(p: Program, v: nat, expected: bv32): Option<nat>
    requires v < |p.values|
  {
    var a := p.values[v].arguments;
    if |a| != 2 then None
    else if IsWord(p, a[0], expected) then Some(a[1])
    else if IsWord(p, a[1], expected) then Some(a[0])
    else None
  }

  predicate HasOpcode(p: Program, v: Option<nat>, opcode: Opcode, count: nat) {
    v.Some? && v.value < |p.values| && p.values[v.value].opcode == opcode && |p.values[v.value].arguments| == count
  }

  /** `(word >> (LaneId & 31)) & 1 != 0` reads a lane's own bit of the mask it returns. */
  function Own(p: Program, v: nat): Option<Mask>
    requires v < |p.values|
  {
    if !HasOpcode(p, Some(v), INotEqual32, 2) then None
    else
      var bit := Other(p, v, 0);
      if !HasOpcode(p, bit, BitwiseAnd32, 2) then None
      else
        var shifted := Other(p, bit.value, 1);
        if !HasOpcode(p, shifted, ShiftRightLogical32, 2) then None
        else
          var a := p.values[shifted.value].arguments;
          if !HasOpcode(p, Some(a[1]), BitwiseAnd32, 2) then None
          else
            var lane := Other(p, a[1], 31);
            if !IsLane(p, lane) then None else OwnWord(p, a[0])
  }

  predicate IsLane(p: Program, v: Option<nat>) { v.Some? && v.value < |p.values| && p.values[v.value].opcode.LaneId? }

  function OwnWord(p: Program, word: nat): Option<Mask> {
    if HasOpcode(p, Some(word), SelectU32, 3) then
      var s := p.values[word].arguments;
      if HasOpcode(p, Some(s[0]), ULessThan32, 2) && IsLane(p, Some(p.values[s[0]].arguments[0]))
          && IsWord(p, p.values[s[0]].arguments[1], 32)
      then Some(Mask(s[1], s[2])) else None
    else if p.waveSize != 32 && !(word < |p.values| && p.values[word].immediate.Some?) then None
    else Some(Mask(word, word))
  }

  lemma OtherComputed(p: Program, w: Wave, l: Lane, v: nat, expected: bv32)
    requires WellFormed(p) && Consistent(p, w) && v < |p.values| && w.runs(l, v) && Other(p, v, expected).Some?
    requires !p.values[v].opcode.Phi? && !p.values[v].opcode.Constant?
    ensures w.runs(l, Other(p, v, expected).value)
    ensures var a := p.values[v].arguments; var o := Other(p, v, expected).value;
            (w.word(l, a[0], 0) == expected && a[1] == o) || (w.word(l, a[1], 0) == expected && a[0] == o)
  {
    var a := p.values[v].arguments;
    OperatorComputed(p, w, l, v);
    assert w.runs(l, a[0]) && w.runs(l, a[1]);
    if IsWord(p, a[0], expected) { WordComputed(p, w, l, a[0], expected); }
    else { WordComputed(p, w, l, a[1], expected); }
  }

  lemma NotEqualZero(p: Program, w: Wave, l: Lane, v: nat)
    requires WellFormed(p) && Consistent(p, w) && HasOpcode(p, Some(v), INotEqual32, 2) && w.runs(l, v)
             && Other(p, v, 0).Some?
    ensures w.runs(l, Other(p, v, 0).value) && w.word(l, v, 0) == Truth(w.word(l, Other(p, v, 0).value, 0) != 0)
  {
    OtherComputed(p, w, l, v, 0);
    OperatorComputed(p, w, l, v);
  }

  lemma AndWith(p: Program, w: Wave, l: Lane, v: nat, expected: bv32)
    requires WellFormed(p) && Consistent(p, w) && HasOpcode(p, Some(v), BitwiseAnd32, 2) && w.runs(l, v)
             && Other(p, v, expected).Some?
    ensures w.runs(l, Other(p, v, expected).value)
            && w.word(l, v, 0) == And(w.word(l, Other(p, v, expected).value, 0), expected)
  {
    OtherComputed(p, w, l, v, expected);
    OperatorComputed(p, w, l, v);
  }

  lemma Shifts(p: Program, w: Wave, l: Lane, v: nat)
    requires WellFormed(p) && Consistent(p, w) && HasOpcode(p, Some(v), ShiftRightLogical32, 2) && w.runs(l, v)
    ensures var a := p.values[v].arguments;
            w.runs(l, a[0]) && w.runs(l, a[1]) && w.word(l, v, 0) == ShiftRight(w.word(l, a[0], 0), w.word(l, a[1], 0))
  {
    OperatorComputed(p, w, l, v);
  }

  lemma LaneComputed(p: Program, w: Wave, l: Lane, v: nat)
    requires WellFormed(p) && Consistent(p, w) && IsLane(p, Some(v)) && w.runs(l, v)
    ensures w.word(l, v, 0) == l && l < p.waveSize
  {
    OperatorComputed(p, w, l, v);
  }

  lemma OwnWordComputed(p: Program, w: Wave, l: Lane, word: nat)
    requires WellFormed(p) && Consistent(p, w) && WaveSizeOk(p) && OwnWord(p, word).Some? && w.runs(l, word)
             && l < p.waveSize
    ensures var m := OwnWord(p, word).value;
            && Observes(p, w, l, m)
            && w.word(l, word, 0) == if l < 32 then w.word(l, m.low, 0) else High(p, w, l, m)
  {
    if HasOpcode(p, Some(word), SelectU32, 3) {
      var s := p.values[word].arguments;
      OperatorComputed(p, w, l, word);
      assert w.runs(l, s[0]);
      OperatorComputed(p, w, l, s[0]);
      var t := p.values[s[0]].arguments;
      LaneComputed(p, w, l, t[0]);
      WordComputed(p, w, l, t[1], 32);
    }
  }

  lemma ShiftedBit(x: bv32, l: Lane)
    requires l < 64
    ensures (ShiftRight(x, l & 31) & 1 != 0) <==> Bit(x, if l < 32 then l else l - 32)
  {
    assert l & 31 == if l < 32 then l else l - 32;
    assert (l & 31) & 31 == l & 31;
  }

  /** The pattern computes the lane's own bit, as 0 or 1. */
  lemma OwnReadsBit(p: Program, w: Wave, l: Lane, v: nat)
    requires WellFormed(p) && Consistent(p, w) && WaveSizeOk(p) && v < |p.values| && Own(p, v).Some? && w.runs(l, v)
    ensures var m := Own(p, v).value;
            && Observes(p, w, l, m) && l < p.waveSize
            && w.word(l, v, 0) == Truth(MaskBit(w.word(l, m.low, 0), High(p, w, l, m), l))
  {
    var bit := Other(p, v, 0).value;
    var shifted := Other(p, bit, 1).value;
    var a := p.values[shifted].arguments;
    var lane := Other(p, a[1], 31).value;
    NotEqualZero(p, w, l, v);
    AndWith(p, w, l, bit, 1);
    Shifts(p, w, l, shifted);
    AndWith(p, w, l, a[1], 31);
    LaneComputed(p, w, l, lane);
    OwnWordComputed(p, w, l, a[0]);
    ShiftedBit(w.word(l, a[0], 0), l);
  }

  // ----- Masks, case by case

  predicate BothWords(p: Program, m: Mask, expected: bv32) {
    IsWord(p, m.low, expected) && (p.waveSize == 32 || IsWord(p, m.high, expected))
  }

  lemma ConstantBits(k: bv32)
    requires k < 32
    ensures !Bit(0, k) && Bit(0xffffffff, k)
  {
  }

  lemma ZeroIsRealOnly(p: Program, m: Mask)
    requires WaveSizeOk(p) && BothWords(p, m, 0)
    ensures MeansRealOnly(p, m)
  {
    forall w: Wave, l: Lane | Consistent(p, w) && Observes(p, w, l, m)
      ensures NoHelperBit(p, w, Seen(p, w, l, m))
    {
      WordComputed(p, w, l, m.low, 0);
      if p.waveSize != 32 { WordComputed(p, w, l, m.high, 0); }
      forall k: Lane | k < p.waveSize ensures !Seen(p, w, l, m)(k) { ConstantBits(if k < 32 then k else k - 32); }
    }
  }

  lemma OnesAreQuadStable(p: Program, m: Mask)
    requires WaveSizeOk(p) && BothWords(p, m, 0xffffffff)
    ensures MeansQuadStable(p, m)
  {
    forall w: Wave, l: Lane | Consistent(p, w) && Observes(p, w, l, m)
      ensures QuadSafe(p, w, Seen(p, w, l, m))
    {
      WordComputed(p, w, l, m.low, 0xffffffff);
      if p.waveSize != 32 { WordComputed(p, w, l, m.high, 0xffffffff); }
      forall k: Lane | k < p.waveSize ensures Seen(p, w, l, m)(k) { ConstantBits(if k < 32 then k else k - 32); }
      QuadsWithin(p);
    }
  }

  lemma QuadsWithin(p: Program)
    requires WaveSizeOk(p)
    ensures forall k: Lane :: k < p.waveSize ==> QuadOf(k) < p.waveSize
  {
  }

  /** The ballot whose word `half` this is. */
  function BallotWord(p: Program, word: nat, half: bv32): Option<nat> {
    if HasOpcode(p, Some(word), CompositeExtractU32x4, 2) && IsWord(p, p.values[word].arguments[1], half) &&
       HasOpcode(p, Some(p.values[word].arguments[0]), Ballot, 1)
    then Some(p.values[word].arguments[0]) else None
  }

  function Predicate(p: Program, ballot: nat): nat
    requires HasOpcode(p, Some(ballot), Ballot, 1)
  {
    p.values[ballot].arguments[0]
  }

  lemma ExtractComputed(p: Program, w: Wave, l: Lane, v: nat, half: bv32)
    requires WellFormed(p) && Consistent(p, w) && w.runs(l, v) && v < |p.values| && |p.values[v].arguments| == 2
    requires p.values[v].opcode.CompositeExtractU32x4? || p.values[v].opcode.CompositeExtractU64?
    requires half < 2 && IsWord(p, p.values[v].arguments[1], half)
    ensures w.runs(l, p.values[v].arguments[0])
            && w.word(l, v, 0) == w.word(l, p.values[v].arguments[0], if half == 0 then 0 else 1)
  {
    OperatorComputed(p, w, l, v);
    assert w.runs(l, p.values[v].arguments[0]);
  }

  lemma BallotBit(p: Program, w: Wave, l: Lane, ballot: nat, h: nat, k: bv32)
    requires WellFormed(p) && Consistent(p, w) && w.runs(l, ballot) && HasOpcode(p, Some(ballot), Ballot, 1) && h < 2
             && k < 32
    ensures Bit(w.word(l, ballot, h), k) <==> BallotVote(p, w, l, ballot, if h == 0 then k else k + 32)
  {
    OperatorComputed(p, w, l, ballot);
  }

  lemma HelperVotesNothing(p: Program, w: Wave, l: Lane, ballot: nat, lane: Lane)
    requires WellFormed(p) && Consistent(p, w) && HasOpcode(p, Some(ballot), Ballot, 1)
    requires OnHelpers(p, Predicate(p, ballot), 0) && w.helper(lane)
    ensures !BallotVote(p, w, l, ballot, lane)
  {
    if w.runs(lane, ballot) { OperatorComputed(p, w, lane, ballot); }
  }

  /** A ballot over a predicate that is false on helper lanes has no helper bit. */
  lemma BallotBitIsReal(p: Program, w: Wave, l: Lane, word: nat, half: bv32, k: bv32)
    requires WellFormed(p) && Consistent(p, w) && w.runs(l, word) && half < 2 && k < 32
    requires BallotWord(p, word, half).Some? && OnHelpers(p, Predicate(p, BallotWord(p, word, half).value), 0)
    requires w.helper(if half == 0 then k else k + 32)
    ensures !Bit(w.word(l, word, 0), k)
  {
    var ballot := BallotWord(p, word, half).value;
    ExtractComputed(p, w, l, word, half);
    BallotBit(p, w, l, ballot, if half == 0 then 0 else 1, k);
    HelperVotesNothing(p, w, l, ballot, if half == 0 then k else k + 32);
  }

  lemma BallotIsRealOnly(p: Program, m: Mask)
    requires WellFormed(p) && WaveSizeOk(p) && BallotWord(p, m.low, 0).Some?
             && OnHelpers(p, Predicate(p, BallotWord(p, m.low, 0).value), 0)
    requires p.waveSize != 32 ==> BallotWord(p, m.high, 1).Some?
                                  && OnHelpers(p, Predicate(p, BallotWord(p, m.high, 1).value), 0)
    ensures MeansRealOnly(p, m)
  {
    forall w: Wave, l: Lane | Consistent(p, w) && Observes(p, w, l, m)
      ensures NoHelperBit(p, w, Seen(p, w, l, m))
    {
      forall k: Lane | k < p.waveSize && w.helper(k) ensures !Seen(p, w, l, m)(k) {
        if k < 32 { BallotBitIsReal(p, w, l, m.low, 0, k); }
        else { BallotBitIsReal(p, w, l, m.high, 1, k - 32); }
      }
    }
  }

  lemma AndBit(x: bv32, y: bv32, k: bv32)
    requires k < 32
    ensures Bit(And(x, y), k) <==> Bit(x, k) && Bit(y, k)
  {
  }

  lemma AndMaskBit(low: bv32, high: bv32, a: bv32, b: bv32, c: bv32, d: bv32, k: Lane)
    requires low == And(a, b) && high == And(c, d)
    ensures BitsOf(low, high)(k) <==> BitsOf(a, c)(k) && BitsOf(b, d)(k)
  {
    if k < 32 { AndBit(a, b, k); } else if k < 64 { AndBit(c, d, k - 32); }
  }

  /** `word` is the AND of two words, in either order. */
  predicate IsAndWord(p: Program, word: nat, a: nat, b: nat) {
    HasOpcode(p, Some(word), BitwiseAnd32, 2)
      && (p.values[word].arguments == [a, b] || p.values[word].arguments == [b, a])
  }

  /** `m` is the intersection of two masks, whichever way the high words are paired with the low ones. */
  predicate IsAnd(p: Program, m: Mask, first: Mask, second: Mask) {
    IsAndWord(p, m.low, first.low, second.low) && (p.waveSize == 32 || IsAndWord(p, m.high, first.high, second.high))
  }

  lemma AndCommutes(x: bv32, y: bv32)
    ensures And(x, y) == And(y, x)
  {
  }

  lemma AndOperands(p: Program, w: Wave, l: Lane, word: nat)
    requires WellFormed(p) && Consistent(p, w) && HasOpcode(p, Some(word), BitwiseAnd32, 2) && w.runs(l, word)
    ensures var s := p.values[word].arguments;
            w.runs(l, s[0]) && w.runs(l, s[1]) && w.word(l, word, 0) == And(w.word(l, s[0], 0), w.word(l, s[1], 0))
  {
    OperatorComputed(p, w, l, word);
  }

  lemma AndWordComputed(p: Program, w: Wave, l: Lane, word: nat, a: nat, b: nat)
    requires WellFormed(p) && Consistent(p, w) && IsAndWord(p, word, a, b) && w.runs(l, word)
    ensures w.runs(l, a) && w.runs(l, b) && w.word(l, word, 0) == And(w.word(l, a, 0), w.word(l, b, 0))
  {
    AndOperands(p, w, l, word);
    AndCommutes(w.word(l, a, 0), w.word(l, b, 0));
  }

  lemma AndComputed(p: Program, w: Wave, l: Lane, m: Mask, first: Mask, second: Mask)
    requires WellFormed(p) && Consistent(p, w) && IsAnd(p, m, first, second) && Observes(p, w, l, m)
    ensures Observes(p, w, l, first) && Observes(p, w, l, second)
    ensures w.word(l, m.low, 0) == And(w.word(l, first.low, 0), w.word(l, second.low, 0))
    ensures High(p, w, l, m) == And(High(p, w, l, first), High(p, w, l, second))
  {
    AndWordComputed(p, w, l, m.low, first.low, second.low);
    if p.waveSize != 32 { AndWordComputed(p, w, l, m.high, first.high, second.high); }
  }

  lemma AndNoHelper(p: Program, w: Wave, f: Bits, both: Bits)
    requires NoHelperBit(p, w, f) && forall k: Lane :: both(k) ==> f(k)
    ensures NoHelperBit(p, w, both)
  {
  }

  lemma AndQuadConstant(p: Program, f: Bits, g: Bits, both: Bits)
    requires QuadConstant(p, f) && QuadConstant(p, g) && forall k: Lane :: both(k) <==> f(k) && g(k)
    ensures QuadConstant(p, both)
  {
  }

  lemma AndSafe(p: Program, w: Wave, f: Bits, g: Bits, both: Bits)
    requires forall k: Lane :: both(k) <==> f(k) && g(k)
    ensures NoHelperBit(p, w, f) || NoHelperBit(p, w, g) ==> NoHelperBit(p, w, both)
    ensures QuadSafe(p, w, f) && QuadSafe(p, w, g) ==> QuadSafe(p, w, both)
  {
    if NoHelperBit(p, w, f) {
      AndNoHelper(p, w, f, both);
    } else if NoHelperBit(p, w, g) {
      AndNoHelper(p, w, g, both);
    } else if QuadConstant(p, f) && QuadConstant(p, g) {
      AndQuadConstant(p, f, g, both);
    }
  }

  lemma AndSeen(p: Program, w: Wave, l: Lane, m: Mask, first: Mask, second: Mask, k: Lane)
    requires WellFormed(p) && Consistent(p, w) && IsAnd(p, m, first, second) && Observes(p, w, l, m)
    ensures Seen(p, w, l, m)(k) <==> Seen(p, w, l, first)(k) && Seen(p, w, l, second)(k)
  {
    AndComputed(p, w, l, m, first, second);
    AndMaskBit(w.word(l, m.low, 0), High(p, w, l, m), w.word(l, first.low, 0), w.word(l, second.low, 0),
               High(p, w, l, first), High(p, w, l, second), k);
  }

  lemma AndKeeps(p: Program, w: Wave, l: Lane, m: Mask, first: Mask, second: Mask)
    requires WellFormed(p) && Consistent(p, w) && WaveSizeOk(p) && IsAnd(p, m, first, second) && Observes(p, w, l, m)
    ensures Observes(p, w, l, first) && Observes(p, w, l, second)
    ensures NoHelperBit(p, w, Seen(p, w, l, first)) || NoHelperBit(p, w, Seen(p, w, l, second)) ==>
            NoHelperBit(p, w, Seen(p, w, l, m))
    ensures QuadSafe(p, w, Seen(p, w, l, first)) && QuadSafe(p, w, Seen(p, w, l, second)) ==>
            QuadSafe(p, w, Seen(p, w, l, m))
  {
    AndComputed(p, w, l, m, first, second);
    forall k: Lane ensures Seen(p, w, l, m)(k) <==> Seen(p, w, l, first)(k) && Seen(p, w, l, second)(k) {
      AndSeen(p, w, l, m, first, second, k);
    }
    AndSafe(p, w, Seen(p, w, l, first), Seen(p, w, l, second), Seen(p, w, l, m));
  }

  lemma AndMeans(p: Program, m: Mask, first: Mask, second: Mask)
    requires WellFormed(p) && WaveSizeOk(p) && IsAnd(p, m, first, second)
    ensures MeansRealOnly(p, first) || MeansRealOnly(p, second) ==> MeansRealOnly(p, m)
    ensures MeansQuadStable(p, first) && MeansQuadStable(p, second) ==> MeansQuadStable(p, m)
  {
    forall w: Wave, l: Lane | Consistent(p, w) && Observes(p, w, l, m)
      ensures Observes(p, w, l, first) && Observes(p, w, l, second)
      ensures NoHelperBit(p, w, Seen(p, w, l, first)) || NoHelperBit(p, w, Seen(p, w, l, second)) ==>
              NoHelperBit(p, w, Seen(p, w, l, m))
      ensures QuadSafe(p, w, Seen(p, w, l, first)) && QuadSafe(p, w, Seen(p, w, l, second)) ==>
              QuadSafe(p, w, Seen(p, w, l, m))
    {
      AndKeeps(p, w, l, m, first, second);
    }
  }

  /** `word` extracts half of the whole-quad mask `wqm`. */
  predicate WqmWord(p: Program, word: nat, wqm: nat, half: bv32) {
    HasOpcode(p, Some(word), CompositeExtractU64, 2) && p.values[word].arguments[0] == wqm
      && IsWord(p, p.values[word].arguments[1], half)
  }

  lemma QuadAnyConstant(x: bv32, k: bv32)
    requires k < 32
    ensures QuadOf(k) < 32 && QuadAny(x, k) == QuadAny(x, QuadOf(k))
  {
    assert QuadOf(k) & 28 == k & 28;
  }

  lemma WqmBit(p: Program, w: Wave, l: Lane, word: nat, wqm: nat, half: bv32, k: bv32)
    requires WellFormed(p) && Consistent(p, w) && w.runs(l, word) && half < 2 && k < 32
    requires WqmWord(p, word, wqm, half) && HasOpcode(p, Some(wqm), WqmU64, 1)
    ensures QuadOf(k) < 32 && Bit(w.word(l, word, 0), k) == Bit(w.word(l, word, 0), QuadOf(k))
  {
    var h: nat := if half == 0 then 0 else 1;
    ExtractComputed(p, w, l, word, half);
    OperatorComputed(p, w, l, wqm);
    var source := w.word(l, p.values[wqm].arguments[0], h);
    QuadAnyConstant(source, k);
    assert Bit(w.word(l, wqm, h), k) <==> QuadAny(source, k);
    assert Bit(w.word(l, wqm, h), QuadOf(k)) <==> QuadAny(source, QuadOf(k));
  }

  lemma WqmIsQuadStable(p: Program, m: Mask, wqm: nat)
    requires WellFormed(p) && WaveSizeOk(p) && HasOpcode(p, Some(wqm), WqmU64, 1)
    requires WqmWord(p, m.low, wqm, 0) && (p.waveSize == 32 || WqmWord(p, m.high, wqm, 1))
    ensures MeansQuadStable(p, m)
  {
    forall w: Wave, l: Lane | Consistent(p, w) && Observes(p, w, l, m)
      ensures QuadSafe(p, w, Seen(p, w, l, m))
    {
      forall k: Lane | k < p.waveSize ensures Seen(p, w, l, m)(k) == Seen(p, w, l, m)(QuadOf(k)) {
        if k < 32 { WqmBit(p, w, l, m.low, wqm, 0, k); }
        else {
          WqmBit(p, w, l, m.high, wqm, 1, k - 32);
          assert QuadOf(k) - 32 == QuadOf(k - 32) && 32 <= QuadOf(k) < 64;
        }
      }
    }
  }

  // ----- Phis of masks

  predicate IsPhiWord(p: Program, v: nat) {
    v < |p.values| && p.values[v].opcode.Phi? && |p.values[v].arguments| > 0
      && |p.values[v].arguments| == |p.values[v].phiBlocks|
  }

  predicate ComesFrom(p: Program, v: nat, j: nat, block: nat, operand: nat) {
    && v < |p.values| && j < |p.values[v].phiBlocks| && j < |p.values[v].arguments|
    && p.values[v].phiBlocks[j] == block && p.values[v].arguments[j] == operand
  }

  /** Some operand of the high phi comes from the same block as operand `i` of the low one. */
  ghost predicate Paired(p: Program, m: Mask, i: nat, high: nat)
    requires IsPhiWord(p, m.low) && i < |p.values[m.low].arguments|
  {
    p.waveSize == 32 || exists j :: ComesFrom(p, m.high, j, p.values[m.low].phiBlocks[i], high)
  }

  predicate IsPhiMask(p: Program, m: Mask) {
    IsPhiWord(p, m.low) && (p.waveSize == 32 || (m.high < |p.values| && p.values[m.high].opcode.Phi?
                                                 && p.values[m.high].parent == p.values[m.low].parent
                                                 && |p.values[m.high].arguments| == |p.values[m.high].phiBlocks|))
  }

  /** The lane's mask is the one it came in with. */
  lemma PhiMaskPicks(p: Program, w: Wave, l: Lane, m: Mask, highs: seq<nat>) returns (i: nat)
    requires WellFormed(p) && Consistent(p, w) && IsPhiMask(p, m) && Observes(p, w, l, m)
    requires |highs| == |p.values[m.low].arguments| && forall j :: 0 <= j < |highs| ==> Paired(p, m, j, highs[j])
    ensures i < |highs|
    ensures var incoming := Mask(p.values[m.low].arguments[i], highs[i]);
            Observes(p, w, l, incoming) && Seen(p, w, l, m) == Seen(p, w, l, incoming)
  {
    var n := p.values[m.low];
    assert Computes(p, w, l, m.low) && ArityOk(n);
    i :| 0 <= i < |n.phiBlocks| && i < |n.arguments| && n.phiBlocks[i] == w.cameFrom(l, n.parent);
    assert Paired(p, m, i, highs[i]);
    if p.waveSize != 32 {
      var h := p.values[m.high];
      assert Computes(p, w, l, m.high) && ArityOk(h);
      var j :| ComesFrom(p, m.high, j, n.phiBlocks[i], highs[i]);
    }
  }

  lemma PhiMeans(p: Program, m: Mask, highs: seq<nat>)
    requires WellFormed(p) && WaveSizeOk(p) && IsPhiMask(p, m)
    requires |highs| == |p.values[m.low].arguments| && forall j :: 0 <= j < |highs| ==> Paired(p, m, j, highs[j])
    ensures (forall j :: 0 <= j < |highs| ==> MeansRealOnly(p, Mask(p.values[m.low].arguments[j], highs[j]))) ==>
            MeansRealOnly(p, m)
    ensures (forall j :: 0 <= j < |highs| ==> MeansQuadStable(p, Mask(p.values[m.low].arguments[j], highs[j]))) ==>
            MeansQuadStable(p, m)
  {
    var a := p.values[m.low].arguments;
    forall w: Wave, l: Lane | Consistent(p, w) && Observes(p, w, l, m)
      ensures exists j :: 0 <= j < |highs| && Observes(p, w, l, Mask(a[j], highs[j]))
                          && Seen(p, w, l, m) == Seen(p, w, l, Mask(a[j], highs[j]))
    {
      var i := PhiMaskPicks(p, w, l, m, highs);
    }
  }

  lemma RealOnlyIsQuadStable(p: Program, m: Mask)
    requires MeansRealOnly(p, m)
    ensures MeansQuadStable(p, m)
  {
  }

  // ----- Values on helper lanes, case by case

  lemma ImmediateOnHelpers(p: Program, v: nat)
    requires v < |p.values| && p.values[v].immediate.Some?
    ensures OnHelpers(p, v, if p.values[v].ty.Bool? then Truth(p.values[v].immediate.value != 0)
                      else p.values[v].immediate.value)
  {
    forall w: Wave, l: Lane | Consistent(p, w) && w.runs(l, v)
      ensures w.word(l, v, 0) == if p.values[v].ty.Bool? then Truth(p.values[v].immediate.value != 0)
              else p.values[v].immediate.value
    {
      assert Computes(p, w, l, v);
    }
  }

  lemma HelperTestOnHelpers(p: Program, v: nat)
    requires WellFormed(p) && v < |p.values| && IsHelperTest(p, p.values[v])
    ensures OnHelpers(p, v, 1)
  {
    forall w: Wave, l: Lane | Consistent(p, w) && w.helper(l) && w.runs(l, v) ensures w.word(l, v, 0) == 1 {
      OperatorComputed(p, w, l, v);
    }
  }

  lemma OwnOnHelpers(p: Program, v: nat)
    requires WellFormed(p) && WaveSizeOk(p) && v < |p.values| && Own(p, v).Some? && MeansRealOnly(p, Own(p, v).value)
    ensures OnHelpers(p, v, 0)
  {
    forall w: Wave, l: Lane | Consistent(p, w) && w.helper(l) && w.runs(l, v) ensures w.word(l, v, 0) == 0 {
      OwnReadsBit(p, w, l, v);
      assert NoHelperBit(p, w, Seen(p, w, l, Own(p, v).value));
    }
  }

  function Logic(opcode: Opcode, x: bv32, y: bv32): bv32 {
    match opcode
    case LogicalAnd => Truth(x != 0 && y != 0)
    case LogicalOr => Truth(x != 0 || y != 0)
    case IEqual32 => Truth(x == y)
    case _ => Truth(x != y)
  }

  predicate IsLogic(n: IrValue) {
    (n.opcode.LogicalAnd? || n.opcode.LogicalOr? || n.opcode.IEqual32? || n.opcode.INotEqual32?) && |n.arguments| == 2
  }

  lemma LogicComputed(p: Program, w: Wave, l: Lane, v: nat)
    requires WellFormed(p) && Consistent(p, w) && v < |p.values| && IsLogic(p.values[v]) && w.runs(l, v)
    ensures var a := p.values[v].arguments;
            w.runs(l, a[0]) && w.runs(l, a[1])
              && w.word(l, v, 0) == Logic(p.values[v].opcode, w.word(l, a[0], 0), w.word(l, a[1], 0))
  {
    OperatorComputed(p, w, l, v);
    var a := p.values[v].arguments;
    assert w.runs(l, a[0]) && w.runs(l, a[1]);
  }

  /** What is known of a value on helper lanes. */
  ghost predicate Known(p: Program, v: nat, c: Option<bv32>) { c.Some? ==> OnHelpers(p, v, c.value) }

  function CombineLogic(opcode: Opcode, left: Option<bv32>, right: Option<bv32>): Option<bv32> {
    match opcode
    case LogicalAnd =>
      if (left.Some? && left.value == 0) || (right.Some? && right.value == 0) then Some(0)
      else if left.Some? && right.Some? then Some(1) else None
    case LogicalOr =>
      if (left.Some? && left.value != 0) || (right.Some? && right.value != 0) then Some(1)
      else if left.Some? && right.Some? then Some(0) else None
    case _ =>
      if left.Some? && right.Some? then Some(if (left.value == right.value) == opcode.IEqual32? then 1 else 0) else None
  }

  lemma LogicOnHelpers(p: Program, v: nat, left: Option<bv32>, right: Option<bv32>)
    requires WellFormed(p) && v < |p.values| && IsLogic(p.values[v])
    requires Known(p, p.values[v].arguments[0], left) && Known(p, p.values[v].arguments[1], right)
    ensures Known(p, v, CombineLogic(p.values[v].opcode, left, right))
  {
    var c := CombineLogic(p.values[v].opcode, left, right);
    if c.Some? {
      forall w: Wave, l: Lane | Consistent(p, w) && w.helper(l) && w.runs(l, v) ensures w.word(l, v, 0) == c.value {
        LogicComputed(p, w, l, v);
      }
    }
  }

  lemma NotOnHelpers(p: Program, v: nat, c: bv32)
    requires WellFormed(p) && v < |p.values| && p.values[v].opcode.LogicalNot?
             && OnHelpers(p, p.values[v].arguments[0], c)
    ensures OnHelpers(p, v, if c == 0 then 1 else 0)
  {
    forall w: Wave, l: Lane | Consistent(p, w) && w.helper(l) && w.runs(l, v)
      ensures w.word(l, v, 0) == if c == 0 then 1 else 0 {
      OperatorComputed(p, w, l, v);
      assert ArityOk(p.values[v]) && w.runs(l, p.values[v].arguments[0]);
    }
  }

  predicate IsHelperSelect(n: IrValue) { (n.opcode.SelectU1? || n.opcode.SelectU32?) && |n.arguments| == 3 }

  lemma SelectComputed(p: Program, w: Wave, l: Lane, v: nat)
    requires WellFormed(p) && Consistent(p, w) && v < |p.values| && IsHelperSelect(p.values[v]) && w.runs(l, v)
    ensures var a := p.values[v].arguments;
            && w.runs(l, a[0]) && w.runs(l, a[1]) && w.runs(l, a[2])
            && w.word(l, v, 0) == if w.word(l, a[0], 0) != 0 then w.word(l, a[1], 0) else w.word(l, a[2], 0)
  {
    OperatorComputed(p, w, l, v);
    var a := p.values[v].arguments;
    assert w.runs(l, a[0]) && w.runs(l, a[1]) && w.runs(l, a[2]);
  }

  lemma SelectOnHelpers(p: Program, v: nat, c: bv32)
    requires WellFormed(p) && v < |p.values| && IsHelperSelect(p.values[v])
    requires var a := p.values[v].arguments;
             || (OnHelpers(p, a[1], c) && OnHelpers(p, a[2], c))
             || (exists x :: OnHelpers(p, a[0], x) && OnHelpers(p, if x != 0 then a[1] else a[2], c))
    ensures OnHelpers(p, v, c)
  {
    forall w: Wave, l: Lane | Consistent(p, w) && w.helper(l) && w.runs(l, v) ensures w.word(l, v, 0) == c {
      SelectComputed(p, w, l, v);
    }
  }

  lemma PhiOnHelpers(p: Program, v: nat, c: bv32)
    requires WellFormed(p) && IsPhiWord(p, v) && forall i :: 0 <= i < |p.values[v].arguments| ==>
             OnHelpers(p, p.values[v].arguments[i], c)
    ensures OnHelpers(p, v, c)
  {
    var n := p.values[v];
    forall w: Wave, l: Lane | Consistent(p, w) && w.helper(l) && w.runs(l, v) ensures w.word(l, v, 0) == c {
      assert Computes(p, w, l, v) && ArityOk(n);
      var i :| 0 <= i < |n.phiBlocks| && i < |n.arguments| && n.phiBlocks[i] == w.cameFrom(l, n.parent);
      assert OnHelpers(p, n.arguments[i], c);
    }
  }

  // ----- The analysis

  /** Memo keys ignore the high word of a wave of 32. */
  function Key(p: Program, m: Mask): Mask { if p.waveSize == 32 then Mask(m.low, m.low) else m }

  lemma KeyMeans(p: Program, m: Mask, verdict: HelperMask)
    ensures Means(p, Key(p, m), verdict) <==> Means(p, m, verdict)
  {
    if p.waveSize == 32 {
      forall w: Wave, l: Lane ensures Observes(p, w, l, Key(p, m)) == Observes(p, w, l, m)
          && Seen(p, w, l, Key(p, m)) == Seen(p, w, l, m) {}
    }
  }

  lemma ArgumentsKnown(p: Program, v: nat)
    requires WellFormed(p) && v < |p.values|
    ensures forall i :: 0 <= i < |p.values[v].arguments| ==> p.values[v].arguments[i] < |p.values|
  {
  }
}
