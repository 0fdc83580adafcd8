/** The helper-lane analysis as it runs: memoised, cut off at a depth, and cyclic where the values are.

Whatever it answers is true of every execution. Where no value rests on itself and the depth suffices, its memo changes
nothing: it answers exactly what the plain recursion of HelperReference does. */
module HelperAnalysis {
  import opened Wrappers
  import opened ShaderIr
  import opened HelperLanes
  import opened HelperReference
  import opened ReplayMeaning

  const MAX_STABLE_DEPTH: nat := 512

  /** Entries still being computed, of each of the four memos. */
  datatype Open = Open(values: set<nat>, masks: set<Mask>, stableValues: set<nat>, stableMasks: set<Mask>)

  class Analysis {
    const p: Program
    ghost const exact: bool
    ghost const rank: Ranks
    var helperMasks: map<Mask, HelperMask>
    var helperValues: map<nat, Option<bv32>>
    var masks: map<Mask, bool>
    var stableValues: map<nat, bool>
    ghost var open: Open

    /** Every remembered verdict is true of every execution; entries still being computed say nothing. */
    ghost predicate Valid()
      reads this
    {
      && WellFormed(p) && WaveSizeOk(p) && (exact ==> Ranked(p, rank))
      && ValuesKnown(helperValues, open.values) && MasksMean(helperMasks, open.masks)
      && StableKnown(stableValues, open.stableValues) && MasksStable(masks, open.stableMasks)
    }

    /** In exact mode, entries that are not being computed are those of the plain recursion. */
    ghost predicate ValuesKnown(memo: map<nat, Option<bv32>>, open: set<nat>) {
      open <= memo.Keys && forall v :: v in memo ==> Known(p, v, memo[v]) && (v !in open ==> ExactValue(v, memo[v]))
    }

    ghost predicate MasksMean(memo: map<Mask, HelperMask>, open: set<Mask>) {
      open <= memo.Keys && forall m :: m in memo ==> Means(p, m, memo[m]) && (m !in open ==> ExactMask(m, memo[m]))
    }

    ghost predicate StableKnown(memo: map<nat, bool>, open: set<nat>) {
      open <= memo.Keys && forall v :: v in memo ==> (memo[v] ==> Kept(p, v))
                                                     && (v !in open ==> ExactStable(v, memo[v]))
    }

    ghost predicate MasksStable(memo: map<Mask, bool>, open: set<Mask>) {
      open <= memo.Keys && forall m :: m in memo ==> (memo[m] ==> MaskKept(p, m))
                                                     && (m !in open ==> ExactMaskStable(m, memo[m]))
    }

    ghost predicate ExactValue(v: nat, c: Option<bv32>) {
      exact ==> Ranked(p, rank) && v < |p.values| && c == HelperValue(p, rank, v)
    }

    ghost predicate ExactMask(m: Mask, verdict: HelperMask) {
      exact ==> Ranked(p, rank) && verdict == MaskVerdict(p, rank, m)
    }

    ghost predicate ExactStable(v: nat, accepted: bool) {
      exact ==> Ranked(p, rank) && v < |p.values| && accepted == StableValue(p, rank, v)
    }

    ghost predicate ExactMaskStable(m: Mask, accepted: bool) {
      exact ==> Ranked(p, rank) && accepted == StableMask(p, rank, m)
    }

    /** In exact mode, everything below height `limit` can be computed from this depth on, and none of it is being
        computed. */
    ghost predicate Room(limit: nat, depth: nat)
      reads this
    {
      exact ==>
        && depth + limit <= MAX_DEPTH + 1
        && (forall v <- open.values :: limit <= rank(v)) && (forall m <- open.masks :: limit <= MaskRank(p, rank, m))
        && (forall v <- open.stableValues :: limit <= rank(v))
        && (forall m <- open.stableMasks :: limit <= MaskRank(p, rank, m))
    }

    constructor (p: Program, ghost exact: bool, ghost rank: Ranks)
      requires WellFormed(p) && WaveSizeOk(p) && (exact ==> Ranked(p, rank))
      ensures Valid() && this.p == p && this.exact == exact && this.rank == rank && open == Open({}, {}, {}, {})
    {
      this.p, this.exact, this.rank := p, exact, rank;
      helperMasks, helperValues, masks, stableValues, open := map[], map[], map[], map[], Open({}, {}, {}, {});
    }

    // ----- Replay stability

    /** Is a mask replay-stable? A mask still being tested is taken not to be. */
    method MaskStable(m: Mask, depth: nat) returns (accepted: bool)
      requires Valid() && Room(MaskRank(p, rank, m) + 1, depth)
      modifies this
      ensures Valid() && open == old(open)
      ensures (accepted ==> MaskKept(p, m)) && ExactMaskStable(m, accepted)
      decreases 600 - depth, 4
    {
      if depth > MAX_DEPTH { return false; }
      var key := Key(p, m);
      if key in masks {
        KeyAnswers(m, masks[key]);
        return masks[key];
      }
      accepted := TestNew(m, depth);
    }

    /** The mask is taken to be unstable while it is tested. */
    method TestNew(m: Mask, depth: nat) returns (accepted: bool)
      requires Valid() && depth <= MAX_DEPTH && Key(p, m) !in masks && Room(MaskRank(p, rank, m) + 1, depth)
      modifies this
      ensures Valid() && open == old(open)
      ensures (accepted ==> MaskKept(p, m)) && ExactMaskStable(m, accepted)
      decreases 600 - depth, 3
    {
      var key := Key(p, m);
      KeyRank(m);
      masks, open := masks[key := false], open.(stableMasks := open.stableMasks + {key});
      accepted := TestMask(m, depth);
      KeyAnswers(m, accepted);
      masks, open := masks[key := accepted], open.(stableMasks := open.stableMasks - {key});
    }

    /** A wave of 32 has no use for the high word. */
    lemma KeyAnswers(m: Mask, accepted: bool)
      requires exact ==> Ranked(p, rank)
      ensures MaskKept(p, Key(p, m)) <==> MaskKept(p, m)
      ensures ExactMaskStable(Key(p, m), accepted) <==> ExactMaskStable(m, accepted)
    {
      KeyKept(p, m);
      if exact { KeyStable(p, rank, m); }
    }

    lemma KeyRank(m: Mask)
      ensures MaskRank(p, rank, Key(p, m)) == MaskRank(p, rank, m)
    {
    }

    method TestMask(m: Mask, depth: nat) returns (accepted: bool)
      requires Valid() && depth <= MAX_DEPTH && Room(MaskRank(p, rank, m), depth + 1)
      modifies this
      ensures Valid() && open == old(open)
      ensures (accepted ==> MaskKept(p, m)) && ExactMaskStable(m, accepted)
      decreases 600 - depth, 2
    {
      if BothWords(p, m, 0) || BothWords(p, m, 0xffffffff) {
        ConstantKept(p, m, if BothWords(p, m, 0) then 0 else 0xffffffff);
        return true;
      }
      var lowBallot, highBallot := BallotWord(p, m.low, 0), HighBallot(p, m);
      accepted := false;
      if lowBallot.Some? && highBallot.Some? {
        if exact { BallotsLower(p, rank, m); }
        Operands(lowBallot.value);
        Operands(highBallot.value);
        accepted := Stable(Predicate(p, lowBallot.value), depth + 1);
        if accepted { accepted := Stable(Predicate(p, highBallot.value), depth + 1); }
        if accepted { BallotKept(p, m); }
      } else if IsAndMask(p, m) {
        accepted := TestPair(m, 0, depth);
        if !accepted && p.waveSize != 32 { accepted := TestPair(m, 1, depth); }
      } else if IsWqmMask(p, m) {
        accepted := TestQuads(m, depth);
      } else if IsPhiMask(p, m) {
        accepted := TestPhi(m, depth);
      }
    }

    method TestPair(m: Mask, j: nat, depth: nat) returns (accepted: bool)
      requires Valid() && depth <= MAX_DEPTH && IsAndMask(p, m) && j < 2 && Room(MaskRank(p, rank, m), depth + 1)
      modifies this
      ensures Valid() && open == old(open)
      ensures accepted ==> MaskKept(p, m)
      ensures exact ==> accepted == StablePair(p, rank, m, j)
      decreases 600 - depth, 1
    {
      if exact {
        AndLower(p, rank, m, 0, j);
        AndLower(p, rank, m, 1, 1 - j);
      }
      accepted := MaskStable(AndPart(p, m, 0, j), depth + 1);
      if accepted { accepted := MaskStable(AndPart(p, m, 1, 1 - j), depth + 1); }
      if accepted {
        AndParts(p, m, j, 1 - j);
        AndKept(p, m, AndPart(p, m, 0, j), AndPart(p, m, 1, 1 - j));
      }
    }

    /** Whole quads need to know the helper bits of what they are made from. */
    method TestQuads(m: Mask, depth: nat) returns (accepted: bool)
      requires Valid() && depth <= MAX_DEPTH && IsWqmMask(p, m) && Room(MaskRank(p, rank, m), depth + 1)
      modifies this
      ensures Valid() && open == old(open)
      ensures accepted ==> MaskKept(p, m)
      ensures exact ==> accepted == StableQuads(p, rank, m)
      decreases 600 - depth, 1
    {
      var source := WqmSource(p, m);
      if source.None? { return false; }
      if exact { WqmLower(p, rank, m); }
      accepted := MaskStable(source.value, depth + 1);
      if accepted {
        var provenance := Helpers(source.value, depth + 1);
        accepted := provenance.RealOnly? || provenance.QuadStable?;
        if provenance.RealOnly? { RealOnlyIsQuadStable(p, source.value); }
        if accepted { QuadKept(p, m, source.value); }
      }
    }

    method TestPhi(m: Mask, depth: nat) returns (accepted: bool)
      requires Valid() && depth <= MAX_DEPTH && IsPhiMask(p, m) && Room(MaskRank(p, rank, m), depth + 1)
      modifies this
      ensures Valid() && open == old(open)
      ensures accepted ==> MaskKept(p, m)
      ensures exact ==> accepted == StableIncoming(p, rank, m)
      decreases 600 - depth, 1
    {
      ghost var highs, entered := [], Entered(m);
      for index := 0 to |p.values[m.low].arguments|
        invariant Valid() && open == old(open) && |highs| == index
        invariant forall i: nat :: i < index ==> entered(i, highs[i])
      {
        ghost var high;
        accepted, high := TestOperand(m, index, depth);
        if !accepted { return; }
        highs := highs + [high];
      }
      AllEntered(m, highs);
      return true;
    }

    /** What acceptance says of one mask that comes in. */
    ghost function Entered(m: Mask): (nat, nat) -> bool
      requires IsPhiMask(p, m) && (exact ==> Ranked(p, rank))
    {
      (i: nat, high: nat) =>
        i < |p.values[m.low].arguments| ==> IncomingKept(m, i, high) && (exact ==> StableOperand(p, rank, m, i))
    }

    lemma AllEntered(m: Mask, highs: seq<nat>)
      requires WellFormed(p) && IsPhiMask(p, m) && (exact ==> Ranked(p, rank)) && |highs| == |p.values[m.low].arguments|
      requires forall i: nat :: i < |highs| ==> Entered(m)(i, highs[i])
      ensures MaskKept(p, m)
      ensures exact ==> StableIncoming(p, rank, m)
    {
      forall i: nat | i < |highs|
        ensures IncomingKept(m, i, highs[i]) && (exact ==> StableOperand(p, rank, m, i))
      {
        assert Entered(m)(i, highs[i]);
      }
      PhiKept(p, m, highs);
    }

    lemma OperandRefused(m: Mask, index: nat)
      requires exact && Ranked(p, rank) && IsPhiMask(p, m) && index < |p.values[m.low].arguments|
      requires !StableOperand(p, rank, m, index)
      ensures !StableIncoming(p, rank, m)
    {
    }

    /** The mask that comes in with operand `i` keeps its bits. */
    ghost predicate IncomingKept(m: Mask, i: nat, high: nat)
      requires IsPhiMask(p, m) && i < |p.values[m.low].arguments|
    {
      Paired(p, m, i, high) && MaskKept(p, Mask(p.values[m.low].arguments[i], high))
    }

    method TestOperand(m: Mask, index: nat, depth: nat) returns (accepted: bool, ghost high: nat)
      requires Valid() && depth <= MAX_DEPTH && IsPhiMask(p, m) && index < |p.values[m.low].arguments|
               && Room(MaskRank(p, rank, m), depth + 1)
      modifies this
      ensures Valid() && open == old(open)
      ensures accepted ==> Entered(m)(index, high)
      ensures exact && !accepted ==> !StableIncoming(p, rank, m)
      decreases 600 - depth, 0
    {
      var paired := PairedHigh(m, index);
      HighPaired(p, m, index);
      accepted, high := false, 0;
      if paired.Some? {
        high := paired.value;
        if exact { HighLower(p, rank, m, index); }
        accepted := MaskStable(Mask(p.values[m.low].arguments[index], paired.value), depth + 1);
      }
      if exact && !accepted { OperandRefused(m, index); }
    }

    /** Does a value rest on lanes only through their own bits of stable masks? A value still being tested is taken not
        to. */
    method Stable(value: nat, depth: nat) returns (accepted: bool)
      requires Valid() && value < |p.values| && Room(rank(value) + 1, depth)
      modifies this
      ensures Valid() && open == old(open)
      ensures (accepted ==> Kept(p, value)) && ExactStable(value, accepted)
      decreases 600 - depth, 3
    {
      if depth > MAX_STABLE_DEPTH { return false; }
      if p.values[value].immediate.Some? {
        ImmediateKept(p, value);
        return true;
      }
      if value in stableValues { return stableValues[value]; }
      stableValues, open := stableValues[value := false], open.(stableValues := open.stableValues + {value});
      accepted := TestValue(value, depth);
      stableValues, open := stableValues[value := accepted], open.(stableValues := open.stableValues - {value});
    }

    method TestValue(value: nat, depth: nat) returns (accepted: bool)
      requires Valid() && value < |p.values| && p.values[value].immediate.None? && depth <= MAX_STABLE_DEPTH
               && Room(rank(value), depth + 1)
      modifies this
      ensures Valid() && open == old(open)
      ensures (accepted ==> Kept(p, value)) && ExactStable(value, accepted)
      decreases 600 - depth, 2
    {
      var own := Own(p, value);
      if own.Some? {
        if exact { OwnLower(p, rank, value); }
        accepted := MaskStable(own.value, depth + 1);
        if accepted { OwnKept(p, value); }
        return;
      }
      if CrossLane(p.values[value]) { return false; }
      accepted := TestArguments(value, depth);
      if accepted { ArgumentsKeep(p, value); }
    }

    method TestArguments(value: nat, depth: nat) returns (accepted: bool)
      requires Valid() && value < |p.values| && depth <= MAX_STABLE_DEPTH && Room(rank(value), depth + 1)
      modifies this
      ensures Valid() && open == old(open)
      ensures accepted ==> ArgumentsKept(p, value)
      ensures exact ==> accepted == StableArguments(p, rank, value)
      decreases 600 - depth, 1
    {
      accepted := true;
      ghost var tested := Tested(value);
      for index := 0 to |p.values[value].arguments|
        invariant Valid() && open == old(open)
        invariant forall i: nat :: i < index ==> tested(i)
      {
        accepted := TestArgument(value, index, depth);
        if !accepted { return; }
      }
      AllTested(value);
    }

    /** What acceptance says of one operand. */
    ghost function Tested(value: nat): nat -> bool
      requires value < |p.values| && (exact ==> Ranked(p, rank))
    {
      (i: nat) =>
        i < |p.values[value].arguments| ==> ArgumentKept(p, value, i) && (exact ==> StableArgument(p, rank, value, i))
    }

    lemma AllTested(value: nat)
      requires value < |p.values| && (exact ==> Ranked(p, rank))
      requires forall i: nat :: i < |p.values[value].arguments| ==> Tested(value)(i)
      ensures ArgumentsKept(p, value)
      ensures exact ==> StableArguments(p, rank, value)
    {
      forall i: nat | i < |p.values[value].arguments|
        ensures ArgumentKept(p, value, i) && (exact ==> StableArgument(p, rank, value, i))
      {
        assert Tested(value)(i);
      }
    }

    lemma ArgumentRefused(value: nat, index: nat)
      requires exact && Ranked(p, rank) && value < |p.values| && index < |p.values[value].arguments|
      requires !StableArgument(p, rank, value, index)
      ensures !StableArguments(p, rank, value)
    {
    }

    method TestArgument(value: nat, index: nat, depth: nat) returns (accepted: bool)
      requires Valid() && value < |p.values| && index < |p.values[value].arguments| && depth <= MAX_STABLE_DEPTH
               && Room(rank(value), depth + 1)
      modifies this
      ensures Valid() && open == old(open)
      ensures accepted ==> Tested(value)(index)
      ensures exact && !accepted ==> !StableArguments(p, rank, value)
      decreases 600 - depth, 0
    {
      Operands(value);
      accepted := Stable(p.values[value].arguments[index], depth + 1);
      if exact && !accepted { ArgumentRefused(value, index); }
    }

    // ----- Helper lanes

    /** The word every helper lane computes for `value`, when that is known. */
    method OnHelper(value: nat, depth: nat) returns (result: Option<bv32>)
      requires Valid() && value < |p.values| && Room(rank(value) + 1, depth)
      modifies this
      ensures Valid() && open == old(open)
      ensures Known(p, value, result) && ExactValue(value, result)
      decreases 600 - depth, 3
    {
      if depth > MAX_DEPTH { return None; }
      var n := p.values[value];
      if n.immediate.Some? {
        ImmediateOnHelpers(p, value);
        return OfImmediate(n);
      }
      if value in helperValues { return helperValues[value]; }
      helperValues, open := helperValues[value := None], open.(values := open.values + {value});
      result := Evaluate(value, depth);
      helperValues, open := helperValues[value := result], open.(values := open.values - {value});
    }

    method Evaluate(value: nat, depth: nat) returns (result: Option<bv32>)
      requires Valid() && value < |p.values| && depth <= MAX_DEPTH && p.values[value].immediate.None?
               && Room(rank(value), depth + 1)
      modifies this
      ensures Valid() && open == old(open)
      ensures Known(p, value, result) && ExactValue(value, result)
      decreases 600 - depth, 2
    {
      var n := p.values[value];
      var a := n.arguments;
      Operands(value);
      result := None;
      if IsHelperTest(p, n) {
        HelperTestOnHelpers(p, value);
        result := Some(1);
      } else if Own(p, value).Some? {
        result := OfOwn(value, depth);
      } else if n.opcode.LogicalNot? && |a| == 1 {
        var source := OnHelper(a[0], depth + 1);
        if source.Some? {
          NotOnHelpers(p, value, source.value);
          result := Some(if source.value == 0 then 1 else 0);
        }
      } else if IsLogic(n) {
        var left := OnHelper(a[0], depth + 1);
        var right := OnHelper(a[1], depth + 1);
        LogicOnHelpers(p, value, left, right);
        result := CombineLogic(n.opcode, left, right);
      } else if IsHelperSelect(n) {
        result := OfSelect(value, depth);
      } else if IsPhiWord(p, value) {
        result := OfPhi(value, depth);
      }
    }

    lemma Operands(value: nat)
      requires Valid() && value < |p.values|
      ensures forall i :: 0 <= i < |p.values[value].arguments| ==> p.values[value].arguments[i] < |p.values|
      ensures exact ==> forall i :: 0 <= i < |p.values[value].arguments| ==>
              rank(p.values[value].arguments[i]) < rank(value)
    {
      ArgumentsKnown(p, value);
      if exact { OperandsLower(p, rank, value); }
    }

    method OfOwn(value: nat, depth: nat) returns (result: Option<bv32>)
      requires Valid() && value < |p.values| && depth <= MAX_DEPTH && Own(p, value).Some?
               && Room(rank(value), depth + 1)
      modifies this
      ensures Valid() && open == old(open)
      ensures Known(p, value, result)
      ensures exact ==> result == if MaskVerdict(p, rank, Own(p, value).value).RealOnly? then Some(0) else None
      decreases 600 - depth, 1
    {
      if exact { OwnLower(p, rank, value); }
      var verdict := Helpers(Own(p, value).value, depth + 1);
      if verdict.RealOnly? {
        OwnOnHelpers(p, value);
        return Some(0);
      }
      return None;
    }

    method OfSelect(value: nat, depth: nat) returns (result: Option<bv32>)
      requires Valid() && value < |p.values| && depth <= MAX_DEPTH && IsHelperSelect(p.values[value])
               && Room(rank(value), depth + 1)
      modifies this
      ensures Valid() && open == old(open)
      ensures Known(p, value, result)
      ensures exact ==> result == ChosenValue(p, rank, value)
      decreases 600 - depth, 1
    {
      var a := p.values[value].arguments;
      Operands(value);
      var condition := OnHelper(a[0], depth + 1);
      if condition.Some? {
        result := OnHelper(if condition.value != 0 then a[1] else a[2], depth + 1);
        if result.Some? { SelectOnHelpers(p, value, result.value); }
      } else {
        var left := OnHelper(a[1], depth + 1);
        var right := OnHelper(a[2], depth + 1);
        result := None;
        if left.Some? && left == right {
          SelectOnHelpers(p, value, left.value);
          result := left;
        }
      }
    }

    method OfPhi(value: nat, depth: nat) returns (result: Option<bv32>)
      requires Valid() && value < |p.values| && depth <= MAX_DEPTH && IsPhiWord(p, value)
               && Room(rank(value), depth + 1)
      modifies this
      ensures Valid() && open == old(open)
      ensures Known(p, value, result)
      ensures exact ==> result == MergedValue(p, rank, value)
      decreases 600 - depth, 1
    {
      var a := p.values[value].arguments;
      Operands(value);
      result := OnHelper(a[0], depth + 1);
      ghost var first := result;
      var index := 1;
      while result.Some? && index < |a|
        invariant Valid() && open == old(open)
        invariant 1 <= index <= |a| && ExactValue(a[0], first) && (result == first || result.None?)
        invariant result.Some? ==> forall i :: 0 <= i < index ==>
                  OnHelpers(p, a[i], result.value)
                  && ExactValue(a[i], result)
        invariant result.None? && first.Some? ==> exact ==> exists i ::
                  0 <= i < index
                  && HelperValue(p, rank, a[i]) != first
      {
        var next := OnHelper(a[index], depth + 1);
        if next != result { result := None; }
        index := index + 1;
      }
      if result.Some? { PhiOnHelpers(p, value, result.value); }
    }

    /** What is known of a mask's helper bits. */
    method Helpers(m: Mask, depth: nat) returns (result: HelperMask)
      requires Valid() && Room(MaskRank(p, rank, m) + 1, depth)
      modifies this
      ensures Valid() && open == old(open)
      ensures Means(p, m, result) && ExactMask(m, result)
      decreases 600 - depth, 3
    {
      if depth > MAX_DEPTH { return Uncertain; }
      var key := Key(p, m);
      if exact { KeyVerdict(p, rank, m); }
      if key in helperMasks {
        KeyMeans(p, m, helperMasks[key]);
        return helperMasks[key];
      }
      helperMasks, open := helperMasks[key := Visiting], open.(masks := open.masks + {key});
      result := Classify(m, depth);
      KeyMeans(p, m, result);
      helperMasks, open := helperMasks[key := result], open.(masks := open.masks - {key});
    }

    method Classify(m: Mask, depth: nat) returns (result: HelperMask)
      requires Valid() && depth <= MAX_DEPTH && Room(MaskRank(p, rank, m), depth + 1)
      modifies this
      ensures Valid() && open == old(open)
      ensures Means(p, m, result) && ExactMask(m, result)
      decreases 600 - depth, 2
    {
      result := Uncertain;
      if BothWords(p, m, 0) {
        ZeroIsRealOnly(p, m);
        return RealOnly;
      }
      if BothWords(p, m, 0xffffffff) {
        OnesAreQuadStable(p, m);
        return QuadStable;
      }
      var lowBallot, highBallot := BallotWord(p, m.low, 0), HighBallot(p, m);
      if lowBallot.Some? && highBallot.Some? {
        result := OfBallots(m, lowBallot.value, highBallot.value, depth);
      } else if IsAndMask(p, m) {
        result := OfAnd(m, depth);
      } else if IsWqmMask(p, m) {
        result := OfWqm(m, depth);
      } else if IsPhiMask(p, m) {
        result := OfMaskPhi(m, depth);
      }
    }

    method OfBallots(m: Mask, lowBallot: nat, highBallot: nat, depth: nat) returns (result: HelperMask)
      requires Valid() && depth <= MAX_DEPTH && BallotWord(p, m.low, 0) == Some(lowBallot)
               && HighBallot(p, m) == Some(highBallot)
      requires Room(MaskRank(p, rank, m), depth + 1)
      modifies this
      ensures Valid() && open == old(open)
      ensures Means(p, m, result)
      ensures exact ==> result == BallotVerdict(p, rank, m)
      decreases 600 - depth, 1
    {
      Operands(lowBallot);
      Operands(highBallot);
      if exact { BallotsLower(p, rank, m); }
      var low := OnHelper(Predicate(p, lowBallot), depth + 1);
      var high := OnHelper(Predicate(p, highBallot), depth + 1);
      if low == Some(0) && high == Some(0) {
        BallotIsRealOnly(p, m);
        return RealOnly;
      }
      return Uncertain;
    }

    /** Both ways of pairing the words of an AND; the first one's verdict stands unless the second is better. */
    method OfAnd(m: Mask, depth: nat) returns (result: HelperMask)
      requires Valid() && depth <= MAX_DEPTH && IsAndMask(p, m) && Room(MaskRank(p, rank, m), depth + 1)
      modifies this
      ensures Valid() && open == old(open)
      ensures Means(p, m, result)
      ensures exact ==> result == PairedVerdict(p, rank, m)
      decreases 600 - depth, 1
    {
      result := Combine(m, 0, 1, depth);
      if p.waveSize != 32 && !result.RealOnly? {
        var swapped := Combine(m, 1, 0, depth);
        if swapped.RealOnly? || (swapped.QuadStable? && result.Uncertain?) { result := swapped; }
      }
    }

    method Combine(m: Mask, i: nat, j: nat, depth: nat) returns (result: HelperMask)
      requires Valid() && depth <= MAX_DEPTH && IsAndMask(p, m) && i < 2 && j < 2 && i != j
               && Room(MaskRank(p, rank, m), depth + 1)
      modifies this
      ensures Valid() && open == old(open)
      ensures Means(p, m, result)
      ensures exact ==> result == AndVerdict(p, rank, m, i, j)
      decreases 600 - depth, 0
    {
      var first, second := AndPart(p, m, 0, i), AndPart(p, m, 1, j);
      if exact {
        AndLower(p, rank, m, 0, i);
        AndLower(p, rank, m, 1, j);
      }
      AndParts(p, m, i, j);
      var accepted := MaskStable(first, depth + 1);
      if accepted { accepted := MaskStable(second, depth + 1); }
      if !accepted { return Uncertain; }
      var left := Helpers(first, depth + 1);
      var right := Helpers(second, depth + 1);
      AndMeans(p, m, first, second);
      if left.RealOnly? || right.RealOnly? { return RealOnly; }
      if left.QuadStable? && right.QuadStable? { return QuadStable; }
      return Uncertain;
    }

    method OfWqm(m: Mask, depth: nat) returns (result: HelperMask)
      requires Valid() && depth <= MAX_DEPTH && IsWqmMask(p, m) && Room(MaskRank(p, rank, m), depth + 1)
      modifies this
      ensures Valid() && open == old(open)
      ensures Means(p, m, result)
      ensures exact ==> result == QuadVerdict(p, rank, m)
      decreases 600 - depth, 1
    {
      var source := WqmSource(p, m);
      if source.None? { return Uncertain; }
      if exact { WqmLower(p, rank, m); }
      var input := Helpers(source.value, depth + 1);
      if input.RealOnly? || input.QuadStable? {
        WqmIsQuadStable(p, m, p.values[m.low].arguments[0]);
        return QuadStable;
      }
      return Uncertain;
    }

    /** The high operand of the block the low operand `index` comes from; the last one listed counts. */
    method PairedHigh(m: Mask, index: nat) returns (high: Option<nat>)
      requires IsPhiMask(p, m) && index < |p.values[m.low].arguments|
      ensures high == HighOf(p, m, index)
    {
      if p.waveSize == 32 { return Some(p.values[m.low].arguments[index]); }
      high := None;
      var h, block := p.values[m.high], p.values[m.low].phiBlocks[index];
      for j := 0 to |h.phiBlocks|
        invariant high == LastFrom(h, block, j)
      {
        if h.phiBlocks[j] == block { high := Some(h.arguments[j]); }
      }
    }

    /** The verdict on the mask that comes in with operand `index`. */
    method Incoming(m: Mask, index: nat, depth: nat) returns (result: HelperMask, ghost high: nat)
      requires Valid() && depth <= MAX_DEPTH && IsPhiMask(p, m) && index < |p.values[m.low].arguments|
               && Room(MaskRank(p, rank, m), depth + 1)
      modifies this
      ensures Valid() && open == old(open)
      ensures result.RealOnly? || result.QuadStable? ==>
              Paired(p, m, index, high)
              && Means(p, Mask(p.values[m.low].arguments[index], high), result)
      ensures exact ==> result == IncomingVerdict(p, rank, m, index)
      decreases 600 - depth, 0
    {
      var paired := PairedHigh(m, index);
      HighPaired(p, m, index);
      if paired.None? { return Uncertain, 0; }
      high := paired.value;
      if exact { HighLower(p, rank, m, index); }
      result := Helpers(Mask(p.values[m.low].arguments[index], paired.value), depth + 1);
    }

    method OfMaskPhi(m: Mask, depth: nat) returns (result: HelperMask)
      requires Valid() && depth <= MAX_DEPTH && IsPhiMask(p, m) && Room(MaskRank(p, rank, m), depth + 1)
      modifies this
      ensures Valid() && open == old(open)
      ensures Means(p, m, result)
      ensures exact ==> result == MergedVerdict(p, rank, m)
      decreases 600 - depth, 1
    {
      result := RealOnly;
      ghost var highs: seq<nat> := [];
      for index := 0 to |p.values[m.low].arguments|
        invariant Valid() && open == old(open)
        invariant |highs| == index && AllMean(p, m, highs, result)
        invariant exact ==> Worst(AllIncoming(p, rank, m), index, result)
      {
        var incoming: HelperMask;
        ghost var high: nat;
        incoming, high := Incoming(m, index, depth);
        if incoming.Uncertain? || incoming.Visiting? {
          if exact { UncertainMerges(p, rank, m, index); }
          return Uncertain;
        }
        OneMoreMeans(p, m, highs, high, result, incoming);
        if exact { WorstMore(AllIncoming(p, rank, m), index, result); }
        highs := highs + [high];
        if incoming.QuadStable? { result := QuadStable; }
      }
      PhiMeans(p, m, highs);
      if exact { WorstMerges(p, rank, m, result); }
    }
  }

  /** The first masks that come into a phi are all as good as `verdict`. */
  ghost predicate AllMean(p: Program, m: Mask, highs: seq<nat>, verdict: HelperMask) {
    && IsPhiMask(p, m) && |highs| <= |p.values[m.low].arguments| && (verdict.RealOnly? || verdict.QuadStable?)
    && forall j :: 0 <= j < |highs| ==> Paired(p, m, j, highs[j])
                                        && Means(p, Mask(p.values[m.low].arguments[j], highs[j]), verdict)
  }

  lemma OneMoreMeans(p: Program, m: Mask, highs: seq<nat>, high: nat, verdict: HelperMask, incoming: HelperMask)
    requires AllMean(p, m, highs, verdict) && |highs| < |p.values[m.low].arguments|
             && (incoming.RealOnly? || incoming.QuadStable?)
    requires Paired(p, m, |highs|, high) && Means(p, Mask(p.values[m.low].arguments[|highs|], high), incoming)
    ensures AllMean(p, m, highs + [high], if incoming.QuadStable? then QuadStable else verdict)
  {
    var a, now := p.values[m.low].arguments, if incoming.QuadStable? then QuadStable else verdict;
    forall j | 0 <= j < |highs| + 1 ensures Paired(p, m, j, (highs + [high])[j])
        && Means(p, Mask(a[j], (highs + [high])[j]), now) {
      var mask := Mask(a[j], (highs + [high])[j]);
      if j < |highs| { assert Means(p, mask, verdict); } else { assert Means(p, mask, incoming); }
      if MeansRealOnly(p, mask) { RealOnlyIsQuadStable(p, mask); }
    }
  }
}
