/** What the helper-lane analysis owes: values and masks it must not give up on. */
module HelperOwes {
  import opened Wrappers
  import opened ShaderIr
  import opened HelperLanes
  import opened HelperReference

  // ----- Stability

  /** No operation across lanes, neither here nor in what the value rests on. */
  ghost predicate LaneFree(p: Program, rank: Ranks, v: nat)
    requires Ranked(p, rank) && v < |p.values|
    decreases rank(v), 1
  {
    p.values[v].opcode != LaneId && p.values[v].opcode != Ballot && p.values[v].opcode != WqmU64
    && forall i :: 0 <= i < |p.values[v].arguments| ==> LaneFreeOperand(p, rank, v, i)
  }

  ghost predicate LaneFreeOperand(p: Program, rank: Ranks, v: nat, i: nat)
    requires Ranked(p, rank) && v < |p.values| && i < |p.values[v].arguments|
    decreases rank(v), 0
  {
    OperandsLower(p, rank, v);
    LaneFree(p, rank, p.values[v].arguments[i])
  }

  lemma OperandFree(p: Program, rank: Ranks, v: nat, i: nat)
    requires Ranked(p, rank) && v < |p.values| && i < |p.values[v].arguments| && LaneFree(p, rank, v)
    ensures p.values[v].arguments[i] < |p.values| && LaneFree(p, rank, p.values[v].arguments[i])
  {
    OperandsLower(p, rank, v);
    assert LaneFreeOperand(p, rank, v, i);
  }

  lemma OtherFree(p: Program, rank: Ranks, v: nat, expected: bv32)
    requires Ranked(p, rank) && v < |p.values| && LaneFree(p, rank, v) && Other(p, v, expected).Some?
    ensures Other(p, v, expected).value < |p.values| && LaneFree(p, rank, Other(p, v, expected).value)
  {
    OperandFree(p, rank, v, 0);
    OperandFree(p, rank, v, 1);
  }

  /** Reading a bit of one's own takes the number of the lane. */
  lemma FreeOwnsNothing(p: Program, rank: Ranks, v: nat)
    requires Ranked(p, rank) && v < |p.values| && LaneFree(p, rank, v)
    ensures Own(p, v).None?
  {
    if Own(p, v).Some? {
      var bit := Other(p, v, 0).value;
      OtherFree(p, rank, v, 0);
      var shifted := Other(p, bit, 1).value;
      OtherFree(p, rank, bit, 1);
      var amount := p.values[shifted].arguments[1];
      OperandFree(p, rank, shifted, 1);
      OtherFree(p, rank, amount, 31);
      assert false;
    }
  }

  /** What rests on no operation across lanes is stable. */
  lemma {:induction false} LaneFreeStable(p: Program, rank: Ranks, v: nat)
    requires Ranked(p, rank) && v < |p.values| && LaneFree(p, rank, v)
    ensures StableValue(p, rank, v)
    decreases rank(v)
  {
    OperandsLower(p, rank, v);
    FreeOwnsNothing(p, rank, v);
    forall i | 0 <= i < |p.values[v].arguments| ensures StableArgument(p, rank, v, i) {
      OperandFree(p, rank, v, i);
      LaneFreeStable(p, rank, p.values[v].arguments[i]);
    }
  }

  /** So are ballots over it. */
  lemma FreeBallotStable(p: Program, rank: Ranks, m: Mask)
    requires Ranked(p, rank) && BallotWord(p, m.low, 0).Some? && HighBallot(p, m).Some?
    requires var low, high := Predicate(p, BallotWord(p, m.low, 0).value), Predicate(p, HighBallot(p, m).value);
             low < |p.values| && high < |p.values| && LaneFree(p, rank, low) && LaneFree(p, rank, high)
    ensures StableMask(p, rank, m)
  {
    BallotsLower(p, rank, m);
    LaneFreeStable(p, rank, Predicate(p, BallotWord(p, m.low, 0).value));
    LaneFreeStable(p, rank, Predicate(p, HighBallot(p, m).value));
  }

  // ----- Helper lanes

  /** A formula of constants and tests for helper lanes. */
  ghost predicate Decided(p: Program, rank: Ranks, v: nat)
    requires Ranked(p, rank) && v < |p.values|
    decreases rank(v)
  {
    var n := p.values[v];
    OperandsLower(p, rank, v);
    if n.immediate.Some? then n.ty != OtherType
    else
      || IsHelperTest(p, n)
      || (n.opcode == LogicalNot && |n.arguments| == 1 && Decided(p, rank, n.arguments[0]))
      || ((n.opcode == LogicalAnd || n.opcode == LogicalOr || n.opcode == IEqual32 || n.opcode == INotEqual32)
          && |n.arguments| == 2 && Decided(p, rank, n.arguments[0]) && Decided(p, rank, n.arguments[1]))
      || ((n.opcode == SelectU1 || n.opcode == SelectU32) && |n.arguments| == 3 && Decided(p, rank, n.arguments[0])
          && Decided(p, rank, n.arguments[1]) && Decided(p, rank, n.arguments[2]))
  }

  /** An own bit is taken from an AND of words. */
  lemma OwnTakesAnd(p: Program, v: nat) returns (bit: nat)
    requires WellFormed(p) && v < |p.values| && Own(p, v).Some?
    ensures bit in p.values[v].arguments && bit < |p.values| && p.values[v].opcode == INotEqual32
            && p.values[bit].opcode == BitwiseAnd32
  {
    bit := Other(p, v, 0).value;
  }

  lemma AndUndecided(p: Program, rank: Ranks, v: nat)
    requires Ranked(p, rank) && v < |p.values| && p.values[v].opcode == BitwiseAnd32
    ensures !Decided(p, rank, v)
  {
    assert ArityOk(p.values[v]);
  }

  /** A formula has no AND of words, and so reads no bit of its own. */
  lemma DecidedOwnsNothing(p: Program, rank: Ranks, v: nat)
    requires Ranked(p, rank) && v < |p.values| && Decided(p, rank, v) && p.values[v].immediate.None?
    ensures Own(p, v).None?
  {
    if Own(p, v).Some? {
      var bit := OwnTakesAnd(p, v);
      AndUndecided(p, rank, bit);
    }
  }

  /** The word of a formula on helper lanes is found. */
  lemma {:induction false} DecidedKnown(p: Program, rank: Ranks, v: nat)
    requires Ranked(p, rank) && v < |p.values| && Decided(p, rank, v)
    ensures HelperValue(p, rank, v).Some?
    decreases rank(v)
  {
    var n := p.values[v];
    var a := n.arguments;
    OperandsLower(p, rank, v);
    if n.immediate.None? && !IsHelperTest(p, n) {
      DecidedOwnsNothing(p, rank, v);
      DecidedKnown(p, rank, a[0]);
      if |a| > 1 { DecidedKnown(p, rank, a[1]); }
      if |a| > 2 { DecidedKnown(p, rank, a[2]); }
    }
  }

  /** Whatever else an AND rests on, it is 0 where one operand is, and an OR is 1 where one operand is not 0. */
  lemma OneDecides(p: Program, rank: Ranks, v: nat, i: nat)
    requires Ranked(p, rank) && v < |p.values| && i < 2 && p.values[v].immediate.None?
    requires p.values[v].opcode == LogicalAnd || p.values[v].opcode == LogicalOr
    ensures var a := p.values[v].arguments;
            && |a| == 2 && a[0] < |p.values| && a[1] < |p.values|
            && (p.values[v].opcode == LogicalAnd && HelperValue(p, rank, a[i]) == Some(0) ==>
                  HelperValue(p, rank, v) == Some(0))
            && (p.values[v].opcode == LogicalOr && HelperValue(p, rank, a[i]) == Some(1) ==>
                  HelperValue(p, rank, v) == Some(1))
  {
    assert ArityOk(p.values[v]);
    OperandsLower(p, rank, v);
  }

  /** Anything and not a helper lane: no helper lane has a bit in a ballot over that. */
  lemma NoHelperVotes(p: Program, rank: Ranks, m: Mask, v: nat, i: nat, test: nat)
    requires Ranked(p, rank) && v < |p.values| && p.values[v].immediate.None? && p.values[v].opcode == LogicalAnd
             && i < 2
    requires |p.values[v].arguments| == 2 && p.values[v].arguments[i] < |p.values|
    requires var n := p.values[p.values[v].arguments[i]];
             n.immediate.None? && n.opcode == LogicalNot && n.arguments == [test]
    requires test < |p.values| && p.values[test].immediate.None? && IsHelperTest(p, p.values[test])
    requires BallotWord(p, m.low, 0).Some? && HighBallot(p, m).Some?
             && Predicate(p, BallotWord(p, m.low, 0).value) == v && Predicate(p, HighBallot(p, m).value) == v
    requires !BothWords(p, m, 0) && !BothWords(p, m, 0xffffffff)
    ensures MaskVerdict(p, rank, m).RealOnly?
  {
    OperandsLower(p, rank, v);
    OperandsLower(p, rank, p.values[v].arguments[i]);
    assert HelperValue(p, rank, test) == Some(1);
    assert HelperValue(p, rank, p.values[v].arguments[i]) == Some(0);
    OneDecides(p, rank, v, i);
    BallotsLower(p, rank, m);
  }
}
