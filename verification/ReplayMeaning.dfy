/** What replay stability means: run again beside other lanes, an invocation computes the same values and sees its own
bit of a mask as before.

Two executions have a quad each. The quads are twins when the same of their lanes are helpers, and their other lanes
came from the same blocks, compute the same from the same operands unless across lanes, and meet each other in the same
operations. Nothing is said of other lanes, of the words of helpers or of what is computed across lanes. The quads may
lie anywhere in their waves, but both in the lower half or both in the upper one, which have ballots of their own. */
module ReplayMeaning {
  import opened Wrappers
  import opened ShaderIr
  import opened HelperLanes
  import opened HelperReference

  // ----- Twins

  /** The four lanes of a quad. */
  function LaneAt(q: Lane, i: nat): Lane {
    if i == 0 then q else if i == 1 then q + 1 else if i == 2 then q + 2 else q + 3
  }

  ghost predicate Quad(p: Program, q: Lane) { q & 3 == 0 && q < p.waveSize && WaveSizeOk(p) }

  /** A lane of one execution has the same words as one of another. */
  ghost predicate Agree(w: Wave, x: Wave, l: Lane, k: Lane, v: nat) {
    forall c: nat :: w.word(l, v, c) == x.word(k, v, c)
  }

  ghost predicate SameOperands(w: Wave, x: Wave, l: Lane, k: Lane, n: IrValue) {
    forall i :: 0 <= i < |n.arguments| ==> Agree(w, x, l, k, n.arguments[i])
  }

  /** Neither a phi nor an operation across lanes. */
  predicate OfOneLane(n: IrValue) {
    n.opcode != Phi && n.opcode != Ballot && n.opcode != LaneId && n.opcode != WqmU64
  }

  /** Anything but a phi and an operation across lanes is a function of its operands, and a comparison has one word. */
  ghost predicate SameFunction(p: Program, w: Wave, x: Wave, l: Lane, k: Lane, v: nat) {
    v < |p.values| && w.runs(l, v) && x.runs(k, v) ==>
      var n := p.values[v];
      && (n.immediate.Some? ==> Agree(w, x, l, k, v))
      && (OfOneLane(n) && SameOperands(w, x, l, k, n) ==> Agree(w, x, l, k, v))
      && (n.opcode.INotEqual32? ==> forall c: nat :: c > 0 ==> w.word(l, v, c) == x.word(k, v, c))
  }

  ghost predicate LaneTwins(p: Program, w: Wave, x: Wave, l: Lane, k: Lane) {
    (forall b: nat :: w.cameFrom(l, b) == x.cameFrom(k, b)) && forall v: nat :: SameFunction(p, w, x, l, k, v)
  }

  ghost predicate Real(w: Wave, q: Lane, i: nat) { i < 4 && !w.helper(LaneAt(q, i)) }

  /** Lane `k` takes part in the operation that lane `l` computes. */
  ghost predicate Meets(w: Wave, v: nat, l: Lane, k: Lane) { w.runs(k, v) && w.together(v, l, k) }

  ghost predicate Meet(w: Wave, x: Wave, q: Lane, r: Lane, i: nat, j: nat) {
    forall v: nat :: w.runs(LaneAt(q, i), v) && x.runs(LaneAt(r, i), v) ==>
      (Meets(w, v, LaneAt(q, i), LaneAt(q, j)) <==> Meets(x, v, LaneAt(r, i), LaneAt(r, j)))
  }

  ghost predicate Twins(p: Program, w: Wave, x: Wave, q: Lane, r: Lane) {
    && Quad(p, q) && Quad(p, r) && (q < 32 <==> r < 32)
    && (forall i: nat :: i < 4 ==> (w.helper(LaneAt(q, i)) <==> x.helper(LaneAt(r, i))))
    && (forall i: nat :: Real(w, q, i) ==> LaneTwins(p, w, x, LaneAt(q, i), LaneAt(r, i)))
    && (forall i: nat, j: nat :: Real(w, q, i) && Real(w, q, j) ==> Meet(w, x, q, r, i, j))
  }

  ghost predicate Executions(p: Program, w: Wave, x: Wave, q: Lane, r: Lane) {
    Consistent(p, w) && Consistent(p, x) && Twins(p, w, x, q, r)
  }

  // ----- Stability

  /** A lane that is no helper and its twin both compute the value. */
  ghost predicate Ran(p: Program, w: Wave, x: Wave, q: Lane, r: Lane, i: nat, v: nat) {
    Executions(p, w, x, q, r) && Real(w, q, i) && w.runs(LaneAt(q, i), v) && x.runs(LaneAt(r, i), v)
  }

  /** Every lane that is no helper has the same words as its twin. */
  ghost predicate Kept(p: Program, v: nat) {
    forall w: Wave, x: Wave, q: Lane, r: Lane, i: nat ::
      Ran(p, w, x, q, r, i, v) ==> Agree(w, x, LaneAt(q, i), LaneAt(r, i), v)
  }

  /** What lane `i` of the quads sees of lane `j` in a mask. */
  ghost predicate SameBit(p: Program, w: Wave, x: Wave, q: Lane, r: Lane, i: nat, j: nat, m: Mask) {
    Seen(p, w, LaneAt(q, i), m)(LaneAt(q, j)) == Seen(p, x, LaneAt(r, i), m)(LaneAt(r, j))
  }

  /** Lanes that are no helpers, the first of which reads the mask in both executions. */
  ghost predicate Reads(p: Program, w: Wave, x: Wave, q: Lane, r: Lane, i: nat, j: nat, m: Mask) {
    && Executions(p, w, x, q, r) && Real(w, q, i) && Real(w, q, j)
    && Observes(p, w, LaneAt(q, i), m) && Observes(p, x, LaneAt(r, i), m)
  }

  /** Lanes that are no helpers see the same bits of each other, so each sees its own. */
  ghost predicate MaskKept(p: Program, m: Mask) {
    forall w: Wave, x: Wave, q: Lane, r: Lane, i: nat, j: nat ::
      Reads(p, w, x, q, r, i, j, m) ==> SameBit(p, w, x, q, r, i, j, m)
  }

  lemma Lanes(p: Program, q: Lane, i: nat)
    requires Quad(p, q) && i < 4
    ensures LaneAt(q, i) < p.waveSize && (LaneAt(q, i) < 32 <==> q < 32) && LaneAt(q, i) < 64
  {
  }

  // ----- Values

  lemma ImmediateKept(p: Program, v: nat)
    requires v < |p.values| && p.values[v].immediate.Some?
    ensures Kept(p, v)
  {
    forall w: Wave, x: Wave, q: Lane, r: Lane, i: nat | Ran(p, w, x, q, r, i, v)
      ensures Agree(w, x, LaneAt(q, i), LaneAt(r, i), v)
    {
      assert LaneTwins(p, w, x, LaneAt(q, i), LaneAt(r, i));
      assert SameFunction(p, w, x, LaneAt(q, i), LaneAt(r, i), v);
    }
  }

  lemma OwnIsSeen(p: Program, w: Wave, l: Lane, v: nat)
    requires WellFormed(p) && Consistent(p, w) && WaveSizeOk(p) && v < |p.values| && Own(p, v).Some? && w.runs(l, v)
    ensures Observes(p, w, l, Own(p, v).value) && w.word(l, v, 0) == Truth(Seen(p, w, l, Own(p, v).value)(l))
  {
    OwnReadsBit(p, w, l, v);
    assert l < 64;
  }

  /** A comparison has no word but its first. */
  lemma ComparisonSame(p: Program, w: Wave, x: Wave, l: Lane, k: Lane, v: nat)
    requires v < |p.values| && p.values[v].opcode.INotEqual32? && w.runs(l, v) && x.runs(k, v)
             && SameFunction(p, w, x, l, k, v)
    requires w.word(l, v, 0) == x.word(k, v, 0)
    ensures Agree(w, x, l, k, v)
  {
    forall c: nat ensures w.word(l, v, c) == x.word(k, v, c) {
      assert c == 0 || c > 0;
    }
  }

  lemma OwnSame(p: Program, w: Wave, x: Wave, q: Lane, r: Lane, i: nat, v: nat)
    requires WellFormed(p) && WaveSizeOk(p) && v < |p.values| && Own(p, v).Some? && MaskKept(p, Own(p, v).value)
    requires Ran(p, w, x, q, r, i, v)
    ensures w.word(LaneAt(q, i), v, 0) == x.word(LaneAt(r, i), v, 0)
  {
    assert LaneTwins(p, w, x, LaneAt(q, i), LaneAt(r, i));
    OwnIsSeen(p, w, LaneAt(q, i), v);
    OwnIsSeen(p, x, LaneAt(r, i), v);
    assert SameBit(p, w, x, q, r, i, i, Own(p, v).value);
  }

  /** A bit of its own that a lane reads from a stable mask. */
  lemma OwnKept(p: Program, v: nat)
    requires WellFormed(p) && WaveSizeOk(p) && v < |p.values| && Own(p, v).Some? && MaskKept(p, Own(p, v).value)
    ensures Kept(p, v)
  {
    forall w: Wave, x: Wave, q: Lane, r: Lane, i: nat | Ran(p, w, x, q, r, i, v)
      ensures Agree(w, x, LaneAt(q, i), LaneAt(r, i), v)
    {
      OwnSame(p, w, x, q, r, i, v);
      assert LaneTwins(p, w, x, LaneAt(q, i), LaneAt(r, i));
      assert SameFunction(p, w, x, LaneAt(q, i), LaneAt(r, i), v);
      ComparisonSame(p, w, x, LaneAt(q, i), LaneAt(r, i), v);
    }
  }

  ghost predicate ArgumentsKept(p: Program, v: nat)
    requires v < |p.values|
  {
    forall i :: 0 <= i < |p.values[v].arguments| ==> ArgumentKept(p, v, i)
  }

  ghost predicate ArgumentKept(p: Program, v: nat, i: nat)
    requires v < |p.values| && i < |p.values[v].arguments|
  {
    Kept(p, p.values[v].arguments[i])
  }

  /** A value of operands that are stable, and no operation across lanes. */
  lemma ArgumentsKeep(p: Program, v: nat)
    requires WellFormed(p) && v < |p.values| && p.values[v].immediate.None?
    requires !p.values[v].opcode.Ballot? && !p.values[v].opcode.LaneId? && !p.values[v].opcode.WqmU64?
    requires ArgumentsKept(p, v)
    ensures Kept(p, v)
  {
    forall w: Wave, x: Wave, q: Lane, r: Lane, i: nat | Ran(p, w, x, q, r, i, v)
      ensures Agree(w, x, LaneAt(q, i), LaneAt(r, i), v)
    {
      if p.values[v].opcode.Phi? { PhiSame(p, w, x, q, r, i, v); } else { FunctionSame(p, w, x, q, r, i, v); }
    }
  }

  lemma PhiSame(p: Program, w: Wave, x: Wave, q: Lane, r: Lane, i: nat, v: nat)
    requires WellFormed(p) && v < |p.values| && p.values[v].immediate.None? && p.values[v].opcode.Phi?
    requires ArgumentsKept(p, v) && Ran(p, w, x, q, r, i, v)
    ensures Agree(w, x, LaneAt(q, i), LaneAt(r, i), v)
  {
    var n, l, k := p.values[v], LaneAt(q, i), LaneAt(r, i);
    assert LaneTwins(p, w, x, l, k);
    assert Computes(p, w, l, v) && Computes(p, x, k, v);
    var j :| 0 <= j < |n.phiBlocks| && j < |n.arguments| && n.phiBlocks[j] == w.cameFrom(l, n.parent);
    assert ArgumentKept(p, v, j) && Agree(w, x, l, k, n.arguments[j]);
  }

  lemma FunctionSame(p: Program, w: Wave, x: Wave, q: Lane, r: Lane, i: nat, v: nat)
    requires WellFormed(p) && v < |p.values| && p.values[v].immediate.None? && OfOneLane(p.values[v])
    requires ArgumentsKept(p, v) && Ran(p, w, x, q, r, i, v)
    ensures Agree(w, x, LaneAt(q, i), LaneAt(r, i), v)
  {
    var n, l, k := p.values[v], LaneAt(q, i), LaneAt(r, i);
    assert LaneTwins(p, w, x, l, k) && SameFunction(p, w, x, l, k, v);
    assert Computes(p, w, l, v) && Computes(p, x, k, v);
    forall j | 0 <= j < |n.arguments| ensures Agree(w, x, l, k, n.arguments[j]) { assert ArgumentKept(p, v, j); }
  }

  // ----- Masks

  lemma ConstantSeen(p: Program, w: Wave, l: Lane, m: Mask, expected: bv32, k: Lane)
    requires WaveSizeOk(p) && Consistent(p, w) && Observes(p, w, l, m) && BothWords(p, m, expected) && k < p.waveSize
    requires expected == 0 || expected == 0xffffffff
    ensures Seen(p, w, l, m)(k) <==> expected != 0
  {
    WordComputed(p, w, l, m.low, expected);
    if p.waveSize != 32 { WordComputed(p, w, l, m.high, expected); }
    ConstantBits(if k < 32 then k else k - 32);
  }

  /** No bits, or all. */
  lemma ConstantKept(p: Program, m: Mask, expected: bv32)
    requires WaveSizeOk(p) && BothWords(p, m, expected) && (expected == 0 || expected == 0xffffffff)
    ensures MaskKept(p, m)
  {
    forall w: Wave, x: Wave, q: Lane, r: Lane, i: nat, j: nat | Reads(p, w, x, q, r, i, j, m)
      ensures SameBit(p, w, x, q, r, i, j, m) {
      Lanes(p, q, j);
      Lanes(p, r, j);
      ConstantSeen(p, w, LaneAt(q, i), m, expected, LaneAt(q, j));
      ConstantSeen(p, x, LaneAt(r, i), m, expected, LaneAt(r, j));
    }
  }

  /** The ballot for a lane: that of its half of the wave. */
  function BallotFor(p: Program, m: Mask, low: bool): Option<nat> {
    if low then BallotWord(p, m.low, 0) else BallotWord(p, m.high, 1)
  }

  lemma BallotSeen(p: Program, w: Wave, l: Lane, m: Mask, k: Lane)
    requires WellFormed(p) && WaveSizeOk(p) && Consistent(p, w) && Observes(p, w, l, m) && k < p.waveSize
    requires BallotFor(p, m, k < 32).Some?
    ensures w.runs(l, BallotFor(p, m, k < 32).value)
    ensures Seen(p, w, l, m)(k) <==> BallotVote(p, w, l, BallotFor(p, m, k < 32).value, k)
  {
    var ballot := BallotFor(p, m, k < 32).value;
    if k < 32 {
      ExtractComputed(p, w, l, m.low, 0);
      BallotBit(p, w, l, ballot, 0, k);
    } else {
      ExtractComputed(p, w, l, m.high, 1);
      BallotBit(p, w, l, ballot, 1, k - 32);
      assert k - 32 + 32 == k;
    }
  }

  lemma VoterComputed(p: Program, w: Wave, l: Lane, ballot: nat)
    requires WellFormed(p) && Consistent(p, w) && w.runs(l, ballot) && HasOpcode(p, Some(ballot), Ballot, 1)
    ensures w.runs(l, Predicate(p, ballot))
  {
    OperatorComputed(p, w, l, ballot);
  }

  lemma VoteSame(p: Program, w: Wave, x: Wave, q: Lane, r: Lane, i: nat, j: nat, ballot: nat)
    requires WellFormed(p) && Executions(p, w, x, q, r) && Real(w, q, i) && Real(w, q, j)
    requires w.runs(LaneAt(q, i), ballot) && x.runs(LaneAt(r, i), ballot)
    requires HasOpcode(p, Some(ballot), Ballot, 1) && Kept(p, Predicate(p, ballot))
    ensures BallotVote(p, w, LaneAt(q, i), ballot, LaneAt(q, j)) == BallotVote(p, x, LaneAt(r, i), ballot, LaneAt(r, j))
  {
    var k, l, v := LaneAt(q, j), LaneAt(r, j), Predicate(p, ballot);
    Lanes(p, q, j);
    Lanes(p, r, j);
    assert Meet(w, x, q, r, i, j) && LaneTwins(p, w, x, k, l);
    assert Meets(w, ballot, LaneAt(q, i), k) <==> Meets(x, ballot, LaneAt(r, i), l);
    if Meets(w, ballot, LaneAt(q, i), k) {
      VoterComputed(p, w, k, ballot);
      VoterComputed(p, x, l, ballot);
      assert Ran(p, w, x, q, r, j, v) && Agree(w, x, k, l, v);
    }
  }

  /** A ballot over a stable predicate. */
  lemma BallotKept(p: Program, m: Mask)
    requires WellFormed(p) && WaveSizeOk(p) && BallotWord(p, m.low, 0).Some?
             && Kept(p, Predicate(p, BallotWord(p, m.low, 0).value))
    requires p.waveSize != 32 ==> BallotWord(p, m.high, 1).Some?
                                  && Kept(p, Predicate(p, BallotWord(p, m.high, 1).value))
    ensures MaskKept(p, m)
  {
    forall w: Wave, x: Wave, q: Lane, r: Lane, i: nat, j: nat | Reads(p, w, x, q, r, i, j, m)
      ensures SameBit(p, w, x, q, r, i, j, m) {
      Lanes(p, q, j);
      Lanes(p, r, j);
      BallotSeen(p, w, LaneAt(q, i), m, LaneAt(q, j));
      BallotSeen(p, x, LaneAt(r, i), m, LaneAt(r, j));
      VoteSame(p, w, x, q, r, i, j, BallotFor(p, m, q < 32).value);
    }
  }

  /** The intersection of stable masks. */
  lemma AndKept(p: Program, m: Mask, first: Mask, second: Mask)
    requires WellFormed(p) && IsAnd(p, m, first, second) && MaskKept(p, first) && MaskKept(p, second)
    ensures MaskKept(p, m)
  {
    forall w: Wave, x: Wave, q: Lane, r: Lane, i: nat, j: nat | Reads(p, w, x, q, r, i, j, m)
      ensures SameBit(p, w, x, q, r, i, j, m) {
      AndComputed(p, w, LaneAt(q, i), m, first, second);
      AndComputed(p, x, LaneAt(r, i), m, first, second);
      assert Reads(p, w, x, q, r, i, j, first) && Reads(p, w, x, q, r, i, j, second);
      AndSeen(p, w, LaneAt(q, i), m, first, second, LaneAt(q, j));
      AndSeen(p, x, LaneAt(r, i), m, first, second, LaneAt(r, j));
      assert SameBit(p, w, x, q, r, i, j, first) && SameBit(p, w, x, q, r, i, j, second);
    }
  }

  /** A phi of stable masks. */
  lemma PhiKept(p: Program, m: Mask, highs: seq<nat>)
    requires WellFormed(p) && IsPhiMask(p, m) && |highs| == |p.values[m.low].arguments|
    requires forall i :: 0 <= i < |highs| ==> Paired(p, m, i, highs[i])
                                              && MaskKept(p, Mask(p.values[m.low].arguments[i], highs[i]))
    ensures MaskKept(p, m)
  {
    forall w: Wave, x: Wave, q: Lane, r: Lane, i: nat, j: nat | Reads(p, w, x, q, r, i, j, m)
      ensures SameBit(p, w, x, q, r, i, j, m) {
      var k := PhiMaskCame(p, w, LaneAt(q, i), m, highs);
      assert LaneTwins(p, w, x, LaneAt(q, i), LaneAt(r, i));
      PhiMaskIs(p, x, LaneAt(r, i), m, highs, k);
      assert SameBit(p, w, x, q, r, i, j, Mask(p.values[m.low].arguments[k], highs[k]));
    }
  }

  /** The operand for the block a lane came from. */
  lemma PhiMaskCame(p: Program, w: Wave, l: Lane, m: Mask, highs: seq<nat>) returns (k: nat)
    requires WellFormed(p) && Consistent(p, w) && IsPhiMask(p, m) && Observes(p, w, l, m)
    requires |highs| == |p.values[m.low].arguments| && forall j :: 0 <= j < |highs| ==> Paired(p, m, j, highs[j])
    ensures k < |highs| && p.values[m.low].phiBlocks[k] == w.cameFrom(l, p.values[m.low].parent)
    ensures var came := Mask(p.values[m.low].arguments[k], highs[k]);
            Observes(p, w, l, came) && Seen(p, w, l, m) == Seen(p, w, l, came)
  {
    var n := p.values[m.low];
    assert Computes(p, w, l, m.low) && ArityOk(n);
    k :| 0 <= k < |n.phiBlocks| && k < |n.arguments| && n.phiBlocks[k] == w.cameFrom(l, n.parent);
    PhiMaskIs(p, w, l, m, highs, k);
  }

  lemma PhiMaskIs(p: Program, w: Wave, l: Lane, m: Mask, highs: seq<nat>, k: nat)
    requires WellFormed(p) && Consistent(p, w) && IsPhiMask(p, m) && Observes(p, w, l, m)
    requires |highs| == |p.values[m.low].arguments| && forall j :: 0 <= j < |highs| ==> Paired(p, m, j, highs[j])
    requires k < |highs| && p.values[m.low].phiBlocks[k] == w.cameFrom(l, p.values[m.low].parent)
    ensures var came := Mask(p.values[m.low].arguments[k], highs[k]);
            Observes(p, w, l, came) && Seen(p, w, l, m) == Seen(p, w, l, came)
  {
    var n := p.values[m.low];
    assert Computes(p, w, l, m.low) && ArityOk(n);
    assert Paired(p, m, k, highs[k]);
    if p.waveSize != 32 {
      assert Computes(p, w, l, m.high) && ArityOk(p.values[m.high]);
      var j :| ComesFrom(p, m.high, j, n.phiBlocks[k], highs[k]);
    }
  }

  // ----- Whole quads

  ghost predicate AnyOfFour(bits: nat -> bool) { exists j: nat :: j < 4 && bits(j) }

  /** The bits of the four lanes of a quad. */
  ghost function OfQuad(bits: Bits, q: Lane): nat -> bool { (j: nat) => bits(LaneAt(q, j)) }

  lemma QuadAnyBits(x: bv32, q: bv32, k: bv32)
    requires q & 3 == 0 && q < 32 && (k == q || k == q + 1 || k == q + 2 || k == q + 3)
    ensures q + 3 < 32 && k < 32
    ensures QuadAny(x, k) <==> Bit(x, q) || Bit(x, q + 1) || Bit(x, q + 2) || Bit(x, q + 3)
  {
    assert k & 28 == q;
  }

  /** Some of four has a bit exactly if some real one has, when the others have none or all have the same. */
  lemma SomeReal(bits: nat -> bool, helper: nat -> bool, i: nat)
    requires i < 4 && !helper(i) && FourSafe(bits, helper, i)
    ensures AnyOfFour(bits) <==> exists j: nat :: j < 4 && !helper(j) && bits(j)
  {
    if AnyOfFour(bits) {
      var j: nat :| j < 4 && bits(j);
      assert helper(j) ==> bits(i);
    }
  }

  ghost predicate FourSafe(bits: nat -> bool, helper: nat -> bool, i: nat) {
    (forall j: nat :: j < 4 && helper(j) ==> !bits(j)) || forall j: nat :: j < 4 ==> bits(j) == bits(i)
  }

  /** Bits of two quads with the same helpers that agree on the lanes that are none. */
  lemma SameAny(f: nat -> bool, g: nat -> bool, helper: nat -> bool, also: nat -> bool, i: nat)
    requires i < 4 && !helper(i) && FourSafe(f, helper, i) && FourSafe(g, also, i)
    requires forall j: nat :: j < 4 ==> (helper(j) <==> also(j)) && (!helper(j) ==> f(j) == g(j))
    ensures AnyOfFour(f) == AnyOfFour(g)
  {
    SomeReal(f, helper, i);
    SomeReal(g, also, i);
  }

  lemma QuadOfFour(q: Lane)
    requires q & 3 == 0 && q < 64
    ensures QuadOf(q) == q && QuadOf(q + 1) == q && QuadOf(q + 2) == q && QuadOf(q + 3) == q
  {
  }

  lemma QuadOfLane(q: Lane, j: nat)
    requires q & 3 == 0 && q < 64 && j < 4
    ensures QuadOf(LaneAt(q, j)) == q
  {
    QuadOfFour(q);
    if j == 0 {
    } else if j == 1 {
    } else if j == 2 {
    } else {
    }
  }

  lemma ConstantOnQuad(p: Program, bits: Bits, q: Lane, j: nat)
    requires Quad(p, q) && j < 4 && QuadConstant(p, bits)
    ensures bits(LaneAt(q, j)) == bits(q)
  {
    Lanes(p, q, j);
    QuadOfLane(q, j);
  }

  lemma SafeOnQuad(p: Program, w: Wave, bits: Bits, q: Lane, i: nat)
    requires Quad(p, q) && i < 4 && QuadSafe(p, w, bits)
    ensures FourSafe(OfQuad(bits, q), OfQuad(w.helper, q), i)
  {
    if NoHelperBit(p, w, bits) {
      forall j: nat | j < 4 && w.helper(LaneAt(q, j)) ensures !bits(LaneAt(q, j)) { Lanes(p, q, j); }
    } else {
      forall j: nat | j < 4 ensures bits(LaneAt(q, j)) == bits(LaneAt(q, i)) {
        ConstantOnQuad(p, bits, q, j);
        ConstantOnQuad(p, bits, q, i);
      }
    }
  }

  lemma ConstructComputed(p: Program, w: Wave, l: Lane, v: nat)
    requires WellFormed(p) && Consistent(p, w) && w.runs(l, v) && HasOpcode(p, Some(v), CompositeConstructU64, 2)
    ensures var a := p.values[v].arguments;
            w.runs(l, a[0]) && w.runs(l, a[1]) && w.word(l, v, 0) == w.word(l, a[0], 0)
              && w.word(l, v, 1) == w.word(l, a[1], 0)
  {
    OperatorComputed(p, w, l, v);
  }

  lemma WqmComputed(p: Program, w: Wave, l: Lane, wqm: nat, h: nat, k: bv32)
    requires WellFormed(p) && Consistent(p, w) && w.runs(l, wqm) && h < 2 && k < 32
             && HasOpcode(p, Some(wqm), WqmU64, 1)
    ensures w.runs(l, p.values[wqm].arguments[0])
    ensures Bit(w.word(l, wqm, h), k) <==> QuadAny(w.word(l, p.values[wqm].arguments[0], h), k)
  {
    OperatorComputed(p, w, l, wqm);
  }

  /** What half `h` of a whole-quad mask holds of a lane. */
  lemma WqmHalf(p: Program, w: Wave, l: Lane, word: nat, wqm: nat, h: nat, k: bv32)
    requires WellFormed(p) && Consistent(p, w) && w.runs(l, word) && h < 2 && k < 32
    requires WqmWord(p, word, wqm, if h == 0 then 0 else 1) && HasOpcode(p, Some(wqm), WqmU64, 1)
    requires HasOpcode(p, Some(p.values[wqm].arguments[0]), CompositeConstructU64, 2)
    ensures var source := p.values[p.values[wqm].arguments[0]].arguments;
            && w.runs(l, source[0]) && w.runs(l, source[1])
            && (Bit(w.word(l, word, 0), k) <==> QuadAny(w.word(l, source[h], 0), k))
  {
    ExtractComputed(p, w, l, word, if h == 0 then 0 else 1);
    WqmComputed(p, w, l, wqm, h, k);
    ConstructComputed(p, w, l, p.values[wqm].arguments[0]);
  }

  /** A whole-quad mask has a lane's bit if the mask it is made of has that of some lane of the quad. */
  lemma WqmSeen(p: Program, w: Wave, l: Lane, m: Mask, source: Mask, q: Lane, j: nat)
    requires WellFormed(p) && Consistent(p, w) && IsWqmMask(p, m) && WqmSource(p, m) == Some(source)
    requires Observes(p, w, l, m) && Quad(p, q) && j < 4
    ensures Observes(p, w, l, source)
    ensures Seen(p, w, l, m)(LaneAt(q, j)) <==> AnyOfFour(OfQuad(Seen(p, w, l, source), q))
  {
    var wqm := p.values[m.low].arguments[0];
    Lanes(p, q, j);
    WqmHalf(p, w, l, m.low, wqm, 0, 0);
    AnyOfHalf(w.word(l, source.low, 0), High(p, w, l, source), q, LaneAt(q, j));
    if q < 32 {
      WqmHalf(p, w, l, m.low, wqm, 0, LaneAt(q, j));
    } else {
      WqmHalf(p, w, l, m.high, wqm, 1, LaneAt(q, j) - 32);
    }
  }

  lemma AnyOfBits(bits: Bits, q: Lane)
    ensures AnyOfFour(OfQuad(bits, q)) <==> bits(q) || bits(q + 1) || bits(q + 2) || bits(q + 3)
  {
    var four := OfQuad(bits, q);
    assert LaneAt(q, 0) == q && LaneAt(q, 1) == q + 1 && LaneAt(q, 2) == q + 2 && LaneAt(q, 3) == q + 3;
    assert forall j: nat :: four(j) == bits(LaneAt(q, j));
    assert four(0) == bits(q) && four(1) == bits(q + 1) && four(2) == bits(q + 2) && four(3) == bits(q + 3);
  }

  lemma BitsOfHalf(low: bv32, high: bv32, q: Lane, k: Lane)
    requires q & 3 == 0 && q < 64 && (k == q || k == q + 1 || k == q + 2 || k == q + 3)
    ensures k < 64
    ensures q < 32 ==> k < 32 && BitsOf(low, high)(k) == Bit(low, k)
    ensures q >= 32 ==> 32 <= k && BitsOf(low, high)(k) == Bit(high, k - 32)
  {
  }

  lemma AnyOfHalf(low: bv32, high: bv32, q: Lane, k: Lane)
    requires q & 3 == 0 && q < 64 && (k == q || k == q + 1 || k == q + 2 || k == q + 3)
    ensures k < 64
    ensures q < 32 ==> k < 32 && (AnyOfFour(OfQuad(BitsOf(low, high), q)) <==> QuadAny(low, k))
    ensures q >= 32 ==> 32 <= k && (AnyOfFour(OfQuad(BitsOf(low, high), q)) <==> QuadAny(high, k - 32))
  {
    AnyOfBits(BitsOf(low, high), q);
    BitsOfHalf(low, high, q, q);
    BitsOfHalf(low, high, q, q + 1);
    BitsOfHalf(low, high, q, q + 2);
    BitsOfHalf(low, high, q, q + 3);
    BitsOfHalf(low, high, q, k);
    if q < 32 { QuadAnyBits(low, q, k); } else { QuadAnyBits(high, q - 32, k - 32); }
  }

  lemma QuadSame(p: Program, w: Wave, x: Wave, q: Lane, r: Lane, i: nat, source: Mask)
    requires WellFormed(p) && MaskKept(p, source) && MeansQuadStable(p, source)
    requires Executions(p, w, x, q, r) && Real(w, q, i) && Observes(p, w, LaneAt(q, i), source)
             && Observes(p, x, LaneAt(r, i), source)
    ensures AnyOfFour(OfQuad(Seen(p, w, LaneAt(q, i), source), q)) ==
            AnyOfFour(OfQuad(Seen(p, x, LaneAt(r, i), source), r))
  {
    var f, g := Seen(p, w, LaneAt(q, i), source), Seen(p, x, LaneAt(r, i), source);
    SafeOnQuad(p, w, f, q, i);
    SafeOnQuad(p, x, g, r, i);
    forall j: nat | j < 4 && Real(w, q, j) ensures f(LaneAt(q, j)) == g(LaneAt(r, j)) {
      assert SameBit(p, w, x, q, r, i, j, source);
    }
    SameAny(OfQuad(f, q), OfQuad(g, r), OfQuad(w.helper, q), OfQuad(x.helper, r), i);
  }

  /** The whole quads of a stable mask whose helper bits are known. */
  lemma QuadKept(p: Program, m: Mask, source: Mask)
    requires WellFormed(p) && WaveSizeOk(p) && IsWqmMask(p, m) && WqmSource(p, m) == Some(source)
    requires MaskKept(p, source) && MeansQuadStable(p, source)
    ensures MaskKept(p, m)
  {
    forall w: Wave, x: Wave, q: Lane, r: Lane, i: nat, j: nat | Reads(p, w, x, q, r, i, j, m)
      ensures SameBit(p, w, x, q, r, i, j, m)
    {
      WqmSeen(p, w, LaneAt(q, i), m, source, q, j);
      WqmSeen(p, x, LaneAt(r, i), m, source, r, j);
      QuadSame(p, w, x, q, r, i, source);
    }
  }

  // ----- Memo keys

  lemma KeyKept(p: Program, m: Mask)
    ensures MaskKept(p, Key(p, m)) <==> MaskKept(p, m)
  {
    if p.waveSize == 32 {
      forall w: Wave, l: Lane ensures Observes(p, w, l, Key(p, m)) == Observes(p, w, l, m)
          && Seen(p, w, l, Key(p, m)) == Seen(p, w, l, m) {}
      forall w: Wave, x: Wave, q: Lane, r: Lane, i: nat, j: nat
        ensures SameBit(p, w, x, q, r, i, j, Key(p, m)) == SameBit(p, w, x, q, r, i, j, m) {}
    }
  }

  // ----- What is not kept

  function LaneProgram(): Program {
    Program([IrValue(LaneId, U32, None, [], [], 0, ExportInfo(false, false))], [[0]], [], 64)
  }

  ghost function LaneWave(): Wave {
    Wave((l: Lane, v: nat) => l < 64 && v == 0, (l: Lane, v: nat, c: nat) => l, (l: Lane, b: nat) => 0,
         (v: nat, l: Lane, k: Lane) => false, (l: Lane) => false)
  }

  /** The number of the lane differs between twins: quads 0 and 4 of one and the same execution. */
  lemma LaneNumberNotKept()
    ensures WellFormed(LaneProgram()) && !Kept(LaneProgram(), 0)
  {
    var p, w := LaneProgram(), LaneWave();
    assert Consistent(p, w);
    forall i: nat | Real(w, 0, i) ensures LaneTwins(p, w, w, LaneAt(0, i), LaneAt(4, i)) {
      forall v: nat ensures SameFunction(p, w, w, LaneAt(0, i), LaneAt(4, i), v) {}
    }
    forall i: nat, j: nat | Real(w, 0, i) && Real(w, 0, j) ensures Meet(w, w, 0, 4, i, j) {}
    assert Executions(p, w, w, 0, 4) && Ran(p, w, w, 0, 4, 0, 0);
    assert w.word(LaneAt(0, 0), 0, 0) != w.word(LaneAt(4, 0), 0, 0);
    assert !Agree(w, w, LaneAt(0, 0), LaneAt(4, 0), 0);
  }
}
