/** Executions in which control flow may come back to a block, which then computes its values again.  A lane walks
through blocks and keeps the words of a value until the value is computed anew. Where the control flow has no cycle
nothing is computed twice, and such an execution is a `Wave`. */
module ShaderRuns {
  import opened Wrappers
  import opened ShaderIr
  import opened ControlFlowWalk

  /** The blocks each lane enters, in order; `word` gives the words of a value after so many steps, `meets` the step of
      another lane that takes part in the cross-lane operations of a step, and `from` what a phi of the first block is
      entered from. */
  datatype Run = Run(
    path: Lane -> seq<nat>,
    word: (Lane, nat, nat, nat) -> bv32,
    meets: (Lane, nat, Lane) -> Option<nat>,
    from: Lane -> nat,
    helper: Lane -> bool)

  // ----- Moments

  /** The value belongs to the block the lane enters at this step. */
  ghost predicate Enters(p: Program, r: Run, l: Lane, t: nat, v: nat) {
    t < |r.path(l)| && v < |p.values| && p.values[v].parent == r.path(l)[t]
  }

  /** The lane has a word for the value at this step. */
  ghost predicate Reached(p: Program, r: Run, l: Lane, t: nat, v: nat) {
    && t < |r.path(l)| && v < |p.values|
    && (p.values[v].immediate.Some? || exists s: nat :: s <= t && Enters(p, r, l, s, v))
  }

  /** What a lane sees at a step: its own words, and those of the lanes that take part. */
  ghost function Moment(p: Program, r: Run, l: Lane, t: nat): Wave {
    Wave(
      (k: Lane, v: nat) => AtMoment(r, l, t, k).Some? && Reached(p, r, k, AtMoment(r, l, t, k).value, v),
      (k: Lane, v: nat, c: nat) => if AtMoment(r, l, t, k).Some? then r.word(k, AtMoment(r, l, t, k).value, v, c)
          else 0,
      (k: Lane, b: nat) => 0,
      (v: nat, k: Lane, m: Lane) => r.meets(l, t, m).Some?,
      r.helper)
  }

  /** The step at which lane `k` is when lane `l` is at step `t`. */
  function AtMoment(r: Run, l: Lane, t: nat, k: Lane): Option<nat> { if k == l then Some(t) else r.meets(l, t, k) }

  function Previous(r: Run, l: Lane, t: nat): nat
    requires t < |r.path(l)|
  {
    if t == 0 then r.from(l) else r.path(l)[t - 1]
  }

  // ----- What a run must do

  /** Operand `a` of a phi has its words from before the step. */
  ghost predicate TakesOperand(p: Program, r: Run, l: Lane, t: nat, v: nat, a: nat) {
    && a < |p.values| && (if t == 0 then p.values[a].immediate.Some? else Reached(p, r, l, t - 1, a))
    && forall c :: r.word(l, t, v, c) == r.word(l, if t == 0 then 0 else t - 1, a, c)
  }

  /** A phi takes the operand of the block the lane comes from; operands listed for one block agree. */
  ghost predicate TakesPhi(p: Program, r: Run, l: Lane, t: nat, v: nat)
    requires t < |r.path(l)| && v < |p.values|
  {
    var n := p.values[v];
    && (exists i :: 0 <= i < |n.phiBlocks| && i < |n.arguments| && n.phiBlocks[i] == Previous(r, l, t))
    && forall i :: 0 <= i < |n.phiBlocks| && i < |n.arguments| && n.phiBlocks[i] == Previous(r, l, t) ==>
         TakesOperand(p, r, l, t, v, n.arguments[i])
  }

  /** A value of the block is computed from the operands as they are now. */
  ghost predicate ComputesAt(p: Program, r: Run, l: Lane, t: nat, v: nat)
    requires t < |r.path(l)| && v < |p.values|
  {
    var n := p.values[v];
    if n.opcode.Phi? then TakesPhi(p, r, l, t, v)
    else
      && (forall i :: 0 <= i < |n.arguments| ==> Reached(p, r, l, t, n.arguments[i]))
      && ComputesOpcode(p, Moment(p, r, l, t), l, v)
  }

  /** An immediate is what it is; a value of another block keeps its words. */
  ghost predicate Keeps(p: Program, r: Run, l: Lane, t: nat, v: nat)
    requires v < |p.values|
  {
    var n := p.values[v];
    if n.immediate.Some? then
      && r.word(l, t, v, 0) == (if n.ty.Bool? then Truth(n.immediate.value != 0) else n.immediate.value)
      && forall c :: r.word(l, t, v, c) == r.word(l, 0, v, c)
    else t > 0 ==> forall c :: r.word(l, t, v, c) == r.word(l, t - 1, v, c)
  }

  ghost predicate StepOk(p: Program, r: Run, l: Lane, t: nat, v: nat) {
    t < |r.path(l)| && v < |p.values| ==>
      if Enters(p, r, l, t, v) && p.values[v].immediate.None? then ComputesAt(p, r, l, t, v) else Keeps(p, r, l, t, v)
  }

  /** Lanes that take part in a step are in the same block. */
  ghost predicate Meeting(r: Run, l: Lane, t: nat, k: Lane) {
    t < |r.path(l)| && r.meets(l, t, k).Some? ==>
      var u := r.meets(l, t, k).value;
      u < |r.path(k)| && r.path(k)[u] == r.path(l)[t] && (k == l ==> u == t)
  }

  /** The lanes of the wave walk from the entry, and every step is as the IR says. */
  ghost predicate RunOf(p: Program, edges: Edges, r: Run) {
    && (forall l :: r.path(l) != [] ==> l < p.waveSize && r.path(l)[0] == 0 && WalkOf(edges, r.path(l)))
    && (forall l, t: nat, v: nat :: StepOk(p, r, l, t, v))
    && (forall l, t: nat, k :: Meeting(r, l, t, k))
  }

  // ----- Without a cycle nothing is computed twice

  /** The run as a whole. */
  ghost function Whole(p: Program, r: Run): Wave {
    Wave(
      (l: Lane, v: nat) => r.path(l) != [] && Reached(p, r, l, |r.path(l)| - 1, v),
      (l: Lane, v: nat, c: nat) => if r.path(l) == [] then 0 else r.word(l, |r.path(l)| - 1, v, c),
      (l: Lane, b: nat) => CameFrom(r, l, b),
      (v: nat, l: Lane, k: Lane) => Together(p, r, v, l, k),
      r.helper)
  }

  ghost function CameFrom(r: Run, l: Lane, b: nat): nat {
    if b in r.path(l) then
      var t :| 0 <= t < |r.path(l)| && r.path(l)[t] == b;
      Previous(r, l, t)
    else 0
  }

  ghost predicate Together(p: Program, r: Run, v: nat, l: Lane, k: Lane) {
    exists t: nat :: Enters(p, r, l, t, v) && r.meets(l, t, k).Some?
  }

  ghost predicate Once(r: Run) { forall l :: NoRepeat(r.path(l)) }

  lemma AcyclicOnce(p: Program, edges: Edges, r: Run)
    requires RunOf(p, edges, r) && NoCycleFromEntry(edges)
    ensures Once(r)
  {
    forall l ensures NoRepeat(r.path(l)) {
      if r.path(l) != [] { assert WalkOf(edges, r.path(l)); }
    }
  }

  /** A value that has words keeps them. */
  lemma {:induction false} WordsStay(p: Program, edges: Edges, r: Run, l: Lane, t: nat, u: nat, v: nat, c: nat)
    requires RunOf(p, edges, r) && NoRepeat(r.path(l)) && t <= u < |r.path(l)| && Reached(p, r, l, t, v)
    ensures r.word(l, u, v, c) == r.word(l, t, v, c) && Reached(p, r, l, u, v)
    decreases u
  {
    if t < u {
      WordsStay(p, edges, r, l, t, u - 1, v, c);
      assert StepOk(p, r, l, u, v) && StepOk(p, r, l, u - 1, v);
      if p.values[v].immediate.None? {
        var s: nat :| s <= t && Enters(p, r, l, s, v);
        assert !Enters(p, r, l, u, v);
      }
    }
  }

  lemma WholeIs(p: Program, r: Run, l: Lane, v: nat)
    requires r.path(l) != []
    ensures Whole(p, r).runs(l, v) == Reached(p, r, l, |r.path(l)| - 1, v)
    ensures forall c :: Whole(p, r).word(l, v, c) == r.word(l, |r.path(l)| - 1, v, c)
  {
  }

  /** At the end a lane has the words of every step. */
  lemma WholeWords(p: Program, edges: Edges, r: Run, l: Lane, t: nat, v: nat)
    requires RunOf(p, edges, r) && Once(r) && Reached(p, r, l, t, v)
    ensures Whole(p, r).runs(l, v) && forall c :: Whole(p, r).word(l, v, c) == r.word(l, t, v, c)
  {
    WholeIs(p, r, l, v);
    forall c: nat ensures r.word(l, |r.path(l)| - 1, v, c) == r.word(l, t, v, c)
        && Reached(p, r, l, |r.path(l)| - 1, v) {
      WordsStay(p, edges, r, l, t, |r.path(l)| - 1, v, c);
    }
    WordsStay(p, edges, r, l, t, |r.path(l)| - 1, v, 0);
  }

  /** Two executions in which a lane has the same words for a value and its operands. */
  ghost predicate SameAt(p: Program, w: Wave, x: Wave, l: Lane, v: nat)
    requires v < |p.values|
  {
    var a := p.values[v].arguments;
    && w.helper == x.helper && (forall c :: w.word(l, v, c) == x.word(l, v, c))
    && (forall i, c :: 0 <= i < |a| ==> w.word(l, a[i], c) == x.word(l, a[i], c))
    && (p.values[v].opcode.Ballot? && |a| == 1 ==> forall k :: BallotVote(p, w, l, v, k) <==> BallotVote(p, x, l, v, k))
  }

  lemma SameBallot(p: Program, w: Wave, x: Wave, l: Lane, v: nat)
    requires v < |p.values| && p.values[v].opcode.Ballot? && |p.values[v].arguments| == 1
    requires SameAt(p, w, x, l, v) && ComputesBallot(p, w, l, v)
    ensures ComputesBallot(p, x, l, v)
  {
    forall h: nat, k: bv32 | h < 2 && k < 32
      ensures Bit(x.word(l, v, h), k) <==> BallotVote(p, x, l, v, if h == 0 then k else k + 32)
    {
      var m := if h == 0 then k else k + 32;
      assert w.word(l, v, h) == x.word(l, v, h);
      assert BallotVote(p, w, l, v, m) <==> BallotVote(p, x, l, v, m);
    }
  }

  lemma SameQuad(p: Program, w: Wave, x: Wave, l: Lane, v: nat)
    requires v < |p.values| && p.values[v].opcode.WqmU64? && SameAt(p, w, x, l, v) && ComputesOpcode(p, w, l, v)
    ensures ComputesOpcode(p, x, l, v)
  {
    var a := p.values[v].arguments;
    if |a| == 1 {
      forall h: nat, k: bv32 | h < 2 && k < 32 ensures Bit(x.word(l, v, h), k) <==> QuadAny(x.word(l, a[0], h), k) {
        assert w.word(l, v, h) == x.word(l, v, h) && w.word(l, a[0], h) == x.word(l, a[0], h);
      }
    }
  }

  predicate IsLogical(n: IrValue) { n.opcode.LogicalNot? || n.opcode.LogicalAnd? || n.opcode.LogicalOr? }

  predicate IsComparison(n: IrValue) { n.opcode.IEqual32? || n.opcode.INotEqual32? || n.opcode.ULessThan32? }

  /** First words are all that logic and comparisons look at. */
  ghost predicate SameFirst(p: Program, w: Wave, x: Wave, l: Lane, v: nat)
    requires v < |p.values|
  {
    var a := p.values[v].arguments;
    w.word(l, v, 0) == x.word(l, v, 0) && forall i :: 0 <= i < |a| ==> w.word(l, a[i], 0) == x.word(l, a[i], 0)
  }

  lemma SameLogic(p: Program, w: Wave, x: Wave, l: Lane, v: nat)
    requires v < |p.values| && IsLogical(p.values[v]) && SameFirst(p, w, x, l, v) && ComputesOpcode(p, w, l, v)
    ensures ComputesOpcode(p, x, l, v)
  {
  }

  lemma SameEquality(p: Program, w: Wave, x: Wave, l: Lane, v: nat)
    requires v < |p.values| && (p.values[v].opcode.IEqual32? || p.values[v].opcode.INotEqual32?)
    requires SameFirst(p, w, x, l, v) && ComputesOpcode(p, w, l, v)
    ensures ComputesOpcode(p, x, l, v)
  {
  }

  lemma SameOrder(p: Program, w: Wave, x: Wave, l: Lane, v: nat)
    requires v < |p.values| && p.values[v].opcode.ULessThan32? && SameFirst(p, w, x, l, v) && ComputesOpcode(p, w, l, v)
    ensures ComputesOpcode(p, x, l, v)
  {
  }

  lemma SameOther(p: Program, w: Wave, x: Wave, l: Lane, v: nat)
    requires v < |p.values| && !IsLogical(p.values[v]) && !IsComparison(p.values[v]) && !p.values[v].opcode.Ballot?
             && !p.values[v].opcode.WqmU64?
    requires SameAt(p, w, x, l, v) && ComputesOpcode(p, w, l, v)
    ensures ComputesOpcode(p, x, l, v)
  {
    assert w.word(l, v, 0) == x.word(l, v, 0);
    var a := p.values[v].arguments;
    assert forall i :: 0 <= i < |a| ==> w.word(l, a[i], 0) == x.word(l, a[i], 0);
  }

  lemma SameOpcode(p: Program, w: Wave, x: Wave, l: Lane, v: nat)
    requires v < |p.values| && SameAt(p, w, x, l, v) && ComputesOpcode(p, w, l, v)
    ensures ComputesOpcode(p, x, l, v)
  {
    assert SameFirst(p, w, x, l, v);
    if IsLogical(p.values[v]) { SameLogic(p, w, x, l, v); }
    else if p.values[v].opcode.ULessThan32? { SameOrder(p, w, x, l, v); }
    else if IsComparison(p.values[v]) { SameEquality(p, w, x, l, v); }
    else if p.values[v].opcode.Ballot? { if |p.values[v].arguments| == 1 { SameBallot(p, w, x, l, v); } }
    else if p.values[v].opcode.WqmU64? { SameQuad(p, w, x, l, v); }
    else { SameOther(p, w, x, l, v); }
  }

  /** What lane `l` sees of itself at a moment, and of a lane that takes part. */
  lemma MomentOwn(p: Program, r: Run, l: Lane, t: nat, v: nat, c: nat)
    ensures Moment(p, r, l, t).word(l, v, c) == r.word(l, t, v, c)
  {
    assert AtMoment(r, l, t, l) == Some(t);
    assert Moment(p, r, l, t).word(l, v, c) == if AtMoment(r, l, t, l).Some?
        then r.word(l, AtMoment(r, l, t, l).value, v, c) else 0;
  }

  lemma MomentMet(p: Program, r: Run, l: Lane, t: nat, k: Lane, u: nat)
    requires Meeting(r, l, t, k) && t < |r.path(l)| && r.meets(l, t, k) == Some(u)
    ensures forall v: nat :: Moment(p, r, l, t).runs(k, v) == Reached(p, r, k, u, v)
    ensures forall v: nat, c: nat :: Moment(p, r, l, t).word(k, v, c) == r.word(k, u, v, c)
  {
    assert AtMoment(r, l, t, k) == Some(u);
    forall v: nat, c: nat ensures Moment(p, r, l, t).word(k, v, c) == r.word(k, u, v, c) {
      assert Moment(p, r, l, t).word(k, v, c) == if AtMoment(r, l, t, k).Some?
          then r.word(k, AtMoment(r, l, t, k).value, v, c) else 0;
    }
    forall v: nat ensures Moment(p, r, l, t).runs(k, v) == Reached(p, r, k, u, v) {
      assert Moment(p, r, l, t).runs(k, v) == (AtMoment(r, l, t, k).Some?
                                               && Reached(p, r, k, AtMoment(r, l, t, k).value, v));
    }
  }

  /** Lane `k` took part at its step `u` and found the predicate true. */
  ghost predicate VotedAt(p: Program, r: Run, v: nat, k: Lane, u: nat)
    requires v < |p.values| && |p.values[v].arguments| == 1
  {
    k < p.waveSize && Reached(p, r, k, u, v) && r.word(k, u, p.values[v].arguments[0], 0) != 0
  }

  ghost predicate Votes(p: Program, r: Run, l: Lane, t: nat, v: nat, k: Lane)
    requires v < |p.values| && |p.values[v].arguments| == 1
  {
    r.meets(l, t, k).Some? && VotedAt(p, r, v, k, r.meets(l, t, k).value)
  }

  lemma MomentVote(p: Program, r: Run, l: Lane, t: nat, v: nat, k: Lane)
    requires v < |p.values| && |p.values[v].arguments| == 1 && Meeting(r, l, t, k) && t < |r.path(l)|
    ensures BallotVote(p, Moment(p, r, l, t), l, v, k) ==> Votes(p, r, l, t, v, k)
    ensures Votes(p, r, l, t, v, k) ==> BallotVote(p, Moment(p, r, l, t), l, v, k)
  {
    var m := Moment(p, r, l, t);
    assert m.together(v, l, k) == r.meets(l, t, k).Some?;
    if r.meets(l, t, k).Some? { MomentMet(p, r, l, t, k, r.meets(l, t, k).value); }
  }

  /** Once a lane has met another in a step, it has the words of that step at the end. */
  lemma WholeVote(p: Program, edges: Edges, r: Run, l: Lane, t: nat, v: nat, k: Lane)
    requires RunOf(p, edges, r) && Once(r) && Enters(p, r, l, t, v) && |p.values[v].arguments| == 1
    requires r.meets(l, t, k).Some? ==> Reached(p, r, k, r.meets(l, t, k).value, v)
                                        && Reached(p, r, k, r.meets(l, t, k).value, p.values[v].arguments[0])
    ensures BallotVote(p, Whole(p, r), l, v, k) ==> Votes(p, r, l, t, v, k)
    ensures Votes(p, r, l, t, v, k) ==> BallotVote(p, Whole(p, r), l, v, k)
  {
    var w := Whole(p, r);
    assert w.together(v, l, k) == Together(p, r, v, l, k);
    assert NoRepeat(r.path(l));
    assert Together(p, r, v, l, k) == r.meets(l, t, k).Some?;
    if r.meets(l, t, k).Some? {
      WholeWords(p, edges, r, k, r.meets(l, t, k).value, v);
      WholeWords(p, edges, r, k, r.meets(l, t, k).value, p.values[v].arguments[0]);
    }
  }

  lemma SameVotes(p: Program, edges: Edges, r: Run, l: Lane, t: nat, v: nat, k: Lane)
    requires RunOf(p, edges, r) && Once(r) && Enters(p, r, l, t, v)
    requires p.values[v].opcode.Ballot? && p.values[v].immediate.None? && |p.values[v].arguments| == 1
    ensures BallotVote(p, Moment(p, r, l, t), l, v, k) <==> BallotVote(p, Whole(p, r), l, v, k)
  {
    assert Meeting(r, l, t, k);
    MomentVote(p, r, l, t, v, k);
    if r.meets(l, t, k).Some? { Voted(p, edges, r, k, r.meets(l, t, k).value, v); }
    WholeVote(p, edges, r, l, t, v, k);
  }

  lemma Voted(p: Program, edges: Edges, r: Run, k: Lane, u: nat, v: nat)
    requires RunOf(p, edges, r) && Enters(p, r, k, u, v)
    requires p.values[v].opcode.Ballot? && p.values[v].immediate.None? && |p.values[v].arguments| == 1
    ensures Reached(p, r, k, u, v) && Reached(p, r, k, u, p.values[v].arguments[0])
  {
    assert StepOk(p, r, k, u, v);
  }

  /** At the step that computes a value, lane `l` has the words it ends with. */
  lemma SameMoment(p: Program, edges: Edges, r: Run, l: Lane, t: nat, v: nat)
    requires RunOf(p, edges, r) && Once(r) && Enters(p, r, l, t, v) && p.values[v].immediate.None?
    requires forall i :: 0 <= i < |p.values[v].arguments| ==> Reached(p, r, l, t, p.values[v].arguments[i])
    ensures SameAt(p, Moment(p, r, l, t), Whole(p, r), l, v)
  {
    var a := p.values[v].arguments;
    var m, w := Moment(p, r, l, t), Whole(p, r);
    forall u, c ensures m.word(l, u, c) == r.word(l, t, u, c) { MomentOwn(p, r, l, t, u, c); }
    assert Reached(p, r, l, t, v);
    WholeWords(p, edges, r, l, t, v);
    forall i | 0 <= i < |a| ensures forall c :: w.word(l, a[i], c) == r.word(l, t, a[i], c) {
      WholeWords(p, edges, r, l, t, a[i]);
    }
    if p.values[v].opcode.Ballot? && |a| == 1 {
      forall k ensures BallotVote(p, m, l, v, k) <==> BallotVote(p, w, l, v, k) { SameVotes(p, edges, r, l, t, v, k); }
    }
  }

  lemma WholeComputesOpcode(p: Program, edges: Edges, r: Run, l: Lane, t: nat, v: nat)
    requires RunOf(p, edges, r) && Once(r) && Enters(p, r, l, t, v) && p.values[v].immediate.None?
             && !p.values[v].opcode.Phi?
    ensures var a := p.values[v].arguments; forall i :: 0 <= i < |a| ==> Whole(p, r).runs(l, a[i])
    ensures ComputesOpcode(p, Whole(p, r), l, v)
  {
    var a := p.values[v].arguments;
    assert StepOk(p, r, l, t, v);
    forall i | 0 <= i < |a| ensures Whole(p, r).runs(l, a[i]) { WholeWords(p, edges, r, l, t, a[i]); }
    SameMoment(p, edges, r, l, t, v);
    SameOpcode(p, Moment(p, r, l, t), Whole(p, r), l, v);
  }

  lemma WholeTakes(p: Program, edges: Edges, r: Run, l: Lane, t: nat, v: nat, a: nat)
    requires RunOf(p, edges, r) && Once(r) && Reached(p, r, l, t, v) && TakesOperand(p, r, l, t, v, a)
    ensures Whole(p, r).runs(l, a) && forall c :: Whole(p, r).word(l, v, c) == Whole(p, r).word(l, a, c)
  {
    var s := if t == 0 then 0 else t - 1;
    assert Reached(p, r, l, s, a);
    WholeWords(p, edges, r, l, s, a);
    WholeWords(p, edges, r, l, t, v);
  }

  lemma WholeCameFrom(p: Program, r: Run, l: Lane, t: nat, v: nat)
    requires Once(r) && Enters(p, r, l, t, v)
    ensures Whole(p, r).cameFrom(l, p.values[v].parent) == Previous(r, l, t)
  {
    assert NoRepeat(r.path(l));
    assert CameFrom(r, l, p.values[v].parent) == Previous(r, l, t);
  }

  lemma PhiTaken(p: Program, edges: Edges, r: Run, l: Lane, t: nat, v: nat)
    requires RunOf(p, edges, r) && Enters(p, r, l, t, v) && p.values[v].immediate.None? && p.values[v].opcode.Phi?
    ensures TakesPhi(p, r, l, t, v) && Reached(p, r, l, t, v)
  {
    assert StepOk(p, r, l, t, v);
  }

  lemma WholeComputesPhi(p: Program, edges: Edges, r: Run, l: Lane, t: nat, v: nat)
    requires RunOf(p, edges, r) && Once(r) && Enters(p, r, l, t, v) && p.values[v].immediate.None?
             && p.values[v].opcode.Phi?
    ensures ComputesPhi(p, Whole(p, r), l, v)
  {
    var n, w := p.values[v], Whole(p, r);
    PhiTaken(p, edges, r, l, t, v);
    WholeCameFrom(p, r, l, t, v);
    forall i | 0 <= i < |n.phiBlocks| && i < |n.arguments| && n.phiBlocks[i] == Previous(r, l, t)
      ensures w.runs(l, n.arguments[i]) && forall c :: w.word(l, v, c) == w.word(l, n.arguments[i], c)
    {
      WholeTakes(p, edges, r, l, t, v, n.arguments[i]);
    }
  }

  /** Without a cycle an execution is a `Wave`, with the words of every step. */
  lemma RunIsWave(p: Program, edges: Edges, r: Run)
    requires RunOf(p, edges, r) && NoCycleFromEntry(edges)
    ensures Consistent(p, Whole(p, r))
    ensures forall l, t: nat, v: nat :: Reached(p, r, l, t, v) ==>
            Whole(p, r).runs(l, v)
            && forall c :: Whole(p, r).word(l, v, c) == r.word(l, t, v, c)
  {
    AcyclicOnce(p, edges, r);
    forall l, t: nat, v: nat | Reached(p, r, l, t, v)
      ensures Whole(p, r).runs(l, v) && forall c :: Whole(p, r).word(l, v, c) == r.word(l, t, v, c)
    {
      WholeWords(p, edges, r, l, t, v);
    }
    forall l, v: nat ensures Computes(p, Whole(p, r), l, v) {
      if Whole(p, r).runs(l, v) { WholeComputes(p, edges, r, l, v); }
    }
  }

  lemma WholeComputes(p: Program, edges: Edges, r: Run, l: Lane, v: nat)
    requires RunOf(p, edges, r) && Once(r) && Whole(p, r).runs(l, v)
    ensures Computes(p, Whole(p, r), l, v)
  {
    var last: nat := |r.path(l)| - 1;
    if p.values[v].immediate.Some? {
      assert StepOk(p, r, l, last, v);
    } else {
      var t: nat :| t <= last && Enters(p, r, l, t, v);
      if p.values[v].opcode.Phi? {
        WholeComputesPhi(p, edges, r, l, t, v);
      } else {
        WholeComputesOpcode(p, edges, r, l, t, v);
      }
    }
  }
}
