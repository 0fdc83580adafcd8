/** The search for stencil reference values and executions in which control flow comes back to a block.  The search
narrows a select to its first arm when the guard of the export implies the condition. In a loop the select may have been
computed in an earlier round, when the condition was false. So the answers are right for every program over some control
flow exactly when that has no cycle, or when nothing is narrowed. */
module StencilRuns {
  import opened Wrappers
  import opened ShaderIr
  import opened GuardImplication
  import opened ControlFlowWalk
  import opened KeptInvocations
  import opened StencilReferences
  import opened StencilValues
  import opened ShaderRuns

  // ----- What a right answer is

  /** An instruction stands in the block it belongs to, and in no other. */
  ghost predicate Laid(p: Program) {
    forall v, b :: 0 <= v < |p.values| && 0 <= b < |p.blocks| && p.values[v].immediate.None? ==>
        (v in p.blocks[b] <==> p.values[v].parent == b)
  }

  /** At every step the oracle is right about what a lane has computed. */
  ghost predicate OracleRight(p: Program, r: Run, oracle: Oracle) {
    forall l, t: nat, c: nat, q: nat ::
      oracle(c, q) && Reached(p, r, l, t, c) && Reached(p, r, l, t, q) && r.word(l, t, c, 0) != 0 ==>
          r.word(l, t, q, 0) != 0
  }

  /** At this step the lane exports a reference, its guard being true. */
  ghost predicate Exports(p: Program, r: Run, l: Lane, t: nat, v: nat) {
    Enters(p, r, l, t, v) && ExportsReference(p, v) && r.word(l, t, p.values[v].arguments[1], 0) != 0
  }

  function Reference(p: Program, r: Run, l: Lane, t: nat, v: nat): bv32
    requires ExportsReference(p, v)
  {
    LowByte(r.word(l, t, p.values[v].arguments[0], 1))
  }

  ghost predicate Covered(p: Program, r: Run, references: set<bv32>) {
    forall l, t: nat, v: nat :: Exports(p, r, l, t, v) ==> Reference(p, r, l, t, v) in references
  }

  /** `references` is a non-empty answer for the program. */
  ghost predicate Answer(p: Program, oracle: Oracle, references: set<bv32>) {
    && WellFormed(p) && Laid(p) && AllKnown(p, oracle) && Holding(p, oracle, references)
    && references != {} && |references| <= MAX_VALUES
  }

  /** An execution over these edges in which the oracle is right. */
  ghost predicate Execution(p: Program, edges: Edges, oracle: Oracle, r: Run) {
    |p.blocks| == |edges| && RunOf(p, edges, r) && OracleRight(p, r, oracle)
  }

  lemma ExportPlaced(p: Program, edges: Edges, r: Run, l: Lane, t: nat, v: nat)
    requires WellFormed(p) && Laid(p) && |p.blocks| == |edges| && RunOf(p, edges, r) && Exports(p, r, l, t, v)
    ensures Placed(p, v) && p.values[v].immediate.None?
    ensures forall i :: 0 <= i < |p.values[v].arguments| ==> Reached(p, r, l, t, p.values[v].arguments[i])
  {
    assert ArityOk(p.values[v]) && StepOk(p, r, l, t, v);
    assert WalkOf(edges, r.path(l));
    var b := r.path(l)[t];
    assert v in p.blocks[b];
    var i :| 0 <= i < |p.blocks[b]| && p.blocks[b][i] == v;
  }

  // ----- Without a cycle

  /** Where no cycle can be reached from the entry, an answer has every reference that is exported. */
  lemma AcyclicCovered(p: Program, edges: Edges, oracle: Oracle, references: set<bv32>, r: Run)
    requires Answer(p, oracle, references) && Execution(p, edges, oracle, r) && NoCycleFromEntry(edges)
    ensures Covered(p, r, references)
  {
    RunIsWave(p, edges, r);
    forall l, t: nat, v: nat | Exports(p, r, l, t, v) ensures Reference(p, r, l, t, v) in references {
      var w := Whole(p, r);
      ExportPlaced(p, edges, r, l, t, v);
      ReferencesCover(p, oracle, references, v);
      WholeOracle(p, r, oracle, l);
      assert Reached(p, r, l, t, p.values[v].arguments[0]) && Reached(p, r, l, t, p.values[v].arguments[1]);
      assert w.runs(l, p.values[v].arguments[0]) && Computed(w, l, ActiveGuard(p, v)) && True(w, l, ActiveGuard(p, v));
    }
  }

  lemma WholeOracle(p: Program, r: Run, oracle: Oracle, l: Lane)
    requires OracleRight(p, r, oracle)
    ensures OracleSound(Whole(p, r), l, oracle)
  {
    var w := Whole(p, r);
    forall c: nat, q: nat | oracle(c, q) && w.runs(l, c) && w.runs(l, q) && Holds(w, l, c) ensures Holds(w, l, q) {
      WholeIs(p, r, l, c);
      WholeIs(p, r, l, q);
    }
  }

  /** What the other test of the emulation accepts has no cycle, so both tests together are enough. */
  lemma AcceptedCovered(p: Program, edges: Edges, oracle: Oracle, references: set<bv32>, r: Run)
    requires Answer(p, oracle, references) && Execution(p, edges, oracle, r) && Accepted(p, edges, oracle)
    ensures Covered(p, r, references)
  {
    AcyclicCovered(p, edges, oracle, references, r);
  }

  // ----- Without narrowing

  /** What the search finds without a guard covers every step of every execution. */
  lemma {:induction false} BytesCoverRun(p: Program, edges: Edges, oracle: Oracle, r: Run, v: nat, depth: nat,
                                         component: Option<nat>, visiting: set<nat>, l: Lane, t: nat)
    requires WellFormed(p) && RunOf(p, edges, r) && Reached(p, r, l, t, v)
    requires Bytes(p, oracle, None, v, depth, component, visiting).Some?
    ensures LowByte(r.word(l, t, v, Part(component))) in Bytes(p, oracle, None, v, depth, component, visiting).value
    decreases t, 65 - depth
  {
    var n := p.values[v];
    var inside := visiting + {v};
    assert ArityOk(n) && StepOk(p, r, l, t, v);
    if n.immediate.Some? {
    } else if !Enters(p, r, l, t, v) {
      BytesCoverRun(p, edges, oracle, r, v, depth, component, visiting, l, t - 1);
    } else if n.opcode.Phi? {
      var i :| 0 <= i < |n.phiBlocks| && i < |n.arguments| && n.phiBlocks[i] == Previous(r, l, t);
      assert TakesOperand(p, r, l, t, v, n.arguments[i]);
      BytesOfOne(p, oracle, n.arguments, i, depth, inside);
      BytesCoverRun(p, edges, oracle, r, n.arguments[i], depth + 1, None, inside, l, if t == 0 then 0 else t - 1);
    } else {
      OperandsCoverRun(p, edges, oracle, r, v, depth, component, visiting, l, t);
    }
  }

  lemma {:induction false} BytesOfOne(p: Program, oracle: Oracle, vs: seq<nat>, i: nat, depth: nat, visiting: set<nat>)
    requires WellFormed(p) && depth <= 64 && i < |vs| && (forall k :: 0 <= k < |vs| ==> vs[k] < |p.values|)
    requires BytesOfAll(p, oracle, None, vs, depth, visiting).Some?
    ensures Bytes(p, oracle, None, vs[i], depth + 1, None, visiting).Some?
    ensures Bytes(p, oracle, None, vs[i], depth + 1, None, visiting).value <= BytesOfAll(p, oracle, None, vs, depth,
            visiting).value
    decreases |vs|
  {
    var last := |vs| - 1;
    if i < last { BytesOfOne(p, oracle, vs[..last], i, depth, visiting); }
  }

  /** What a composite, a component and a select have at the step that computes them. */
  lemma ComputedWords(p: Program, edges: Edges, r: Run, l: Lane, t: nat, v: nat)
    requires WellFormed(p) && RunOf(p, edges, r) && Enters(p, r, l, t, v) && p.values[v].immediate.None?
             && !p.values[v].opcode.Phi?
    ensures forall i :: 0 <= i < |p.values[v].arguments| ==> Reached(p, r, l, t, p.values[v].arguments[i])
    ensures ComputesOpcode(p, Moment(p, r, l, t), l, v)
    ensures forall u: nat, c: nat :: Moment(p, r, l, t).word(l, u, c) == r.word(l, t, u, c)
  {
    assert StepOk(p, r, l, t, v);
    forall u: nat, c: nat ensures Moment(p, r, l, t).word(l, u, c) == r.word(l, t, u, c) {
      MomentOwn(p, r, l, t, u, c);
    }
  }

  lemma ConstructWord(p: Program, edges: Edges, r: Run, l: Lane, t: nat, v: nat, c: nat)
    requires WellFormed(p) && RunOf(p, edges, r) && Enters(p, r, l, t, v) && p.values[v].immediate.None?
    requires p.values[v].opcode.CompositeConstructU32x4? && c < |p.values[v].arguments|
    ensures var a := p.values[v].arguments[c]; Reached(p, r, l, t, a) && r.word(l, t, v, c) == r.word(l, t, a, 0)
  {
    ComputedWords(p, edges, r, l, t, v);
  }

  lemma ExtractWord(p: Program, edges: Edges, r: Run, l: Lane, t: nat, v: nat)
    requires WellFormed(p) && RunOf(p, edges, r) && Enters(p, r, l, t, v) && p.values[v].immediate.None?
             && IsExtract(p, p.values[v])
    ensures var a := p.values[v].arguments;
            Reached(p, r, l, t, a[0]) && r.word(l, t, v, 0) == r.word(l, t, a[0], p.values[a[1]].immediate.value as nat)
  {
    ComputedWords(p, edges, r, l, t, v);
  }

  lemma SelectWord(p: Program, edges: Edges, r: Run, l: Lane, t: nat, v: nat)
    requires WellFormed(p) && RunOf(p, edges, r) && Enters(p, r, l, t, v) && p.values[v].immediate.None?
             && IsSelect(p.values[v])
    ensures var a := p.values[v].arguments;
            && Reached(p, r, l, t, a[1]) && Reached(p, r, l, t, a[2])
            && (r.word(l, t, v, 0) == r.word(l, t, a[1], 0) || r.word(l, t, v, 0) == r.word(l, t, a[2], 0))
  {
    ComputedWords(p, edges, r, l, t, v);
  }

  lemma {:induction false} OperandsCoverRun(p: Program, edges: Edges, oracle: Oracle, r: Run, v: nat, depth: nat,
                                            component: Option<nat>, visiting: set<nat>, l: Lane, t: nat)
    requires WellFormed(p) && RunOf(p, edges, r) && Enters(p, r, l, t, v) && p.values[v].immediate.None?
             && !p.values[v].opcode.Phi?
    requires Bytes(p, oracle, None, v, depth, component, visiting).Some?
    ensures LowByte(r.word(l, t, v, Part(component))) in Bytes(p, oracle, None, v, depth, component, visiting).value
    decreases t, 65 - depth, 0
  {
    var n := p.values[v];
    var a, inside := n.arguments, visiting + {v};
    if component.Some? {
      ConstructWord(p, edges, r, l, t, v, component.value);
      BytesCoverRun(p, edges, oracle, r, a[component.value], depth + 1, None, inside, l, t);
    } else if IsExtract(p, n) {
      ExtractWord(p, edges, r, l, t, v);
      BytesCoverRun(p, edges, oracle, r, a[0], depth + 1, Some(p.values[a[1]].immediate.value as nat), inside, l, t);
    } else {
      SelectWord(p, edges, r, l, t, v);
      BytesCoverRun(p, edges, oracle, r, a[1], depth + 1, None, inside, l, t);
      BytesCoverRun(p, edges, oracle, r, a[2], depth + 1, None, inside, l, t);
    }
  }

  /** Whatever the control flow, references that the search finds without narrowing are all that is exported. */
  lemma UnnarrowedCovered(p: Program, edges: Edges, oracle: Oracle, references: set<bv32>, r: Run)
    requires WellFormed(p) && Laid(p) && |p.blocks| == |edges| && RunOf(p, edges, r)
    requires forall v: nat :: Placed(p, v) && ExportsReference(p, v) ==> FoundWithin(p, oracle, v, references)
    ensures Covered(p, r, references)
  {
    forall l, t: nat, v: nat | Exports(p, r, l, t, v) ensures Reference(p, r, l, t, v) in references {
      ExportPlaced(p, edges, r, l, t, v);
      assert FoundWithin(p, oracle, v, references);
      BytesCoverRun(p, edges, oracle, r, p.values[v].arguments[0], 0, Some(1), {}, l, t);
    }
  }

  /** Without a guard the search finds the reference of an export, among these. */
  ghost predicate FoundWithin(p: Program, oracle: Oracle, v: nat, references: set<bv32>)
    requires WellFormed(p)
  {
    ExportsReference(p, v) && p.values[v].arguments[0] < |p.values|
    && var found := Bytes(p, oracle, None, p.values[v].arguments[0], 0, Some(1), {});
       found.Some? && found.value <= references
  }
}
