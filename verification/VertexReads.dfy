/** Which instructions of a prepared vertex module have slots: exactly those that read an input, each with the location
of the input it reads. */
module VertexReads {
  import opened Wrappers
  import opened Spirv
  import opened FragmentPlan
  import opened VertexInputs
  import opened VertexPreparation

  // ----- What reads an input

  /** The ids that point into an input, and those loaded from one, with the input's location. */
  datatype Reads = Reads(pointers: map<nat, nat>, loads: map<nat, nat>)

  /** A one-index access chain into an input, or a load from one. */
  predicate IsChain(r: Reads, i: Instr) { i.op == OpAccessChain && Count(i) == 5 && Operand(i, 3) in r.pointers }
  predicate IsRead(r: Reads, i: Instr) { i.op == OpLoad && Count(i) == 4 && Operand(i, 3) in r.pointers }
  predicate IsCast(r: Reads, i: Instr) { i.op == OpBitcast && Count(i) == 4 && Operand(i, 3) in r.loads }

  function After(r: Reads, i: Instr): Reads {
    if IsChain(r, i) then r.(pointers := Emplace(r.pointers, Operand(i, 2), r.pointers[Operand(i, 3)]))
    else if IsRead(r, i) then r.(loads := Emplace(r.loads, Operand(i, 2), r.pointers[Operand(i, 3)]))
    else r
  }

  /** The reads before the instructions that follow. */
  function AfterAll(r: Reads, instrs: seq<Instr>): Reads
    decreases |instrs|
  {
    if instrs == [] then r else AfterAll(After(r, instrs[0]), instrs[1..])
  }

  lemma {:induction false} AfterJoins(r: Reads, a: seq<Instr>, b: seq<Instr>)
    ensures AfterAll(r, a + b) == AfterAll(AfterAll(r, a), b)
    decreases |a|
  {
    if a == [] { assert a + b == b; } else {
      assert (a + b)[0] == a[0] && (a + b)[1..] == a[1..] + b;
      AfterJoins(After(r, a[0]), a[1..], b);
    }
  }

  /** Instructions of other kinds leave the reads as they are. */
  predicate Neutral(i: Instr) { i.op != OpAccessChain && i.op != OpLoad }

  lemma {:induction false} NeutralKeeps(r: Reads, instrs: seq<Instr>)
    requires forall i <- instrs :: Neutral(i)
    ensures AfterAll(r, instrs) == r
    decreases |instrs|
  {
    if instrs != [] {
      assert instrs[0] in instrs;
      forall i <- instrs[1..] ensures Neutral(i) { assert i in instrs; }
      NeutralKeeps(r, instrs[1..]);
    }
  }

  // ----- Slots

  /** The slot of an instruction that stays where it is. */
  function SlotOf(plan: VertexPlan, r: Reads, i: Instr): Option<Slot> {
    if IsChain(r, i) then Some(Slot(r.pointers[Operand(i, 3)], 1, plan.pointers, Chain))
    else if IsRead(r, i) then Some(Slot(r.pointers[Operand(i, 3)], 1, plan.types, Load))
    else if IsCast(r, i) then Some(Slot(r.loads[Operand(i, 3)], 0, CastValues(), Cast))
    else None
  }

  /** An input variable; it moves behind the new declarations. */
  predicate Moves(plan: VertexPlan, i: Instr) { i.op == OpVariable && Count(i) >= 3 && Operand(i, 2) in plan.choices }

  function KeptAll(plan: VertexPlan, r: Reads, instrs: seq<Instr>): seq<Prepared>
    decreases |instrs|
  {
    if instrs == [] then []
    else (if Moves(plan, instrs[0]) then [] else [Prepared(instrs[0], SlotOf(plan, r, instrs[0]))])
                                                 + KeptAll(plan, After(r, instrs[0]), instrs[1..])
  }

  function ReadsOf(pass: Pass): Reads { Reads(pass.pointers, pass.loads) }

  lemma KeepIs(plan: VertexPlan, pass: Pass, i: Instr)
    ensures var next := Keep(plan, pass, i);
            && next.out == pass.out + (if Moves(plan, i) then [] else [Prepared(i, SlotOf(plan, ReadsOf(pass), i))])
            && ReadsOf(next) == After(ReadsOf(pass), i) && next.inserted == pass.inserted
  {
  }

  lemma {:induction false} InsertedRewrites(plan: VertexPlan, pass: Pass, instrs: seq<Instr>)
    requires pass.inserted
    ensures var r := Rewrite(plan, pass, instrs); r.inserted && r.out == pass.out + KeptAll(plan, ReadsOf(pass), instrs)
    decreases |instrs|
  {
    if instrs != [] {
      KeepIs(plan, pass, instrs[0]);
      InsertedRewrites(plan, Step(plan, pass, instrs[0]), instrs[1..]);
    }
  }

  /** The module in order: what stands before the first function, the declarations, the input variables, and the
      rest. */
  function Assembled(plan: VertexPlan, r: Reads, instrs: seq<Instr>): seq<Prepared> {
    var f := FirstFunction(instrs);
    var middle := AfterAll(r, instrs[..f]);
    KeptAll(plan, r, instrs[..f]) + (PlainAll(plan.declarations)
                                     + (InputVariables(plan, middle.pointers, plan.variables)
                                        + KeptAll(plan, middle, instrs[f..])))
  }

  lemma {:induction false} RewriteShape(plan: VertexPlan, pass: Pass, instrs: seq<Instr>)
    requires !pass.inserted
    ensures var r := Rewrite(plan, pass, instrs);
            (r.inserted <==> FirstFunction(instrs) < |instrs|)
              && (r.inserted ==> r.out == pass.out + Assembled(plan, ReadsOf(pass), instrs))
    decreases |instrs|
  {
    if instrs != [] {
      var i := instrs[0];
      if i.op == OpFunction {
        var start := Insert(plan, pass);
        KeepIs(plan, start, i);
        InsertedRewrites(plan, Step(plan, pass, i), instrs[1..]);
        assert instrs[..0] == [] && instrs[0..] == instrs;
        FunctionFirst(plan, pass, instrs);
      } else {
        KeepIs(plan, pass, i);
        RewriteShape(plan, Step(plan, pass, i), instrs[1..]);
        AssembledMore(plan, ReadsOf(pass), instrs);
      }
    }
  }

  lemma FunctionFirst(plan: VertexPlan, pass: Pass, instrs: seq<Instr>)
    requires instrs != [] && instrs[0].op == OpFunction
    ensures pass.out + Assembled(plan, ReadsOf(pass), instrs) == Insert(plan, pass).out
            + KeptAll(plan, ReadsOf(pass), instrs)
  {
    assert instrs[..0] == [] && instrs[0..] == instrs;
    var a, b, c := PlainAll(plan.declarations), InputVariables(plan, pass.pointers, plan.variables),
        KeptAll(plan, ReadsOf(pass), instrs);
    assert KeptAll(plan, ReadsOf(pass), []) == [] && AfterAll(ReadsOf(pass), []) == ReadsOf(pass);
    RegroupAll(pass.out, a, b, c);
    assert [] + (a + (b + c)) == a + (b + c);
  }

  lemma RegroupAll<T>(o: seq<T>, a: seq<T>, b: seq<T>, c: seq<T>)
    ensures o + (a + (b + c)) == o + (a + b) + c
  {
  }

  lemma AssembledMore(plan: VertexPlan, r: Reads, instrs: seq<Instr>)
    requires instrs != [] && instrs[0].op != OpFunction
    ensures Assembled(plan, r, instrs) ==
            (if Moves(plan, instrs[0]) then [] else [Prepared(instrs[0], SlotOf(plan, r, instrs[0]))])
                + Assembled(plan, After(r, instrs[0]), instrs[1..])
  {
    var f, rest := FirstFunction(instrs), instrs[1..];
    assert instrs[..f][0] == instrs[0] && instrs[..f][1..] == rest[..f - 1] && instrs[f..] == rest[f - 1..];
    var first := if Moves(plan, instrs[0]) then [] else [Prepared(instrs[0], SlotOf(plan, r, instrs[0]))];
    var kept := KeptAll(plan, After(r, instrs[0]), rest[..f - 1]);
    assert KeptAll(plan, r, instrs[..f]) == first + kept;
    var middle := AfterAll(r, instrs[..f]);
    var tail := PlainAll(plan.declarations)
        + (InputVariables(plan, middle.pointers, plan.variables) + KeptAll(plan, middle, instrs[f..]));
    assert first + kept + tail == first + (kept + tail);
  }
}
