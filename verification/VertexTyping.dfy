/** A prepared vertex module is well typed for every choice of classes: whatever reads an input has the type of the
class of the location that the input is decorated with. */
module VertexTyping {
  import opened Wrappers
  import opened Spirv
  import opened FragmentPlan
  import opened VertexInputs
  import opened VertexPreparation
  import opened VertexReads
  import opened VertexTypes

  // ----- Well-typed reads

  /** An instruction before position `k` declares the type of this key. */
  ghost predicate Stands(code: seq<Instr>, k: nat, key: seq<nat>, id: nat) {
    exists j: nat :: j < k && j < |code| && Declares(code[j], key, id)
  }

  /** `pointer` is declared before position `k`: an input pointer to so many components of a scalar. */
  ghost predicate PointerStands(code: seq<Instr>, k: nat, pointer: nat, scalar: nat, n: nat) {
    if n == 1 then Stands(code, k, PointerKey(scalar), pointer)
    else exists vector: nat :: Stands(code, k, [OpTypeVector, scalar, n], vector)
                               && Stands(code, k, PointerKey(vector), pointer)
  }

  /** The scalar types of the classes are declared before position `k`: OpTypeFloat 32, OpTypeInt 32 1 and
      OpTypeInt 32 0. */
  ghost predicate ScalarsStand(code: seq<Instr>, k: nat, types: seq<nat>) {
    |types| == 3 && Stands(code, k, [22, 32], types[0]) && Stands(code, k, [21, 32, 1], types[1])
      && Stands(code, k, [21, 32, 0], types[2])
  }

  /** Instruction `k` of the specialized code, which was `was` before, is typed by class `c`: a variable or an access
      chain points to the class's scalar, a load gives it, and what was a bit cast to an unsigned value copies one of
      that class. */
  ghost predicate InputTyped(code: seq<Instr>, k: nat, types: seq<nat>, c: nat, n: nat)
    requires k < |code|
  {
    c < 3 && ScalarsStand(code, k, types) && PointerStands(code, k, Operand(code[k], 1), types[c], n)
  }

  ghost predicate LoadTyped(code: seq<Instr>, k: nat, types: seq<nat>, c: nat)
    requires k < |code|
  {
    c < 3 && ScalarsStand(code, k, types) && Operand(code[k], 1) == types[c]
  }

  /** The operands of a cast stay; if it went to the unsigned scalar it still does, and a copy is of a value of that
      type. */
  ghost predicate CastTyped(code: seq<Instr>, k: nat, was: Instr, types: seq<nat>, c: nat)
    requires k < |code|
  {
    && c < 3 && ScalarsStand(code, k, types) && code[k].operands == was.operands
    && code[k].op == (if c == 2 then OpCopyObject else OpBitcast)
    && (Operand(was, 1) == types[2] && code[k].op == OpCopyObject ==> Operand(code[k], 1) == types[c])
  }

  /** The class of a location. */
  function ClassAt(classes: seq<nat>, location: nat): nat {
    if location < |classes| then classes[location] else CLASSES
  }

  /** The class of the input that an instruction is about. */
  ghost predicate ReadTyped(inputs: map<nat, nat>, components: map<nat, nat>, prepared: seq<Instr>, code: seq<Instr>,
                            k: nat, types: seq<nat>, classes: seq<nat>)
    requires k < |code| == |prepared|
  {
    var i, was, r := code[k], prepared[k], AfterAll(Reads(inputs, map[]), code[..k]);
    && (i.op == OpVariable && Count(i) >= 3 && Operand(i, 2) in inputs ==>
          inputs[Operand(i, 2)] in components
          && InputTyped(code, k, types, ClassAt(classes, inputs[Operand(i, 2)]), components[inputs[Operand(i, 2)]]))
    && (IsChain(r, i) ==> InputTyped(code, k, types, ClassAt(classes, r.pointers[Operand(i, 3)]), 1))
    && (IsRead(r, i) ==> LoadTyped(code, k, types, ClassAt(classes, r.pointers[Operand(i, 3)])))
    && (IsCast(r, was) ==> CastTyped(code, k, was, types, ClassAt(classes, r.loads[Operand(was, 3)])))
  }

  // ----- The setting of a preparation

  /** The logical layout of a module (section 2.4 of the SPIR-V specification): types before functions, reads in
      them. */
  ghost predicate LaidOut(instrs: seq<Instr>) {
    var f := FirstFunction(instrs);
    (forall k :: 0 <= k < f ==> Neutral(instrs[k]) && instrs[k].op != OpBitcast)
      && forall k :: f <= k < |instrs| ==> !IsType(instrs[k].op)
  }

  ghost predicate Setting(d: Declared, plan: VertexPlan, info: Info, components: map<nat, nat>, instrs: seq<Instr>,
                          bound: nat) {
    && Accounted(info.types, bound, d) && info == ScanAll(instrs) && plan.declarations == d.added
    && plan.components == components
    && plan.variables == InputsOf(info, components, instrs) && plan.choices.Keys == IdsOf(plan.variables)
    && (forall i <- plan.variables :: i in instrs && IsInput(info, components, i))
    && PlanTyped(d, plan) && ChoicesTyped(d, plan, Locations(info, plan.variables))
  }

  // ----- Slots of what stays

  /** The slot at `k` is that of what it reads. */
  ghost predicate SlotAt(plan: VertexPlan, r: Reads, ps: seq<Prepared>, k: nat)
    requires k < |ps|
  {
    !Moves(plan, ps[k].instr) && ps[k].slot == SlotOf(plan, AfterAll(r, Instrs(ps[..k])), ps[k].instr)
  }

  lemma {:induction false} KeptReads(plan: VertexPlan, r: Reads, instrs: seq<Instr>)
    ensures AfterAll(r, Instrs(KeptAll(plan, r, instrs))) == AfterAll(r, instrs)
    decreases |instrs|
  {
    if instrs != [] {
      var i, rest := instrs[0], KeptAll(plan, After(r, instrs[0]), instrs[1..]);
      KeptReads(plan, After(r, i), instrs[1..]);
      if !Moves(plan, i) {
        var first := Prepared(i, SlotOf(plan, r, i));
        assert ([first] + rest)[1..] == rest && Instrs([first] + rest) == [i] + Instrs(rest);
        assert ([i] + Instrs(rest))[1..] == Instrs(rest);
      } else {
        assert [] + rest == rest;
      }
    }
  }

  lemma {:induction false} KeptSlots(plan: VertexPlan, r: Reads, instrs: seq<Instr>, k: nat)
    requires k < |KeptAll(plan, r, instrs)|
    ensures SlotAt(plan, r, KeptAll(plan, r, instrs), k) && KeptAll(plan, r, instrs)[k].instr in instrs
    decreases |instrs|
  {
    var i := instrs[0];
    var all, rest := KeptAll(plan, r, instrs), KeptAll(plan, After(r, i), instrs[1..]);
    assert i in instrs;
    if Moves(plan, i) {
      assert all == rest;
      KeptSlots(plan, After(r, i), instrs[1..], k);
    } else if k == 0 {
      assert all[..0] == [];
    } else {
      KeptSlots(plan, After(r, i), instrs[1..], k - 1);
      assert all[..k][1..] == rest[..k - 1] && Instrs(all[..k]) == [i] + Instrs(rest[..k - 1]);
      assert ([i] + Instrs(rest[..k - 1]))[1..] == Instrs(rest[..k - 1]);
    }
  }

  /** What stays is found again among what is kept. */
  lemma {:induction false} KeptHas(plan: VertexPlan, r: Reads, instrs: seq<Instr>, n: nat) returns (k: nat)
    requires n < |instrs| && !Moves(plan, instrs[n]) && Neutral(instrs[n]) && instrs[n].op != OpBitcast
    ensures k < |KeptAll(plan, r, instrs)| && KeptAll(plan, r, instrs)[k] == Prepared(instrs[n], None)
    decreases |instrs|
  {
    if n == 0 {
      k := 0;
    } else {
      var rest := KeptHas(plan, After(r, instrs[0]), instrs[1..], n - 1);
      k := if Moves(plan, instrs[0]) then rest else rest + 1;
    }
  }

  lemma {:induction false} PlainAt(instrs: seq<Instr>, k: nat)
    requires k < |instrs|
    ensures |PlainAll(instrs)| == |instrs| && PlainAll(instrs)[k] == Prepared(instrs[k], None)
    decreases |instrs|
  {
    if k > 0 { PlainAt(instrs[1..], k - 1); } else if |instrs| > 1 { PlainAt(instrs[1..], 0); }
  }

  /** Every variable has the slot of its input. */
  lemma {:induction false} VariableAt(plan: VertexPlan, pointers: map<nat, nat>, variables: seq<Instr>, k: nat)
    requires k < |variables|
    requires forall i <- variables :: Operand(i, 2) in plan.choices && Operand(i, 2) in pointers
                                      && pointers[Operand(i, 2)] in plan.components
    ensures var ps := InputVariables(plan, pointers, variables); var id := Operand(variables[k], 2);
            && |ps| == |variables| && variables[k] in variables
            && ps[k] == Prepared(variables[k],
                                 Some(Slot(pointers[id], 1, plan.choices[id], Variable(plan.components[pointers[id]]))))
    decreases |variables|
  {
    assert variables[0] in variables;
    if k > 0 {
      VariableAt(plan, pointers, variables[1..], k - 1);
    } else if |variables| > 1 {
      VariableAt(plan, pointers, variables[1..], 0);
    }
  }

  // ----- The prepared module

  function InputLocations(info: Info, plan: VertexPlan): map<nat, nat>
    requires forall i <- plan.variables :: Operand(i, 2) in info.locations
  {
    Locations(info, plan.variables)
  }

  /** The four parts of the module: before the functions, declarations, input variables, functions. */
  datatype Parts = Parts(front: seq<Prepared>, declared: seq<Prepared>, variables: seq<Prepared>,
                         functions: seq<Prepared>)

  function All(p: Parts): seq<Prepared> { p.front + (p.declared + (p.variables + p.functions)) }

  function PartsOf(plan: VertexPlan, inputs: map<nat, nat>, instrs: seq<Instr>): Parts {
    var f, r := FirstFunction(instrs), Reads(inputs, map[]);
    Parts(KeptAll(plan, r, instrs[..f]), PlainAll(plan.declarations), InputVariables(plan, inputs, plan.variables),
          KeptAll(plan, r, instrs[f..]))
  }

  lemma AssembledParts(plan: VertexPlan, inputs: map<nat, nat>, instrs: seq<Instr>)
    requires LaidOut(instrs)
    ensures Assembled(plan, Reads(inputs, map[]), instrs) == All(PartsOf(plan, inputs, instrs))
  {
    var f := FirstFunction(instrs);
    forall i <- instrs[..f] ensures Neutral(i) { var k :| 0 <= k < f && instrs[k] == i; }
    NeutralKeeps(Reads(inputs, map[]), instrs[..f]);
  }

  /** Nothing before the functions reads an input; what has a slot there is an input variable. */
  ghost predicate Quiet(plan: VertexPlan, p: Prepared) {
    Neutral(p.instr) && p.instr.op != OpBitcast && (p.slot.None? ==> !Moves(plan, p.instr))
      && (p.slot.Some? ==> p.slot.value.word == 1)
  }

  ghost predicate AllQuiet(plan: VertexPlan, ps: seq<Prepared>) { forall p <- ps :: Quiet(plan, p) }

  lemma FrontQuiet(plan: VertexPlan, r: Reads, instrs: seq<Instr>)
    requires forall i <- instrs :: Neutral(i) && i.op != OpBitcast
    ensures AllQuiet(plan, KeptAll(plan, r, instrs)) && forall p <- KeptAll(plan, r, instrs) :: p.slot.None?
  {
    var ps := KeptAll(plan, r, instrs);
    forall p <- ps ensures Quiet(plan, p) && p.slot.None? {
      var k :| 0 <= k < |ps| && ps[k] == p;
      KeptSlots(plan, r, instrs, k);
    }
  }

  lemma DeclaredQuiet(plan: VertexPlan, instrs: seq<Instr>)
    requires AllTypes(instrs)
    ensures AllQuiet(plan, PlainAll(instrs)) && forall p <- PlainAll(instrs) :: p.slot.None? && p.instr in instrs
  {
    var ps := PlainAll(instrs);
    forall p <- ps ensures Quiet(plan, p) && p.slot.None? && p.instr in instrs {
      var k :| 0 <= k < |ps| && ps[k] == p;
      PlainLength(instrs);
      PlainAt(instrs, k);
      assert instrs[k] in instrs;
    }
  }

  lemma {:induction false} PlainLength(instrs: seq<Instr>)
    ensures |PlainAll(instrs)| == |instrs|
  {
    if instrs != [] { PlainLength(instrs[1..]); }
  }

  ghost predicate VariablesKnown(plan: VertexPlan, inputs: map<nat, nat>) {
    forall i <- plan.variables ::
      i.op == OpVariable && Count(i) == 4 && Operand(i, 2) in plan.choices && Operand(i, 2) in inputs
        && inputs[Operand(i, 2)] in plan.components
  }

  /** The slot of an input variable. */
  ghost predicate VariableSlot(plan: VertexPlan, inputs: map<nat, nat>, p: Prepared) {
    var id := Operand(p.instr, 2);
    && p.instr in plan.variables && id in plan.choices && id in inputs && inputs[id] in plan.components
    && p.slot == Some(Slot(inputs[id], 1, plan.choices[id], Variable(plan.components[inputs[id]])))
  }

  lemma VariablesQuiet(plan: VertexPlan, inputs: map<nat, nat>)
    requires VariablesKnown(plan, inputs)
    ensures var ps := InputVariables(plan, inputs, plan.variables);
            |ps| == |plan.variables| && AllQuiet(plan, ps) && forall p <- ps :: VariableSlot(plan, inputs, p)
  {
    var ps := InputVariables(plan, inputs, plan.variables);
    VariablesLength(plan, inputs, plan.variables);
    forall p <- ps ensures Quiet(plan, p) && VariableSlot(plan, inputs, p) {
      var k :| 0 <= k < |ps| && ps[k] == p;
      VariableAt(plan, inputs, plan.variables, k);
    }
  }

  lemma {:induction false} VariablesLength(plan: VertexPlan, inputs: map<nat, nat>, variables: seq<Instr>)
    requires forall i <- variables :: Operand(i, 2) in plan.choices && Operand(i, 2) in inputs
                                      && inputs[Operand(i, 2)] in plan.components
    ensures |InputVariables(plan, inputs, variables)| == |variables|
  {
    if variables != [] {
      assert variables[0] in variables;
      VariablesLength(plan, inputs, variables[1..]);
    }
  }

  lemma {:induction false} QuietKeeps(plan: VertexPlan, r: Reads, ps: seq<Prepared>)
    requires AllQuiet(plan, ps)
    ensures AfterAll(r, Instrs(ps)) == r
    decreases |ps|
  {
    if ps != [] {
      assert Quiet(plan, ps[0]) && Instrs(ps)[1..] == Instrs(ps[1..]);
      QuietKeeps(plan, r, ps[1..]);
    }
  }

  // ----- Choosing keeps what is read

  /** Choosing changes the type operand, or makes a bit cast a copy. */
  ghost predicate Mild(p: Prepared) {
    p.slot.Some? ==> p.slot.value.word == 1 || (p.slot.value.word == 0 && p.slot.value.values == CastValues()
                                                && p.instr.op == OpBitcast)
  }

  lemma ChosenMild(p: Prepared, classes: seq<nat>)
    requires Mild(p) && Choosable(p, classes)
    ensures var c := Chosen(p, classes);
            && |c.operands| == |p.instr.operands| && (forall k: nat :: k >= 2 ==> Operand(c, k) == Operand(p.instr, k))
            && (c.op == p.instr.op || (p.instr.op == OpBitcast && (c.op == OpBitcast || c.op == OpCopyObject)))
  {
  }

  lemma ChosenReads(r: Reads, p: Prepared, classes: seq<nat>)
    requires Mild(p) && Choosable(p, classes)
    ensures var c := Chosen(p, classes);
            After(r, c) == After(r, p.instr) && (IsChain(r, c) <==> IsChain(r, p.instr))
              && (IsRead(r, c) <==> IsRead(r, p.instr))
  {
    ChosenMild(p, classes);
  }

  lemma {:induction false} AllChosenReads(r: Reads, ps: seq<Prepared>, classes: seq<nat>, k: nat)
    requires k <= |ps| && forall p <- ps :: Mild(p) && Choosable(p, classes)
    ensures AfterAll(r, ChosenAll(ps, classes)[..k]) == AfterAll(r, Instrs(ps[..k]))
    decreases k
  {
    var code := ChosenAll(ps, classes);
    if k == 0 {
      assert code[..0] == [] && ps[..0] == [];
    } else {
      assert ps[0] in ps;
      ChosenReads(r, ps[0], classes);
      assert code[..k][1..] == ChosenAll(ps[1..], classes)[..k - 1] && ps[..k][1..] == ps[1..][..k - 1];
      AllChosenReads(After(r, ps[0].instr), ps[1..], classes, k - 1);
      assert Instrs(ps[..k])[1..] == Instrs(ps[..k][1..]);
    }
  }

  // ----- Types stand before what they type

  lemma OwnTypeStands(plan: VertexPlan, info: Info, instrs: seq<Instr>, inputs: map<nat, nat>, key: seq<nat>)
    returns (j: nat)
    requires LaidOut(instrs) && info == ScanAll(instrs) && key in info.types
    ensures var ps := PartsOf(plan, inputs, instrs);
            j < |ps.front| && ps.front[j].slot.None? && Declares(ps.front[j].instr, key, info.types[key])
  {
    var f := FirstFunction(instrs);
    ScannedTypes(instrs, Info(map[], {}, map[], map[], map[]), key);
    var i :| i in instrs && IsType(i.op) && Declares(i, key, info.types[key]);
    var n :| 0 <= n < |instrs| && instrs[n] == i;
    assert n < f;
    j := KeptHas(plan, Reads(inputs, map[]), instrs[..f], n);
  }

  lemma TypeStands(d: Declared, plan: VertexPlan, info: Info, components: map<nat, nat>, instrs: seq<Instr>, bound: nat,
                   inputs: map<nat, nat>, key: seq<nat>)
    returns (j: nat)
    requires Setting(d, plan, info, components, instrs, bound) && LaidOut(instrs) && key in d.types
    ensures var ps := PartsOf(plan, inputs, instrs);
            && j < |ps.front| + |ps.declared| && All(ps)[j].slot.None? && Declares(All(ps)[j].instr, key, d.types[key])
  {
    var ps := PartsOf(plan, inputs, instrs);
    if key in info.types && d.types[key] == info.types[key] {
      j := OwnTypeStands(plan, info, instrs, inputs, key);
      assert All(ps)[j] == ps.front[j];
    } else {
      j := AddedTypeStands(d, plan, info, components, instrs, bound, inputs, key);
    }
  }

  lemma AddedTypeStands(d: Declared, plan: VertexPlan, info: Info, components: map<nat, nat>, instrs: seq<Instr>,
                        bound: nat, inputs: map<nat, nat>, key: seq<nat>)
    returns (j: nat)
    requires Setting(d, plan, info, components, instrs, bound) && key in d.types
    requires !(key in info.types && d.types[key] == info.types[key])
    ensures var ps := PartsOf(plan, inputs, instrs);
            && j < |ps.front| + |ps.declared| && All(ps)[j].slot.None? && Declares(All(ps)[j].instr, key, d.types[key])
  {
    var ps := PartsOf(plan, inputs, instrs);
    var i := Instr(key[0], [d.types[key]] + key[1..]);
    assert i in d.added;
    var n :| 0 <= n < |d.added| && d.added[n] == i;
    PlainAt(d.added, n);
    j := |ps.front| + n;
    assert All(ps)[j] == ps.declared[n];
  }

  /** In the specialized code every type stands before the input variables. */
  ghost predicate TypesStand(d: Declared, code: seq<Instr>, k: nat) {
    forall key <- d.types :: Stands(code, k, key, d.types[key])
  }

  lemma CodeStands(d: Declared, plan: VertexPlan, info: Info, components: map<nat, nat>, instrs: seq<Instr>, bound: nat,
                   inputs: map<nat, nat>, classes: seq<nat>, k: nat)
    requires Setting(d, plan, info, components, instrs, bound) && LaidOut(instrs)
    requires var ps := PartsOf(plan, inputs, instrs);
             (forall p <- All(ps) :: Choosable(p, classes)) && |ps.front| + |ps.declared| <= k
    ensures TypesStand(d, ChosenAll(All(PartsOf(plan, inputs, instrs)), classes), k)
  {
    var ps := PartsOf(plan, inputs, instrs);
    var code := ChosenAll(All(ps), classes);
    forall key <- d.types ensures Stands(code, k, key, d.types[key]) {
      var j := TypeStands(d, plan, info, components, instrs, bound, inputs, key);
      assert code[j] == Chosen(All(ps)[j], classes);
    }
  }

  /** A type that is known stands in the code. */
  lemma PointsStand(d: Declared, code: seq<Instr>, k: nat, pointer: nat, scalar: nat, n: nat)
    requires TypesStand(d, code, k) && PointsTo(d, pointer, scalar, n)
    ensures PointerStands(code, k, pointer, scalar, n)
  {
    if n == 1 {
      assert Stands(code, k, PointerKey(scalar), pointer);
    } else {
      var key := [OpTypeVector, scalar, n];
      assert Stands(code, k, key, d.types[key]) && Stands(code, k, PointerKey(d.types[key]), pointer);
    }
  }

  lemma ScalarsStandIn(d: Declared, plan: VertexPlan, code: seq<Instr>, k: nat)
    requires TypesStand(d, code, k) && PlanTyped(d, plan)
    ensures ScalarsStand(code, k, plan.types)
  {
    var keys := [ScalarKey(0), ScalarKey(1), ScalarKey(2)];
    assert keys[0] in d.types && keys[1] in d.types && keys[2] in d.types;
  }

  // ----- Every instruction

  /** The class of every location that occurs. */
  ghost predicate Classified(inputs: map<nat, nat>, classes: seq<nat>) {
    forall id <- inputs :: inputs[id] < |classes| && classes[inputs[id]] < CLASSES
  }

  /** Ids that point into inputs or were loaded from them have locations of inputs. */
  ghost predicate Within(r: Reads, inputs: map<nat, nat>) {
    (forall id <- r.pointers :: r.pointers[id] in inputs.Values) && forall id <- r.loads :: r.loads[id] in inputs.Values
  }

  lemma {:induction false} ReadsWithin(r: Reads, inputs: map<nat, nat>, instrs: seq<Instr>)
    requires Within(r, inputs)
    ensures Within(AfterAll(r, instrs), inputs)
    decreases |instrs|
  {
    if instrs != [] { ReadsWithin(After(r, instrs[0]), inputs, instrs[1..]); }
  }

  lemma LocationClass(inputs: map<nat, nat>, classes: seq<nat>, location: nat)
    requires Classified(inputs, classes) && location in inputs.Values
    ensures location < |classes| && classes[location] < CLASSES && ClassAt(classes, location) == classes[location]
  {
    var id :| id in inputs && inputs[id] == location;
  }

  /** What is known of instruction `k`: the reads before it, and that its slot is theirs. */
  ghost predicate SlotKnown(plan: VertexPlan, inputs: map<nat, nat>, ps: Parts, k: nat)
    requires k < |All(ps)|
  {
    var p, r := All(ps)[k], AfterAll(Reads(inputs, map[]), Instrs(All(ps)[..k]));
    && Within(r, inputs)
    && if p.instr.op == OpVariable && p.slot.Some? then VariableSlot(plan, inputs, p) && |ps.front| + |ps.declared| <= k
       else !Moves(plan, p.instr) && p.slot == SlotOf(plan, r, p.instr)
            && (p.slot.Some? ==> |ps.front| + |ps.declared| <= k)
  }

  lemma FrontKnown(plan: VertexPlan, inputs: map<nat, nat>, ps: Parts, k: nat)
    requires AllQuiet(plan, ps.front + (ps.declared + ps.variables)) && k < |ps.front| + |ps.declared|
    requires forall p <- ps.front + ps.declared :: p.slot.None?
    ensures SlotKnown(plan, inputs, ps, k)
  {
    var quiet, before := ps.front + (ps.declared + ps.variables), All(ps)[..k];
    assert before == quiet[..k] && All(ps)[k] == quiet[k] == (ps.front + ps.declared)[k];
    forall p <- before ensures Quiet(plan, p) { assert p in quiet; }
    QuietKeeps(plan, Reads(inputs, map[]), before);
    assert quiet[k] in quiet && quiet[k] in ps.front + ps.declared;
  }

  lemma VariableKnown(plan: VertexPlan, inputs: map<nat, nat>, ps: Parts, k: nat)
    requires AllQuiet(plan, ps.front + (ps.declared + ps.variables))
             && forall p <- ps.variables :: VariableSlot(plan, inputs, p) && p.instr.op == OpVariable
    requires |ps.front| + |ps.declared| <= k < |ps.front| + |ps.declared| + |ps.variables|
    ensures SlotKnown(plan, inputs, ps, k)
  {
    var quiet, before := ps.front + (ps.declared + ps.variables), All(ps)[..k];
    assert before == quiet[..k] && All(ps)[k] == quiet[k] == ps.variables[k - |ps.front| - |ps.declared|];
    forall p <- before ensures Quiet(plan, p) { assert p in quiet; }
    QuietKeeps(plan, Reads(inputs, map[]), before);
    assert quiet[k] in ps.variables;
  }

  lemma FunctionKnown(plan: VertexPlan, inputs: map<nat, nat>, ps: Parts, code: seq<Instr>, k: nat)
    requires AllQuiet(plan, ps.front + (ps.declared + ps.variables))
             && ps.functions == KeptAll(plan, Reads(inputs, map[]), code)
    requires |ps.front| + |ps.declared| + |ps.variables| <= k < |All(ps)|
    ensures SlotKnown(plan, inputs, ps, k)
  {
    var r, quiet := Reads(inputs, map[]), ps.front + (ps.declared + ps.variables);
    var n := k - |quiet|;
    assert All(ps)[..k] == quiet + ps.functions[..n] && All(ps)[k] == ps.functions[n];
    InstrsJoin(quiet, ps.functions[..n]);
    AfterJoins(r, Instrs(quiet), Instrs(ps.functions[..n]));
    QuietKeeps(plan, r, quiet);
    KeptSlots(plan, r, code, n);
    ReadsWithin(r, inputs, Instrs(ps.functions[..n]));
  }

  lemma AllKnown(d: Declared, plan: VertexPlan, info: Info, components: map<nat, nat>, instrs: seq<Instr>, bound: nat)
    requires Setting(d, plan, info, components, instrs, bound) && LaidOut(instrs)
    ensures var inputs := Locations(info, plan.variables);
            var ps := PartsOf(plan, inputs, instrs);
            inputs.Keys == plan.choices.Keys && (forall k :: 0 <= k < |All(ps)| ==> SlotKnown(plan, inputs, ps, k))
  {
    var inputs := Locations(info, plan.variables);
    var ps, f := PartsOf(plan, inputs, instrs), FirstFunction(instrs);
    VariablesSettled(d, plan, info, components, instrs, bound);
    forall i <- instrs[..f] ensures Neutral(i) && i.op != OpBitcast { var n :| 0 <= n < f && instrs[n] == i; }
    FrontQuiet(plan, Reads(inputs, map[]), instrs[..f]);
    DeclaredQuiet(plan, d.added);
    VariablesQuiet(plan, inputs);
    assert AllQuiet(plan, ps.front + (ps.declared + ps.variables));
    forall k | 0 <= k < |All(ps)| ensures SlotKnown(plan, inputs, ps, k) {
      if k < |ps.front| + |ps.declared| { FrontKnown(plan, inputs, ps, k); }
      else if k < |ps.front| + |ps.declared| + |ps.variables| { VariableKnown(plan, inputs, ps, k); }
      else { FunctionKnown(plan, inputs, ps, instrs[f..], k); }
    }
  }

  lemma VariablesSettled(d: Declared, plan: VertexPlan, info: Info, components: map<nat, nat>, instrs: seq<Instr>,
                         bound: nat)
    requires Setting(d, plan, info, components, instrs, bound)
    ensures var inputs := Locations(info, plan.variables);
            VariablesKnown(plan, inputs) && inputs.Keys == plan.choices.Keys
              && forall id <- inputs :: inputs[id] in components
  {
    var inputs := Locations(info, plan.variables);
    forall i <- plan.variables ensures Operand(i, 2) in inputs && inputs[Operand(i, 2)] in components {
      assert IsInput(info, components, i);
    }
    forall id <- inputs ensures inputs[id] in components {
      var i :| i in plan.variables && Operand(i, 2) == id;
    }
  }

  // ----- Typing

  /** The slots of a known instruction can be chosen. */
  lemma KnownChoosable(d: Declared, plan: VertexPlan, inputs: map<nat, nat>, ps: Parts, k: nat, classes: seq<nat>)
    requires k < |All(ps)| && SlotKnown(plan, inputs, ps, k) && PlanTyped(d, plan) && Classified(inputs, classes)
             && Fits(All(ps)[k].instr)
    requires forall id <- plan.choices :: |plan.choices[id]| == 3
    ensures Choosable(All(ps)[k], classes) && Mild(All(ps)[k])
  {
    var p, r := All(ps)[k], AfterAll(Reads(inputs, map[]), Instrs(All(ps)[..k]));
    if p.slot.Some? {
      if p.instr.op == OpVariable {
        LocationClass(inputs, classes, p.slot.value.location);
      } else if IsCast(r, p.instr) {
        LocationClass(inputs, classes, r.loads[Operand(p.instr, 3)]);
      } else {
        LocationClass(inputs, classes, r.pointers[Operand(p.instr, 3)]);
      }
    }
  }

  lemma PointersNamed(d: Declared, plan: VertexPlan, c: nat)
    requires PlanTyped(d, plan) && c < 3
    ensures PointsTo(d, plan.pointers[c], plan.types[c], 1)
  {
    var keys := [PointerKey(plan.types[0]), PointerKey(plan.types[1]), PointerKey(plan.types[2])];
    assert keys[c] in d.types;
  }

  lemma SlotTypes(d: Declared, plan: VertexPlan, inputs: map<nat, nat>, components: map<nat, nat>, ps: Parts,
                  classes: seq<nat>, code: seq<Instr>, k: nat)
    requires k < |All(ps)| == |code| && SlotKnown(plan, inputs, ps, k) && PlanTyped(d, plan)
             && ChoicesTyped(d, plan, inputs) && plan.components == components
    requires Classified(inputs, classes) && Choosable(All(ps)[k], classes) && code[k] == Chosen(All(ps)[k], classes)
             && All(ps)[k].slot.Some?
    requires TypesStand(d, code, k)
    ensures var p, r := All(ps)[k], AfterAll(Reads(inputs, map[]), Instrs(All(ps)[..k]));
            && (p.instr.op == OpVariable ==>
                InputTyped(code, k, plan.types, ClassAt(classes, inputs[Operand(p.instr, 2)]),
                           components[inputs[Operand(p.instr, 2)]]))
            && (IsChain(r, p.instr) ==> InputTyped(code, k, plan.types,
                                                   ClassAt(classes, r.pointers[Operand(p.instr, 3)]), 1))
            && (IsRead(r, p.instr) ==> LoadTyped(code, k, plan.types,
                                                 ClassAt(classes, r.pointers[Operand(p.instr, 3)])))
            && (IsCast(r, p.instr) ==> CastTyped(code, k, p.instr, plan.types,
                                                 ClassAt(classes, r.loads[Operand(p.instr, 3)])))
  {
    var p, r := All(ps)[k], AfterAll(Reads(inputs, map[]), Instrs(All(ps)[..k]));
    var location := p.slot.value.location;
    LocationClass(inputs, classes, location);
    ScalarsStandIn(d, plan, code, k);
    if p.instr.op == OpVariable {
      ChoiceStands(d, plan, inputs, components, Operand(p.instr, 2), classes[location], code, k);
    } else if IsChain(r, p.instr) {
      ChainStands(d, plan, classes[location], code, k);
    }
  }

  lemma ChoiceStands(d: Declared, plan: VertexPlan, inputs: map<nat, nat>, components: map<nat, nat>, id: nat, c: nat,
                     code: seq<Instr>, k: nat)
    requires PlanTyped(d, plan) && ChoicesTyped(d, plan, inputs) && plan.components == components
    requires id in plan.choices && id in inputs && inputs[id] in components && c < 3 && TypesStand(d, code, k)
    ensures |plan.choices[id]| == 3
    ensures PointerStands(code, k, plan.choices[id][c], plan.types[c], components[inputs[id]])
  {
    assert ChoiceTyped(d, plan, id, components[inputs[id]]);
    PointsStand(d, code, k, plan.choices[id][c], plan.types[c], components[inputs[id]]);
  }

  lemma ChainStands(d: Declared, plan: VertexPlan, c: nat, code: seq<Instr>, k: nat)
    requires PlanTyped(d, plan) && c < 3 && TypesStand(d, code, k)
    ensures |plan.pointers| == 3 && PointerStands(code, k, plan.pointers[c], plan.types[c], 1)
  {
    PointersNamed(d, plan, c);
    PointsStand(d, code, k, plan.pointers[c], plan.types[c], 1);
  }

  /** Every read of an input is typed by its class. */
  lemma CodeTyped(d: Declared, plan: VertexPlan, info: Info, components: map<nat, nat>, instrs: seq<Instr>, bound: nat,
                  classes: seq<nat>)
    requires Setting(d, plan, info, components, instrs, bound) && LaidOut(instrs)
             && Classified(Locations(info, plan.variables), classes)
    requires AllFit(Instrs(All(PartsOf(plan, Locations(info, plan.variables), instrs))))
             && forall id <- plan.choices :: |plan.choices[id]| == 3
    ensures var inputs := Locations(info, plan.variables);
            var out := All(PartsOf(plan, inputs, instrs));
            && (forall p <- out :: Choosable(p, classes) && Mild(p))
            && forall k :: 0 <= k < |out| ==>
               ReadTyped(inputs, components, Instrs(out), ChosenAll(out, classes), k, plan.types, classes)
  {
    var inputs := Locations(info, plan.variables);
    var ps := PartsOf(plan, inputs, instrs);
    var out := All(ps);
    AllKnown(d, plan, info, components, instrs, bound);
    VariablesSettled(d, plan, info, components, instrs, bound);
    forall p <- out ensures Choosable(p, classes) && Mild(p) {
      var k :| 0 <= k < |out| && out[k] == p;
      InstrsAt(out, k);
      assert Instrs(out)[k] in Instrs(out);
      KnownChoosable(d, plan, inputs, ps, k, classes);
    }
    forall k | 0 <= k < |out| ensures ReadTyped(inputs, components, Instrs(out), ChosenAll(out, classes), k, plan.types,
                                                classes) {
      KnownTyped(d, plan, info, components, instrs, bound, classes, k);
    }
  }

  lemma {:induction false} InstrsAt(ps: seq<Prepared>, k: nat)
    requires k < |ps|
    ensures Instrs(ps)[k] == ps[k].instr
    decreases |ps|
  {
    if k > 0 { InstrsAt(ps[1..], k - 1); }
  }

  lemma KnownTyped(d: Declared, plan: VertexPlan, info: Info, components: map<nat, nat>, instrs: seq<Instr>, bound: nat,
                   classes: seq<nat>, k: nat)
    requires Setting(d, plan, info, components, instrs, bound) && LaidOut(instrs)
             && Classified(Locations(info, plan.variables), classes)
    requires var inputs := Locations(info, plan.variables);
             var ps := PartsOf(plan, inputs, instrs);
             && k < |All(ps)| && SlotKnown(plan, inputs, ps, k)
             && (forall p <- All(ps) :: Choosable(p, classes) && Mild(p))
             && inputs.Keys == plan.choices.Keys && forall id <- inputs :: inputs[id] in components
    ensures var inputs := Locations(info, plan.variables);
            var out := All(PartsOf(plan, inputs, instrs));
            ReadTyped(inputs, components, Instrs(out), ChosenAll(out, classes), k, plan.types, classes)
  {
    var inputs := Locations(info, plan.variables);
    var ps := PartsOf(plan, inputs, instrs);
    var out := All(ps);
    var code, p := ChosenAll(out, classes), out[k];
    var r := AfterAll(Reads(inputs, map[]), Instrs(out[..k]));
    AllChosenReads(Reads(inputs, map[]), out, classes, k);
    InstrsAt(out, k);
    assert p in out;
    ChosenReads(r, p, classes);
    ChosenMild(p, classes);
    if p.slot.Some? {
      CodeStands(d, plan, info, components, instrs, bound, inputs, classes, k);
      SlotTypes(d, plan, inputs, components, ps, classes, code, k);
    }
  }
}
