/** Making a vertex module patchable: its inputs move behind new type declarations, and every instruction whose type
depends on an input's class gets a slot. */
module VertexPreparation {
  import opened Wrappers
  import opened Spirv
  import opened FragmentPlan
  import opened VertexInputs

  datatype Input = Input(location: nat, components: nat)

  /** Components by location; None when an input is out of range or a location comes twice. */
  function Components(inputs: seq<Input>, known: map<nat, nat> := map[]): Option<map<nat, nat>>
    decreases |inputs|
  {
    if inputs == [] then Some(known)
    else
      var i := inputs[0];
      if i.location >= MAX_RESOURCES || i.components == 0 || i.components > 4 || i.location in known then None
      else Components(inputs[1..], known[i.location := i.components])
  }

  // ----- Types

  /** The scalar type of a class: float, signed, unsigned. */
  function ScalarKey(k: nat): seq<nat> {
    if k == 0 then [OpTypeFloat, 32] else if k == 1 then [OpTypeInt, 32, 1] else [OpTypeInt, 32, 0]
  }

  function PointerKey(target: nat): seq<nat> { [OpTypePointer, StorageClassInput, target] }

  /** The ids of the scalar types and of the input pointers to them, class by class. */
  datatype Scalars = Scalars(types: seq<nat>, pointers: seq<nat>, d: Declared) | NoScalars

  /** Declares types one after another. */
  datatype Ids = Ids(ids: seq<nat>, d: Declared) | NoIds

  function DeclareAll(d: Declared, keys: seq<seq<nat>>): Ids
    requires forall k :: 0 <= k < |keys| ==> keys[k] != []
    decreases |keys|
  {
    if keys == [] then Ids([], d)
    else
      match Declare(d, keys[0])
      case NoId => NoIds
      case Id(id, d1) =>
        match DeclareAll(d1, keys[1..])
        case NoIds => NoIds
        case Ids(rest, d2) => Ids([id] + rest, d2)
  }

  function DeclareScalars(d: Declared): Scalars {
    match DeclareAll(d, [ScalarKey(0), ScalarKey(1), ScalarKey(2)])
    case NoIds => NoScalars
    case Ids(types, d1) =>
      if |types| != 3 then NoScalars
      else
        match DeclareAll(d1, [PointerKey(types[0]), PointerKey(types[1]), PointerKey(types[2])])
        case NoIds => NoScalars
        case Ids(pointers, d2) => Scalars(types, pointers, d2)
  }

  /** `d` only adds to the types of `was`. */
  ghost predicate Extends(was: Declared, d: Declared) { was.types.Items <= d.types.Items }

  /** The ids name the types of these keys. */
  ghost predicate Name(d: Declared, ids: seq<nat>, keys: seq<seq<nat>>) {
    |ids| == |keys| && forall k :: 0 <= k < |keys| ==> keys[k] in d.types && d.types[keys[k]] == ids[k]
  }

  lemma NameStays(was: Declared, d: Declared, ids: seq<nat>, keys: seq<seq<nat>>)
    requires Extends(was, d) && Name(was, ids, keys)
    ensures Name(d, ids, keys)
  {
    forall k | 0 <= k < |keys| ensures keys[k] in d.types && d.types[keys[k]] == ids[k] {
      assert (keys[k], ids[k]) in was.types.Items;
    }
  }

  lemma {:induction false} DeclareAllNames(d: Declared, keys: seq<seq<nat>>)
    requires forall k :: 0 <= k < |keys| ==> keys[k] != []
    ensures var r := DeclareAll(d, keys); r.Ids? ==> Extends(d, r.d) && Name(r.d, r.ids, keys)
    decreases |keys|
  {
    if keys != [] {
      var first := Declare(d, keys[0]);
      if first.Id? {
        DeclareAllNames(first.d, keys[1..]);
        var r := DeclareAll(first.d, keys[1..]);
        if r.Ids? {
          NameStays(first.d, r.d, [first.id], [keys[0]]);
          var ids := [first.id] + r.ids;
          forall k | 0 <= k < |keys| ensures keys[k] in r.d.types && r.d.types[keys[k]] == ids[k] {
            if k > 0 { assert keys[k] == keys[1..][k - 1]; } else { assert [keys[0]][0] in r.d.types; }
          }
        }
      }
    }
  }

  // ----- The inputs

  /** The pointer types of an input of so many components, class by class. */
  function InputPointers(d: Declared, scalars: seq<nat>, components: nat): Ids
    requires |scalars| == 3
  {
    InputPointersFrom(d, scalars, components, 0)
  }

  /** One class after another: its vector, unless one component makes it a scalar, and the pointer to that. */
  function InputPointersFrom(d: Declared, scalars: seq<nat>, components: nat, k: nat): Ids
    requires |scalars| == 3 && k <= 3
    decreases 3 - k
  {
    if k == 3 then Ids([], d)
    else
      match if components == 1 then Id(scalars[k], d) else Declare(d, [OpTypeVector, scalars[k], components])
      case NoId => NoIds
      case Id(target, d1) =>
        match Declare(d1, PointerKey(target))
        case NoId => NoIds
        case Id(pointer, d2) =>
          match InputPointersFrom(d2, scalars, components, k + 1)
          case NoIds => NoIds
          case Ids(rest, d3) => Ids([pointer] + rest, d3)
  }

  /** `pointer` is an input pointer to so many components of a scalar. */
  ghost predicate PointsTo(d: Declared, pointer: nat, scalar: nat, components: nat) {
    if components == 1 then PointerKey(scalar) in d.types && d.types[PointerKey(scalar)] == pointer
    else
      var key := [OpTypeVector, scalar, components];
      key in d.types && PointerKey(d.types[key]) in d.types && d.types[PointerKey(d.types[key])] == pointer
  }

  lemma {:induction false} InputPointersPoint(d: Declared, scalars: seq<nat>, components: nat, k: nat)
    requires |scalars| == 3 && k <= 3
    ensures var r := InputPointersFrom(d, scalars, components, k);
            r.Ids? ==> Extends(d, r.d) && |r.ids| == 3 - k
                       && forall j :: k <= j < 3 ==> PointsTo(r.d, r.ids[j - k], scalars[j], components)
    decreases 3 - k
  {
    var r := InputPointersFrom(d, scalars, components, k);
    if k < 3 && r.Ids? {
      var target := if components == 1 then Id(scalars[k], d) else Declare(d, [OpTypeVector, scalars[k], components]);
      var pointer := Declare(target.d, PointerKey(target.id));
      InputPointersPoint(pointer.d, scalars, components, k + 1);
      NameStays(pointer.d, r.d, [pointer.id], [PointerKey(target.id)]);
      assert [PointerKey(target.id)][0] in r.d.types;
      if components != 1 {
        NameStays(target.d, r.d, [target.id], [[OpTypeVector, scalars[k], components]]);
        assert [[OpTypeVector, scalars[k], components]][0] in r.d.types;
      }
      forall j | k <= j < 3 ensures PointsTo(r.d, r.ids[j - k], scalars[j], components) {
        if j > k { assert r.ids[j - k] == InputPointersFrom(pointer.d, scalars, components, k + 1).ids[j - (k + 1)]; }
      }
    }
  }

  /** The input variables found so far: their pointer types by class, their locations, and the variables themselves. */
  datatype Found = Found(d: Declared, choices: map<nat, seq<nat>>, pointers: map<nat, nat>, variables: seq<Instr>)
      | NotFound

  predicate IsInput(info: Info, components: map<nat, nat>, i: Instr) {
    && i.op == OpVariable && Count(i) == 4 && Operand(i, 3) == StorageClassInput
    && Operand(i, 2) in info.locations && info.locations[Operand(i, 2)] in components
  }

  function Find(info: Info, components: map<nat, nat>, scalars: seq<nat>, f: Found, instrs: seq<Instr>): Found
    requires |scalars| == 3
    decreases |instrs|
  {
    if f.NotFound? || instrs == [] then f
    else if !IsInput(info, components, instrs[0]) then Find(info, components, scalars, f, instrs[1..])
    else
      var id := Operand(instrs[0], 2);
      var location := info.locations[id];
      match InputPointers(f.d, scalars, components[location])
      case NoIds => NotFound
      case Ids(pointers, d) =>
        Find(info, components, scalars,
             Found(d, f.choices[id := pointers], Emplace(f.pointers, id, location), f.variables + [instrs[0]]),
             instrs[1..])
  }

  // ----- Rewriting

  datatype VertexPlan = VertexPlan(types: seq<nat>, pointers: seq<nat>, choices: map<nat, seq<nat>>,
                                   components: map<nat, nat>, declarations: seq<Instr>, variables: seq<Instr>)

  /** The prepared instructions, the locations that ids point into or were loaded from, and whether the declarations are
      in. */
  datatype Pass = Pass(out: seq<Prepared>, pointers: map<nat, nat>, loads: map<nat, nat>, inserted: bool)

  function CastValues(): seq<nat> { [OpBitcastHead, OpBitcastHead, OpCopyHead] }

  function PlainAll(instrs: seq<Instr>): seq<Prepared> {
    if instrs == [] then [] else [Prepared(instrs[0], None)] + PlainAll(instrs[1..])
  }

  /** The input variables with their slots. */
  function InputVariables(plan: VertexPlan, pointers: map<nat, nat>, variables: seq<Instr>): seq<Prepared> {
    if variables == [] then []
    else
      var id := Operand(variables[0], 2);
      (if id in plan.choices && id in pointers && pointers[id] in plan.components then
         [Prepared(variables[0], Some(Slot(pointers[id], 1, plan.choices[id],
                                           Variable(plan.components[pointers[id]]))))] else [])
      + InputVariables(plan, pointers, variables[1..])
  }

  function Insert(plan: VertexPlan, pass: Pass): Pass {
    pass.(out := pass.out + (PlainAll(plan.declarations) + InputVariables(plan, pass.pointers, plan.variables)),
          inserted := true)
  }

  function Keep(plan: VertexPlan, pass: Pass, i: Instr): Pass {
    if i.op == OpVariable && Count(i) >= 3 && Operand(i, 2) in plan.choices then pass
    else if i.op == OpAccessChain && Count(i) == 5 && Operand(i, 3) in pass.pointers then
      var location := pass.pointers[Operand(i, 3)];
      pass.(out := pass.out + [Prepared(i, Some(Slot(location, 1, plan.pointers, Chain)))],
            pointers := Emplace(pass.pointers, Operand(i, 2), location))
    else if i.op == OpLoad && Count(i) == 4 && Operand(i, 3) in pass.pointers then
      var location := pass.pointers[Operand(i, 3)];
      pass.(out := pass.out + [Prepared(i, Some(Slot(location, 1, plan.types, Load)))],
            loads := Emplace(pass.loads, Operand(i, 2), location))
    else if i.op == OpBitcast && Count(i) == 4 && Operand(i, 3) in pass.loads then
      pass.(out := pass.out + [Prepared(i, Some(Slot(pass.loads[Operand(i, 3)], 0, CastValues(), Cast)))])
    else pass.(out := pass.out + [Prepared(i, None)])
  }

  function Step(plan: VertexPlan, pass: Pass, i: Instr): Pass {
    Keep(plan, if i.op == OpFunction && !pass.inserted then Insert(plan, pass) else pass, i)
  }

  function Rewrite(plan: VertexPlan, pass: Pass, instrs: seq<Instr>): Pass
    decreases |instrs|
  {
    if instrs == [] then pass else Rewrite(plan, Step(plan, pass, instrs[0]), instrs[1..])
  }

  // ----- Types of a plan

  /** The scalar types and pointers are declared, and every input variable has its pointer types. */
  ghost predicate PlanTyped(d: Declared, plan: VertexPlan) {
    && |plan.types| == 3 && Name(d, plan.types, [ScalarKey(0), ScalarKey(1), ScalarKey(2)])
    && Name(d, plan.pointers, [PointerKey(plan.types[0]), PointerKey(plan.types[1]), PointerKey(plan.types[2])])
    && (forall i <- plan.variables :: i.op == OpVariable && Count(i) == 4)
  }

  ghost predicate ChoicesTyped(d: Declared, plan: VertexPlan, pointers: map<nat, nat>) {
    forall id :: id in plan.choices && id in pointers && pointers[id] in plan.components ==>
        ChoiceTyped(d, plan, id, plan.components[pointers[id]])
  }

  ghost predicate ChoiceTyped(d: Declared, plan: VertexPlan, id: nat, n: nat) {
    id in plan.choices && |plan.choices[id]| == 3 && |plan.types| == 3
      && forall k :: 0 <= k < 3 ==> PointsTo(d, plan.choices[id][k], plan.types[k], n)
  }

  // ----- The whole preparation

  datatype Module = Module(words: seq<nat>, patches: seq<Patch>)

  function PlanOf(scalars: Scalars, components: map<nat, nat>, f: Found): VertexPlan
    requires scalars.Scalars? && f.Found?
  {
    VertexPlan(scalars.types, scalars.pointers, f.choices, components, f.d.added, f.variables)
  }

  function StartOf(f: Found): Pass
    requires f.Found?
  {
    Pass([], f.pointers, map[], false)
  }

  /** The patchable module; None where the preparation throws. */
  function Prepare(words: seq<nat>, inputs: seq<Input>): Option<Module> {
    if |words| < HEADER || words[0] != MAGIC then None
    else
      var components := Components(inputs);
      if components.None? || Parse(words[HEADER..]).None? then None
      else
        var instrs := Parse(words[HEADER..]).value;
        var scalars := DeclareScalars(Declared(ScanAll(instrs).types, words[3], []));
        if scalars.NoScalars? || |scalars.types| != 3 then None
        else
          var f := Find(ScanAll(instrs), components.value, scalars.types, Found(scalars.d, map[], map[], []), instrs);
          if f.NotFound? || |f.variables| != |inputs| then None
          else
            var pass := Rewrite(PlanOf(scalars, components.value, f), StartOf(f), instrs);
            var patches := Patches(pass.out, HEADER);
            if !pass.inserted || exists p <- patches :: p.word > MAX_ID then None
            else Some(Module(words[..HEADER][3 := f.d.bound] + StreamWords(Instrs(pass.out)), patches))
  }

  /** What has been found: every variable's location is its decoration's, and its pointer types fit its components. */
  ghost predicate FoundTyped(info: Info, components: map<nat, nat>, types: seq<nat>, f: Found) {
    f.Found? && |types| == 3
    && (forall id <- f.choices :: id in f.pointers)
    && (forall id <- f.pointers :: id in info.locations && f.pointers[id] == info.locations[id])
    && (forall id <- f.choices :: id in info.locations && info.locations[id] in components ==>
        Pointers(f.d, types, f.choices[id], components[info.locations[id]]))
    && forall i <- f.variables :: i.op == OpVariable && Count(i) == 4
  }

  ghost predicate Pointers(d: Declared, types: seq<nat>, ids: seq<nat>, n: nat) {
    |ids| == |types| == 3 && forall k :: 0 <= k < 3 ==> PointsTo(d, ids[k], types[k], n)
  }

  lemma PointsStays(was: Declared, d: Declared, pointer: nat, scalar: nat, n: nat)
    requires Extends(was, d) && PointsTo(was, pointer, scalar, n)
    ensures PointsTo(d, pointer, scalar, n)
  {
    if n == 1 {
      assert (PointerKey(scalar), pointer) in was.types.Items;
    } else {
      var key := [OpTypeVector, scalar, n];
      assert (key, was.types[key]) in was.types.Items && (PointerKey(was.types[key]), pointer) in was.types.Items;
    }
  }

  lemma NoteTyped(info: Info, components: map<nat, nat>, types: seq<nat>, f: Found, i: Instr)
    requires FoundTyped(info, components, types, f) && IsInput(info, components, i)
    ensures var id := Operand(i, 2);
            var r := InputPointers(f.d, types, components[info.locations[id]]);
            r.Ids? ==> Extends(f.d, r.d) && FoundTyped(info, components, types,
                                                       Found(r.d, f.choices[id := r.ids],
                                                             Emplace(f.pointers, id, info.locations[id]),
                                                             f.variables + [i]))
  {
    var id := Operand(i, 2);
    var n := components[info.locations[id]];
    var r := InputPointers(f.d, types, n);
    if r.Ids? {
      InputPointersPoint(f.d, types, n, 0);
      assert Pointers(r.d, types, r.ids, n);
      var choices := f.choices[id := r.ids];
      forall other <- choices | other in info.locations && info.locations[other] in components
        ensures Pointers(r.d, types, choices[other], components[info.locations[other]])
      {
        if other != id {
          var m := components[info.locations[other]];
          assert other in f.choices && Pointers(f.d, types, f.choices[other], m);
          forall k | 0 <= k < 3 ensures PointsTo(r.d, choices[other][k], types[k], m) {
            PointsStays(f.d, r.d, choices[other][k], types[k], m);
          }
        }
      }
    }
  }

  lemma {:induction false} FindTyped(info: Info, components: map<nat, nat>, types: seq<nat>, f: Found,
                                     instrs: seq<Instr>)
    requires FoundTyped(info, components, types, f)
    ensures var r := Find(info, components, types, f, instrs);
            r.Found? ==> Extends(f.d, r.d) && FoundTyped(info, components, types, r)
    decreases |instrs|
  {
    if instrs != [] {
      if IsInput(info, components, instrs[0]) {
        var id := Operand(instrs[0], 2);
        var r := InputPointers(f.d, types, components[info.locations[id]]);
        NoteTyped(info, components, types, f, instrs[0]);
        if r.Ids? {
          FindTyped(info, components, types,
                    Found(r.d, f.choices[id := r.ids], Emplace(f.pointers, id, info.locations[id]),
                          f.variables + [instrs[0]]), instrs[1..]);
        }
      } else {
        FindTyped(info, components, types, f, instrs[1..]);
      }
    }
  }

  lemma ScalarsNamed(d: Declared)
    ensures var r := DeclareScalars(d);
            r.Scalars? ==> (|r.types| == 3 && Name(r.d, r.types, [ScalarKey(0), ScalarKey(1), ScalarKey(2)])
                            && Name(r.d, r.pointers, [PointerKey(r.types[0]), PointerKey(r.types[1]),
                                                      PointerKey(r.types[2])]))
  {
    var first := DeclareAll(d, [ScalarKey(0), ScalarKey(1), ScalarKey(2)]);
    DeclareAllNames(d, [ScalarKey(0), ScalarKey(1), ScalarKey(2)]);
    if first.Ids? && |first.ids| == 3 {
      var keys := [PointerKey(first.ids[0]), PointerKey(first.ids[1]), PointerKey(first.ids[2])];
      DeclareAllNames(first.d, keys);
      var second := DeclareAll(first.d, keys);
      if second.Ids? { NameStays(first.d, second.d, first.ids, [ScalarKey(0), ScalarKey(1), ScalarKey(2)]); }
    }
  }

  lemma PlanIsTyped(info: Info, components: map<nat, nat>, scalars: Scalars, f0: Found, f: Found)
    requires scalars.Scalars? && |scalars.types| == 3 && f0.Found? && f0.d == scalars.d
             && FoundTyped(info, components, scalars.types, f) && Extends(f0.d, f.d)
    requires Name(scalars.d, scalars.types, [ScalarKey(0), ScalarKey(1), ScalarKey(2)])
    requires Name(scalars.d, scalars.pointers,
                  [PointerKey(scalars.types[0]), PointerKey(scalars.types[1]), PointerKey(scalars.types[2])])
    ensures var plan := PlanOf(scalars, components, f); PlanTyped(f.d, plan) && ChoicesTyped(f.d, plan, f.pointers)
  {
    var plan := PlanOf(scalars, components, f);
    NameStays(scalars.d, f.d, scalars.types, [ScalarKey(0), ScalarKey(1), ScalarKey(2)]);
    NameStays(scalars.d, f.d, scalars.pointers,
              [PointerKey(scalars.types[0]), PointerKey(scalars.types[1]), PointerKey(scalars.types[2])]);
    forall id | id in plan.choices && id in f.pointers && f.pointers[id] in components
      ensures ChoiceTyped(f.d, plan, id, components[f.pointers[id]]) {
      assert Pointers(f.d, scalars.types, f.choices[id], components[info.locations[id]]);
    }
  }
}
