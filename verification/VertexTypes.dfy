/** The types a vertex preparation works with: each is the module's own or among the declarations it adds; and the
inputs it finds: exactly the decorated input variables. */
module VertexTypes {
  import opened Spirv
  import opened FragmentPlan
  import opened VertexPreparation

  // ----- Types

  /** Added instructions are type declarations under consecutive ids, and account for all types that are not the
      module's. */
  ghost predicate Accounted(types: map<seq<nat>, nat>, bound: nat, d: Declared) {
    TypesDeclared(types, d) && Numbered(d.added, bound) && d.bound == bound + |d.added| && AllTypes(d.added)
  }

  ghost predicate AllTypes(instrs: seq<Instr>) { forall i <- instrs :: IsType(i.op) && Fits(i) }

  predicate TypeLike(key: seq<nat>) { key != [] && IsType(key[0]) && |key| < 100 }

  lemma DeclareAccounts(types: map<seq<nat>, nat>, bound: nat, d: Declared, key: seq<nat>)
    requires Accounted(types, bound, d) && TypeLike(key)
    ensures Declare(d, key).Id? ==> Accounted(types, bound, Declare(d, key).d)
  {
    DeclareKeeps(types, bound, d, key);
  }

  lemma {:induction false} DeclareAllAccounts(types: map<seq<nat>, nat>, bound: nat, d: Declared, keys: seq<seq<nat>>)
    requires Accounted(types, bound, d) && forall k :: 0 <= k < |keys| ==> keys[k] != [] && TypeLike(keys[k])
    ensures DeclareAll(d, keys).Ids? ==> Accounted(types, bound, DeclareAll(d, keys).d)
    decreases |keys|
  {
    if keys != [] {
      DeclareAccounts(types, bound, d, keys[0]);
      var first := Declare(d, keys[0]);
      if first.Id? { DeclareAllAccounts(types, bound, first.d, keys[1..]); }
    }
  }

  lemma ScalarsAccounted(types: map<seq<nat>, nat>, bound: nat, d: Declared)
    requires Accounted(types, bound, d)
    ensures DeclareScalars(d).Scalars? ==> Accounted(types, bound, DeclareScalars(d).d)
  {
    var scalars := [ScalarKey(0), ScalarKey(1), ScalarKey(2)];
    DeclareAllAccounts(types, bound, d, scalars);
    var first := DeclareAll(d, scalars);
    if first.Ids? && |first.ids| == 3 { PointersAccounted(types, bound, first.d, first.ids); }
  }

  lemma PointersAccounted(types: map<seq<nat>, nat>, bound: nat, d: Declared, ids: seq<nat>)
    requires Accounted(types, bound, d) && |ids| == 3
    ensures var r := DeclareAll(d, [PointerKey(ids[0]), PointerKey(ids[1]), PointerKey(ids[2])]);
            r.Ids? ==> Accounted(types, bound, r.d)
  {
    DeclareAllAccounts(types, bound, d, [PointerKey(ids[0]), PointerKey(ids[1]), PointerKey(ids[2])]);
  }

  lemma {:induction false} InputPointersAccounted(types: map<seq<nat>, nat>, bound: nat, d: Declared, scalars: seq<nat>,
                                                  components: nat, k: nat)
    requires Accounted(types, bound, d) && |scalars| == 3 && k <= 3
    ensures var r := InputPointersFrom(d, scalars, components, k); r.Ids? ==> Accounted(types, bound, r.d)
    decreases 3 - k
  {
    if k < 3 {
      DeclareAccounts(types, bound, d, [OpTypeVector, scalars[k], components]);
      var target := if components == 1 then Id(scalars[k], d) else Declare(d, [OpTypeVector, scalars[k], components]);
      if target.Id? {
        DeclareAccounts(types, bound, target.d, PointerKey(target.id));
        var pointer := Declare(target.d, PointerKey(target.id));
        if pointer.Id? { InputPointersAccounted(types, bound, pointer.d, scalars, components, k + 1); }
      }
    }
  }

  // ----- Inputs

  /** The input variables of a module, in order. */
  function InputsOf(info: Info, components: map<nat, nat>, instrs: seq<Instr>): seq<Instr>
    decreases |instrs|
  {
    if instrs == [] then []
    else (if IsInput(info, components, instrs[0]) then [instrs[0]] else []) + InputsOf(info, components, instrs[1..])
  }

  /** The locations of the input variables: those their decorations name. */
  function Locations(info: Info, variables: seq<Instr>): map<nat, nat>
    requires forall i <- variables :: Operand(i, 2) in info.locations
  {
    map id | id in IdsOf(variables) :: if id in info.locations then info.locations[id] else 0
  }

  function IdsOf(variables: seq<Instr>): set<nat> { set i <- variables :: Operand(i, 2) }

  lemma {:induction false} InputsAre(info: Info, components: map<nat, nat>, instrs: seq<Instr>)
    ensures forall i :: i in InputsOf(info, components, instrs) <==> i in instrs && IsInput(info, components, i)
    decreases |instrs|
  {
    if instrs != [] {
      InputsAre(info, components, instrs[1..]);
      assert instrs == [instrs[0]] + instrs[1..];
    }
  }

  /** What has been found after some variables. */
  ghost predicate FoundSo(info: Info, components: map<nat, nat>, bound: nat, f: Found, variables: seq<Instr>) {
    && f.Found? && f.variables == variables && Accounted(info.types, bound, f.d)
    && (forall i <- variables :: IsInput(info, components, i))
    && f.choices.Keys == IdsOf(variables) && f.pointers == Locations(info, variables)
  }

  /** What is known after one more input. */
  function Noted(info: Info, components: map<nat, nat>, types: seq<nat>, f: Found, i: Instr): Found
    requires f.Found? && IsInput(info, components, i) && |types| == 3
  {
    var id := Operand(i, 2);
    match InputPointers(f.d, types, components[info.locations[id]])
    case NoIds => NotFound
    case Ids(pointers, d) => Found(d, f.choices[id := pointers], Emplace(f.pointers, id, info.locations[id]),
                                   f.variables + [i])
  }

  lemma FindUnfolds(info: Info, components: map<nat, nat>, types: seq<nat>, f: Found, instrs: seq<Instr>)
    requires f.Found? && |types| == 3 && instrs != []
    ensures Find(info, components, types, f, instrs) ==
            Find(info, components, types, if IsInput(info, components, instrs[0])
                 then Noted(info, components, types, f, instrs[0]) else f, instrs[1..])
  {
  }

  lemma NoteSo(info: Info, components: map<nat, nat>, types: seq<nat>, bound: nat, f: Found, variables: seq<Instr>,
               i: Instr)
    requires FoundSo(info, components, bound, f, variables) && IsInput(info, components, i) && |types| == 3
    ensures var r := Noted(info, components, types, f, i);
            r.Found? ==> FoundSo(info, components, bound, r, variables + [i])
  {
    var id := Operand(i, 2);
    InputPointersAccounted(info.types, bound, f.d, types, components[info.locations[id]], 0);
    var all := variables + [i];
    forall x <- all ensures IsInput(info, components, x) { assert x in variables || x == i; }
    OneMoreId(variables, i);
    assert Locations(info, all) == Emplace(f.pointers, id, info.locations[id]);
  }

  lemma OneMoreId(variables: seq<Instr>, i: Instr)
    ensures IdsOf(variables + [i]) == IdsOf(variables) + {Operand(i, 2)}
  {
    var all := variables + [i];
    forall x ensures x in IdsOf(all) <==> x in IdsOf(variables) + {Operand(i, 2)} {
      if x in IdsOf(variables) { var y :| y in variables && Operand(y, 2) == x; assert y in all; }
      if x == Operand(i, 2) { assert i in all; }
    }
  }

  lemma InputsUnfold(info: Info, components: map<nat, nat>, variables: seq<Instr>, instrs: seq<Instr>)
    requires instrs != []
    ensures variables + InputsOf(info, components, instrs) ==
            (if IsInput(info, components, instrs[0]) then variables + [instrs[0]]
             else variables) + InputsOf(info, components, instrs[1..])
  {
    var i, rest := instrs[0], InputsOf(info, components, instrs[1..]);
    assert variables + ([i] + rest) == variables + [i] + rest && [] + rest == rest;
  }

  /** `total` are the variables so far and those among the instructions to come. */
  lemma {:induction false} FindSo(info: Info, components: map<nat, nat>, types: seq<nat>, bound: nat, f: Found,
                                  variables: seq<Instr>, instrs: seq<Instr>, r: Found, total: seq<Instr>)
    requires FoundSo(info, components, bound, f, variables) && |types| == 3
    requires r == Find(info, components, types, f, instrs) && total == variables + InputsOf(info, components, instrs)
    ensures r.Found? ==> FoundSo(info, components, bound, r, total)
    decreases |instrs|
  {
    if instrs == [] {
      assert total == variables;
    } else {
      FindUnfolds(info, components, types, f, instrs);
      InputsUnfold(info, components, variables, instrs);
      if IsInput(info, components, instrs[0]) {
        NoteSo(info, components, types, bound, f, variables, instrs[0]);
        var next := Noted(info, components, types, f, instrs[0]);
        if next.Found? { FindSo(info, components, types, bound, next, variables + [instrs[0]], instrs[1..], r, total); }
      } else {
        FindSo(info, components, types, bound, f, variables, instrs[1..], r, total);
      }
    }
  }
}
