/** When exactly a specialization of fragment outputs is refused, told from the constants and the module. */
module FragmentRefusal {
  import opened Wrappers
  import opened Spirv
  import opened FragmentPlan
  import opened FragmentOutputs
  import opened FragmentModule
  import opened FragmentChoice

  // ----- Types and output types

  predicate DeclaresType(i: Instr, id: nat) {
    (i.op == 21 || i.op == 22 || i.op == 23 || i.op == 32) && Count(i) >= 3 && Operand(i, 1) == id
  }

  /** The first type of an id, as its opcode and what follows the id. */
  ghost predicate FirstType(instrs: seq<Instr>, id: nat, key: seq<nat>) {
    exists k :: 0 <= k < |instrs| && DeclaresType(instrs[k], id) && key == [instrs[k].op] + instrs[k].operands[1..]
                && forall j :: 0 <= j < k ==> !DeclaresType(instrs[j], id)
  }

  ghost predicate Typed(instrs: seq<Instr>, id: nat) { exists i <- instrs :: DeclaresType(i, id) }

  /** The type of the first output variable of an id. */
  ghost predicate OutputType(instrs: seq<Instr>, id: nat, pointer: nat) {
    exists k :: 0 <= k < |instrs| && IsOutputVariable(instrs[k], id) && Operand(instrs[k], 1) == pointer
                && forall j :: 0 <= j < k ==> !IsOutputVariable(instrs[j], id)
  }

  /** A pointer to an output vector of four 32-bit floats. */
  ghost predicate Float4(instrs: seq<Instr>, pointer: nat) {
    exists vector: nat, float: nat ::
      FirstType(instrs, pointer, [32, 3, vector]) && FirstType(instrs, vector, [23, float, 4])
        && FirstType(instrs, float, [22, 32])
  }

  ghost predicate IsFloat4(instrs: seq<Instr>, id: nat) {
    exists pointer: nat :: OutputType(instrs, id, pointer) && Float4(instrs, pointer)
  }

  lemma FirstTypeMore(instrs: seq<Instr>, i: Instr, id: nat, key: seq<nat>)
    ensures FirstType(instrs + [i], id, key) <==>
              || FirstType(instrs, id, key)
              || (DeclaresType(i, id) && key == [i.op] + i.operands[1..] && !Typed(instrs, id))
  {
    var more, n := instrs + [i], |instrs|;
    assert forall k :: 0 <= k < n ==> more[k] == instrs[k] && more[k] in instrs;
    if FirstType(more, id, key) {
      var k :| 0 <= k < |more| && DeclaresType(more[k], id) && key == [more[k].op] + more[k].operands[1..]
               && forall j :: 0 <= j < k ==> !DeclaresType(more[j], id);
      if k < n {
        assert DeclaresType(instrs[k], id) && forall j :: 0 <= j < k ==> !DeclaresType(instrs[j], id);
      } else {
        forall x <- instrs ensures !DeclaresType(x, id) {
          var j :| 0 <= j < n && instrs[j] == x;
          assert !DeclaresType(more[j], id);
        }
      }
    }
    if FirstType(instrs, id, key) {
      var k :| 0 <= k < n && DeclaresType(instrs[k], id) && key == [instrs[k].op] + instrs[k].operands[1..]
               && forall j :: 0 <= j < k ==> !DeclaresType(instrs[j], id);
      assert DeclaresType(more[k], id) && forall j :: 0 <= j < k ==> !DeclaresType(more[j], id);
    }
    if DeclaresType(i, id) && key == [i.op] + i.operands[1..] && !Typed(instrs, id) {
      assert DeclaresType(more[n], id) && forall j :: 0 <= j < n ==> !DeclaresType(more[j], id);
    }
  }

  lemma TypedMore(instrs: seq<Instr>, i: Instr, id: nat)
    ensures Typed(instrs + [i], id) <==> Typed(instrs, id) || DeclaresType(i, id)
  {
    var more := instrs + [i];
    assert i in more;
    if Typed(instrs, id) {
      var x :| x in instrs && DeclaresType(x, id);
      assert x in more;
    }
  }

  lemma OutputTypeMore(instrs: seq<Instr>, i: Instr, id: nat, pointer: nat)
    ensures OutputType(instrs + [i], id, pointer) <==>
              || OutputType(instrs, id, pointer)
              || (IsOutputVariable(i, id) && Operand(i, 1) == pointer && !Written(instrs, id))
  {
    var more, n := instrs + [i], |instrs|;
    assert forall k :: 0 <= k < n ==> more[k] == instrs[k] && more[k] in instrs;
    if OutputType(more, id, pointer) {
      var k :| 0 <= k < |more| && IsOutputVariable(more[k], id) && Operand(more[k], 1) == pointer
               && forall j :: 0 <= j < k ==> !IsOutputVariable(more[j], id);
      if k < n {
        assert IsOutputVariable(instrs[k], id) && forall j :: 0 <= j < k ==> !IsOutputVariable(instrs[j], id);
      } else {
        forall x <- instrs ensures !IsOutputVariable(x, id) {
          var j :| 0 <= j < n && instrs[j] == x;
          assert !IsOutputVariable(more[j], id);
        }
      }
    }
    if OutputType(instrs, id, pointer) {
      var k :| 0 <= k < n && IsOutputVariable(instrs[k], id) && Operand(instrs[k], 1) == pointer
               && forall j :: 0 <= j < k ==> !IsOutputVariable(instrs[j], id);
      assert IsOutputVariable(more[k], id) && forall j :: 0 <= j < k ==> !IsOutputVariable(more[j], id);
    }
    if IsOutputVariable(i, id) && Operand(i, 1) == pointer && !Written(instrs, id) {
      assert IsOutputVariable(more[n], id) && forall j :: 0 <= j < n ==> !IsOutputVariable(more[j], id);
    }
  }

  /** The scan finds the first type of every id and the type of every output. */
  ghost predicate TypesSo(instrs: seq<Instr>, info: Info, id: nat) {
    && (id in info.typeKeys <==> Typed(instrs, id))
    && (id in info.typeKeys ==> FirstType(instrs, id, info.typeKeys[id]))
    && (id in info.outputs <==> Written(instrs, id))
    && (id in info.outputs ==> OutputType(instrs, id, info.outputs[id]))
  }

  lemma ScanTypes(info: Info, i: Instr, id: nat)
    ensures var next := Scan(info, i);
            && (id in next.typeKeys <==> id in info.typeKeys || DeclaresType(i, id))
            && (id in next.typeKeys ==> next.typeKeys[id] == if id in info.typeKeys then info.typeKeys[id]
                else [i.op] + i.operands[1..])
            && (id in next.outputs <==> id in info.outputs || IsOutputVariable(i, id))
            && (id in next.outputs ==> next.outputs[id] == if id in info.outputs then info.outputs[id]
                else Operand(i, 1))
  {
  }

  lemma TypesMore(front: seq<Instr>, i: Instr, info: Info, id: nat)
    requires TypesSo(front, info, id)
    ensures TypesSo(front + [i], Scan(info, i), id)
  {
    var next := Scan(info, i);
    ScanTypes(info, i, id);
    TypedMore(front, i, id);
    AnyMore(front, i, id);
    if id in next.typeKeys { FirstTypeMore(front, i, id, next.typeKeys[id]); }
    if id in next.outputs { OutputTypeMore(front, i, id, next.outputs[id]); }
  }

  lemma {:induction false} TypesMean(instrs: seq<Instr>, id: nat)
    ensures TypesSo(instrs, ScanAll(instrs), id)
    decreases |instrs|
  {
    if instrs != [] {
      var n := |instrs| - 1;
      var front, i := instrs[..n], instrs[n];
      assert instrs == front + [i];
      TypesMean(front, id);
      ScanMore(front, i, Info(map[], {}, map[], map[], map[]));
      TypesMore(front, i, ScanAll(front), id);
    }
  }

  lemma FirstTypeOnce(instrs: seq<Instr>, id: nat, a: seq<nat>, b: seq<nat>)
    requires FirstType(instrs, id, a) && FirstType(instrs, id, b)
    ensures a == b
  {
  }

  lemma KeyMeans(instrs: seq<Instr>, id: nat, key: seq<nat>)
    requires key != []
    ensures Key(ScanAll(instrs), id) == key <==> FirstType(instrs, id, key)
  {
    TypesMean(instrs, id);
    if FirstType(instrs, id, key) {
      var k :| 0 <= k < |instrs| && DeclaresType(instrs[k], id) && key == [instrs[k].op] + instrs[k].operands[1..]
               && forall j :: 0 <= j < k ==> !DeclaresType(instrs[j], id);
      assert instrs[k] in instrs;
      FirstTypeOnce(instrs, id, key, ScanAll(instrs).typeKeys[id]);
    }
  }

  lemma Float4Means(instrs: seq<Instr>, pointer: nat)
    ensures FloatVectorPointer(ScanAll(instrs), pointer) <==> Float4(instrs, pointer)
  {
    var info := ScanAll(instrs);
    var outer := Key(info, pointer);
    if FloatVectorPointer(info, pointer) {
      var vector := Key(info, outer[2]);
      assert outer == [32, 3, outer[2]] && vector == [23, vector[1], 4];
      KeyMeans(instrs, pointer, outer);
      KeyMeans(instrs, outer[2], vector);
      KeyMeans(instrs, vector[1], [22, 32]);
    }
    if Float4(instrs, pointer) {
      var vector: nat, float: nat :| FirstType(instrs, pointer, [32, 3, vector])
          && FirstType(instrs, vector, [23, float, 4]) && FirstType(instrs, float, [22, 32]);
      KeyMeans(instrs, pointer, [32, 3, vector]);
      KeyMeans(instrs, vector, [23, float, 4]);
      KeyMeans(instrs, float, [22, 32]);
    }
  }

  lemma IsFloat4Means(instrs: seq<Instr>, id: nat)
    requires Written(instrs, id)
    ensures id in ScanAll(instrs).outputs && (FloatVectorPointer(ScanAll(instrs), ScanAll(instrs).outputs[id]) <==>
                                              IsFloat4(instrs, id))
  {
    TypesMean(instrs, id);
    var own := ScanAll(instrs).outputs[id];
    Float4Means(instrs, own);
    if IsFloat4(instrs, id) {
      var pointer: nat :| OutputType(instrs, id, pointer) && Float4(instrs, pointer);
      OutputTypeOnce(instrs, id, pointer, own);
    }
  }

  lemma OutputTypeOnce(instrs: seq<Instr>, id: nat, a: nat, b: nat)
    requires OutputType(instrs, id, a) && OutputType(instrs, id, b)
    ensures a == b
  {
  }

  // ----- What is refused

  /** A flag above one, or a route code with stray bits or without the lowest one. */
  predicate BadConstant(c: Constant) {
    || (c.id == 8232 && c.value > 1) || (8224 <= c.id < 8232 && c.value > 1)
    || (c.id == 8236 && c.value != 0 && (c.value % 2 == 0 || c.value % 256 != 1 || c.value >= 0x100_0000))
  }

  lemma {:induction false} RequestedExactly(constants: seq<Constant>, request: Request)
    ensures Requested(constants, request).None? <==> exists c <- constants :: BadConstant(c)
    decreases |constants|
  {
    if constants != [] {
      var c, rest := constants[0], constants[1..];
      assert constants == [c] + rest;
      NoteExactly(request, c);
      if Note(request, c).Some? { RequestedExactly(rest, Note(request, c).value); }
    }
  }

  lemma NoteExactly(request: Request, c: Constant)
    ensures Note(request, c).None? <==> BadConstant(c)
  {
    if c.id == 8236 { CodeBits(c.value); }
  }

  lemma CodeBits(code: nat)
    ensures ValidCode(code) <==> code == 0 || (code % 256 == 1 && code < 0x100_0000)
  {
    assert code == 2 * (code / 2) + code % 2;
    assert code / 2 == 128 * (code / 2 / 128) + code / 2 % 128;
  }

  /** Two outputs at one location. */
  ghost predicate Shared(instrs: seq<Instr>, location: nat) {
    exists a, b :: a != b && OutputFor(instrs, a, location) && OutputFor(instrs, b, location)
  }

  lemma TwoOf(ids: set<nat>)
    ensures |ids| > 1 <==> exists a, b :: a != b && a in ids && b in ids
  {
    if |ids| > 1 {
      var a :| a in ids;
      assert |ids - {a}| == |ids| - 1;
      var b :| b in ids - {a};
    }
    if exists a, b :: a != b && a in ids && b in ids {
      var a, b :| a != b && a in ids && b in ids;
      assert |ids - {a} - {b}| == |ids| - 2;
    }
  }

  lemma OutputAtExactly(instrs: seq<Instr>, location: nat)
    ensures OutputAt(ScanAll(instrs), location).None? <==> Shared(instrs, location)
  {
    AtLocationMeans(instrs, location);
    TwoOf(AtLocation(ScanAll(instrs), location));
  }

  /** An output to pack that has no packing path, no float4 type, or shares its location. */
  ghost predicate BadPacking(instrs: seq<Instr>, specialized: set<nat>, location: nat) {
    || Shared(instrs, location)
    || exists id :: OutputFor(instrs, id, location) && (8224 + location !in specialized || !IsFloat4(instrs, id))
  }

  lemma {:induction false} RetypedExactly(instrs: seq<Instr>, packed: set<nat>, specialized: set<nat>, from: nat)
    requires from <= 8
    ensures Retyped(ScanAll(instrs), packed, specialized, from).None? <==>
              exists location :: from <= location < 8 && location in packed && BadPacking(instrs, specialized, location)
    decreases 8 - from
  {
    if from < 8 {
      RetypedExactly(instrs, packed, specialized, from + 1);
      if from in packed { PackingExactly(instrs, specialized, from); }
    }
  }

  /** One location. */
  lemma PackingExactly(instrs: seq<Instr>, specialized: set<nat>, location: nat)
    ensures BadPacking(instrs, specialized, location) <==>
              match OutputAt(ScanAll(instrs), location)
              case None => true
              case Some(id) => id != 0 && (EXPORT_PACKING_BASE + location !in specialized
                                           || !FloatVectorPointer(ScanAll(instrs), ScanAll(instrs).outputs[id]))
  {
    OutputAtExactly(instrs, location);
    if OutputAt(ScanAll(instrs), location).Some? {
      OutputAtMeans(instrs, location);
      var id := OutputAt(ScanAll(instrs), location).value;
      if id != 0 {
        assert OutputFor(instrs, id, location);
        IsFloat4Means(instrs, id);
      }
    }
  }

  /** The second source shares its location or is to be packed itself. */
  ghost predicate BadSecond(constants: seq<Constant>, instrs: seq<Instr>) {
    LastValue(constants, 8232) != 0
      && (Shared(instrs, 1) || exists id :: OutputFor(instrs, id, 1) && ToPack(constants, instrs, id))
  }

  /** Reversed blending needs one float4 output at location zero, not packed, no other output with a location, and no
      second source. */
  ghost predicate BadBlend(constants: seq<Constant>, instrs: seq<Instr>) {
    LastValue(constants, 8236) != 0 &&
    (|| LastValue(constants, 8232) != 0 || Shared(instrs, 0) || (forall id :: !OutputFor(instrs, id, 0))
     || exists id :: OutputFor(instrs, id, 0)
                     && (ToPack(constants, instrs, id) || !IsFloat4(instrs, id)
                         || exists other: nat :: other != id && Written(instrs, other) && Given(instrs, other)))
  }

  ghost predicate BadRequest(constants: seq<Constant>, specialized: set<nat>, instrs: seq<Instr>) {
    || (exists location: nat :: PackAsked(constants, location) && BadPacking(instrs, specialized, location))
    || BadSecond(constants, instrs) || BadBlend(constants, instrs)
  }

  // ----- Ids can run out

  /** An id for a type, the next one if the module has none, and the next one after it. */
  function Take(types: map<seq<nat>, nat>, next: nat, key: seq<nat>): (nat, nat) {
    if key in types then (types[key], next) else (next, next + 1)
  }

  /** The next id after the three types of packed outputs. */
  function AfterTypes(types: map<seq<nat>, nat>, next: nat): nat {
    var (word, n1) := Take(types, next, [21, 32, 0]);
    var (vector, n2) := Take(types, n1, [23, word, 4]);
    Take(types, n2, [32, 3, vector]).1
  }

  lemma TypesRunOut(types: map<seq<nat>, nat>, next: nat)
    requires next <= MAX_ID
    ensures var r := PackedTypes(Declared(types, next, []));
            if AfterTypes(types, next) > MAX_ID then r.NoPackedIds?
            else r.PackedIds? && r.d.bound == AfterTypes(types, next)
  {
    var d := Declared(types, next, []);
    var word := Declare(d, [21, 32, 0]);
    if word.Id? { var vector := Declare(word.d, [23, word.id, 4]); }
  }

  /** Too few ids are left for the types, or for the two constants and the variable of blending. */
  ghost predicate OutOfIds(constants: seq<Constant>, instrs: seq<Instr>, next: nat) {
    var after := if exists id :: ToPack(constants, instrs, id) then AfterTypes(ScanAll(instrs).types, next) else next;
    after > MAX_ID || (LastValue(constants, 8236) != 0 && after + 3 > MAX_ID)
  }

  // ----- The plan is refused exactly then

  lemma PackingRefused(constants: seq<Constant>, specialized: set<nat>, instrs: seq<Instr>, request: Request)
    requires Requested(constants) == Some(request)
    ensures Retyped(ScanAll(instrs), request.packed, specialized).None? <==>
              exists location: nat :: PackAsked(constants, location) && BadPacking(instrs, specialized, location)
    ensures Retyped(ScanAll(instrs), request.packed, specialized).Some? ==>
              forall id :: id in Retyped(ScanAll(instrs), request.packed, specialized).value <==>
                  ToPack(constants, instrs, id)
  {
    RequestMeans(constants);
    RetypedExactly(instrs, request.packed, specialized, 0);
    if Retyped(ScanAll(instrs), request.packed, specialized).Some? {
      RetypedMeans(instrs, request.packed, specialized, 0);
      var ids := Retyped(ScanAll(instrs), request.packed, specialized).value;
      forall id ensures id in ids <==> ToPack(constants, instrs, id) {
        if ToPack(constants, instrs, id) {
          var location: nat :| PackAsked(constants, location) && OutputFor(instrs, id, location);
          assert PackedFrom(instrs, request.packed, 0, id);
        }
      }
    }
  }

  lemma SecondRefused(constants: seq<Constant>, instrs: seq<Instr>, retyped: set<nat>)
    requires LastValue(constants, 8232) != 0 && forall id :: id in retyped <==> ToPack(constants, instrs, id)
    ensures var second := OutputAt(ScanAll(instrs), 1);
            BadSecond(constants, instrs) <==> second.None? || second.value in retyped
  {
    OutputAtExactly(instrs, 1);
    var second := OutputAt(ScanAll(instrs), 1);
    if second.Some? {
      OutputAtMeans(instrs, 1);
      if second.value == 0 { NeverZero(constants, instrs); } else { assert OutputFor(instrs, second.value, 1); }
    }
  }

  lemma NeverZero(constants: seq<Constant>, instrs: seq<Instr>)
    ensures !ToPack(constants, instrs, 0)
  {
  }

  lemma BlendRefused(constants: seq<Constant>, instrs: seq<Instr>, request: Request, retyped: set<nat>)
    requires Requested(constants) == Some(request) && forall id :: id in retyped <==> ToPack(constants, instrs, id)
    ensures Blended(ScanAll(instrs), request, retyped).None? <==> BadBlend(constants, instrs)
  {
    var info, own := ScanAll(instrs), OutputAt(ScanAll(instrs), 0);
    RequestMeans(constants);
    OutputAtExactly(instrs, 0);
    if request.reversed != 0 && !request.dualSource && own.Some? {
      OutputAtMeans(instrs, 0);
      if own.value != 0 {
        assert OutputFor(instrs, own.value, 0);
        IsFloat4Means(instrs, own.value);
        OthersMean(instrs, own.value);
      }
    }
  }

  lemma OthersMean(instrs: seq<Instr>, id: nat)
    ensures var info := ScanAll(instrs);
            (exists other <- info.outputs :: other != id && other in info.locations) <==>
              exists other: nat :: other != id && Written(instrs, other) && Given(instrs, other)
  {
    forall other: nat ensures OtherOutput(ScanAll(instrs), other) <==> Written(instrs, other) && Given(instrs, other) {
      ScanMeans(instrs, other);
    }
    SomeOther(ScanAll(instrs), id);
    if exists other: nat :: other != id && OtherOutput(ScanAll(instrs), other) {
      var other: nat :| other != id && OtherOutput(ScanAll(instrs), other);
      assert Written(instrs, other) && Given(instrs, other);
    }
    if exists other: nat :: other != id && Written(instrs, other) && Given(instrs, other) {
      var other: nat :| other != id && Written(instrs, other) && Given(instrs, other);
      assert OtherOutput(ScanAll(instrs), other);
    }
  }

  predicate OtherOutput(info: Info, other: nat) { other in info.outputs && other in info.locations }

  lemma SomeOther(info: Info, id: nat)
    ensures (exists other <- info.outputs :: other != id && other in info.locations) <==>
            exists other: nat :: other != id && OtherOutput(info, other)
  {
    if exists other <- info.outputs :: other != id && other in info.locations {
      var other :| other in info.outputs && other != id && other in info.locations;
      assert OtherOutput(info, other);
    }
    if exists other: nat :: other != id && OtherOutput(info, other) {
      var other: nat :| other != id && OtherOutput(info, other);
      assert other in info.outputs;
    }
  }

  /** The ways to a refusal, one after another. */
  lemma RefusalParts(info: Info, request: Request, specialized: set<nat>, next: nat)
    requires next <= MAX_ID
    ensures MakePlan(info, request, specialized, next).Refused? <==>
              match Retyped(info, request.packed, specialized)
              case None => true
              case Some(retyped) =>
                || (request.dualSource && (OutputAt(info, 1).None? || OutputAt(info, 1).value in retyped))
                || (!request.dualSource && 0 in retyped) || Blended(info, request, retyped).None?
                || NoIds(info, retyped != {}, Blended(info, request, retyped).value != 0, next)
  {
    TypesRunOut(info.types, next);
  }

  predicate NoIds(info: Info, packs: bool, blends: bool, next: nat) {
    var after := if packs then AfterTypes(info.types, next) else next;
    after > MAX_ID || (blends && after + 3 > MAX_ID)
  }

  /** The plan is refused exactly for a bad request and when ids run out. */
  lemma PlanRefused(constants: seq<Constant>, specialized: set<nat>, instrs: seq<Instr>, request: Request, next: nat)
    requires Requested(constants) == Some(request) && next <= MAX_ID
    ensures MakePlan(ScanAll(instrs), request, specialized, next).Refused? <==>
              BadRequest(constants, specialized, instrs) || OutOfIds(constants, instrs, next)
  {
    var info := ScanAll(instrs);
    var retyped := Retyped(info, request.packed, specialized);
    RequestMeans(constants);
    RefusalParts(info, request, specialized, next);
    PackingRefused(constants, specialized, instrs, request);
    if retyped.Some? {
      if request.dualSource { SecondRefused(constants, instrs, retyped.value); } else { NeverZero(constants, instrs); }
      BlendRefused(constants, instrs, request, retyped.value);
      IdsRefused(constants, instrs, request, retyped.value, next);
    }
  }

  lemma IdsRefused(constants: seq<Constant>, instrs: seq<Instr>, request: Request, retyped: set<nat>, next: nat)
    requires Requested(constants) == Some(request) && forall id :: id in retyped <==> ToPack(constants, instrs, id)
    ensures var info := ScanAll(instrs);
            Blended(info, request, retyped).Some? ==>
              (NoIds(info, retyped != {}, Blended(info, request, retyped).value != 0, next) <==>
               OutOfIds(constants, instrs, next))
  {
    RequestMeans(constants);
    assert retyped == {} <==> !exists id :: ToPack(constants, instrs, id);
  }

  // ----- The whole module

  /** Some pass-through of an instruction is impossible wherever the ids have got to. */
  ghost predicate Unfit(plan: Plan, i: Instr) {
    || (IsPackedVariable(plan, i) && Count(i) != 4)
    || (!IsPackedVariable(plan, i) && UsesOutput(i, plan) && !NamesOnly(plan, i))
  }

  /** A pointer to a packed or blended output, loaded, offset or copied. */
  ghost predicate UsesOutput(i: Instr, plan: Plan) {
    exists id :: (id in plan.retyped || (plan.blended != 0 && id == plan.blended))
                 && (|| ((i.op == 61 || i.op == 65 || i.op == 66 || i.op == 67 || i.op == 70 || i.op == 83)
                         && Operand(i, 3) == id)
                     || ((i.op == 63 || i.op == 64) && (Operand(i, 1) == id || Operand(i, 2) == id)))
  }

  /** A location decoration, an entry point, or a whole store. */
  ghost predicate NamesOnly(plan: Plan, i: Instr) { i.op == 71 || i.op == 15 || i.op == 62 }

  /** The ids an instruction takes. */
  function IdsTaken(plan: Plan, i: Instr): nat {
    if IsPackedStore(plan, i) then 1
    else if IsBlendedStore(plan, i) then (if plan.reversed / 256 % 256 == 0 then 5 else 6)
    else 0
  }

  /** An instruction cannot be rewritten exactly if it is unfit or the ids it takes run out. */
  lemma ThrowsExactly(plan: Plan, i: Instr, bound: nat)
    requires bound <= MAX_ID && (plan.blended != 0 ==> plan.blended !in plan.retyped)
    ensures Expand(plan, i, bound).Throws? <==> Unfit(plan, i)
                                                || (IdsTaken(plan, i) > 0 && bound + IdsTaken(plan, i) > MAX_ID)
    ensures Expand(plan, i, bound).Expansion? ==> Expand(plan, i, bound).bound == bound + IdsTaken(plan, i)
  {
  }

  function TakenByAll(plan: Plan, instrs: seq<Instr>): nat {
    if instrs == [] then 0 else IdsTaken(plan, instrs[0]) + TakenByAll(plan, instrs[1..])
  }

  /** Some instruction is unfit, or the ids that rewriting takes run out. */
  ghost predicate CannotRewrite(plan: Plan, instrs: seq<Instr>, bound: nat) {
    (exists i <- instrs :: Unfit(plan, i)) || bound + TakenByAll(plan, instrs) > MAX_ID
  }

  lemma {:induction false} RewritesExactly(plan: Plan, instrs: seq<Instr>, bound: nat)
    requires bound <= MAX_ID && (plan.blended != 0 ==> plan.blended !in plan.retyped)
    ensures AllExpand(Expansions(ExpanderOf(plan), instrs, bound)) <==> !CannotRewrite(plan, instrs, bound)
    decreases |instrs|
  {
    if instrs != [] {
      var i, rest, e := instrs[0], instrs[1..], Expand(plan, instrs[0], bound);
      ThrowsExactly(plan, i, bound);
      var next := if e.Throws? then bound else e.bound;
      var es := Expansions(ExpanderOf(plan), rest, next);
      assert Expansions(ExpanderOf(plan), instrs, bound) == [e] + es;
      ExpandBoth(e, es);
      assert instrs == [i] + rest;
      if e.Expansion? { RewritesExactly(plan, rest, next); }
    }
  }

  lemma ExpandBoth(e: Expansion, es: seq<Expansion>)
    ensures AllExpand([e] + es) <==> e.Expansion? && AllExpand(es)
  {
    if AllExpand([e] + es) {
      assert e in [e] + es;
      forall x <- es ensures x.Expansion? { assert x in [e] + es; }
    }
  }

  /** There is something to do. */
  predicate Asks(constants: seq<Constant>) {
    (exists c <- constants :: 8224 <= c.id < 8232 && c.value == 1) || LastValue(constants, 8232) != 0
      || LastValue(constants, 8236) != 0
  }

  ghost function RequestOf(constants: seq<Constant>): Request {
    Request((set location: nat | location < 8 && PackAsked(constants, location)), LastValue(constants, 8232) != 0,
            LastValue(constants, 8236))
  }

  lemma RequestIs(constants: seq<Constant>)
    requires Requested(constants).Some?
    ensures Requested(constants).value == RequestOf(constants)
  {
    RequestMeans(constants);
    assert Requested(constants).value.packed == RequestOf(constants).packed;
  }

  /** A module that cannot be rewritten: no stream, a bad request, too few ids, an unfit instruction, or no function. */
  ghost predicate BadModule(words: seq<nat>, constants: seq<Constant>, specialized: set<nat>) {
    || |words| < 5 || words[0] != 0x0723_0203 || Parse(words[5..]).None?
    || var instrs := Parse(words[5..]).value;
       || BadRequest(constants, specialized, instrs) || OutOfIds(constants, instrs, words[3])
       || var planned := MakePlan(ScanAll(instrs), RequestOf(constants), specialized, words[3]);
          planned.Ready? && (CannotRewrite(planned.plan, instrs, planned.bound) || forall i <- instrs :: i.op != 54)
  }

  /** Specialization fails exactly for a bad constant, or when something is asked of a module that cannot be
      rewritten. */
  lemma SpecializedRefused(words: seq<nat>, constants: seq<Constant>, specialized: set<nat>)
    requires Words32(words)
    ensures Specialized(words, constants, specialized).None? <==>
              || (exists c <- constants :: BadConstant(c))
              || (Asks(constants) && BadModule(words, constants, specialized))
  {
    RequestedExactly(constants, Request({}, false, 0));
    if Requested(constants).Some? {
      var request := Requested(constants).value;
      AsksExactly(constants);
      RequestIs(constants);
      if Asks(constants) && |words| >= 5 && words[0] == 0x0723_0203 && Parse(words[5..]).Some? {
        var instrs := Parse(words[5..]).value;
        assert words[3] in words;
        PlanRefused(constants, specialized, instrs, request, words[3]);
        if MakePlan(ScanAll(instrs), request, specialized, words[3]).Ready? {
          ReadyRewrites(ScanAll(instrs), request, specialized, words[3], instrs);
        }
      }
    }
  }

  lemma AsksExactly(constants: seq<Constant>)
    requires Requested(constants).Some?
    ensures var request := Requested(constants).value;
            Asks(constants) <==> request.packed != {} || request.dualSource || request.reversed != 0
  {
    var request := Requested(constants).value;
    RequestMeans(constants);
    if request.packed != {} {
      var location :| location in request.packed;
      assert PackAsked(constants, location);
    }
    if exists c <- constants :: 8224 <= c.id < 8232 && c.value == 1 {
      var c :| c in constants && 8224 <= c.id < 8232 && c.value == 1;
      assert PackAsked(constants, c.id - 8224);
    }
  }

  lemma {:induction false} FunctionExactly(instrs: seq<Instr>)
    ensures FirstFunction(instrs) == |instrs| <==> forall i <- instrs :: i.op != 54
    decreases |instrs|
  {
    if instrs != [] {
      assert instrs == [instrs[0]] + instrs[1..];
      FunctionExactly(instrs[1..]);
    }
  }

  lemma ReadyRewrites(info: Info, request: Request, specialized: set<nat>, next: nat, instrs: seq<Instr>)
    requires MakePlan(info, request, specialized, next).Ready? && next <= MAX_ID
    ensures var r := MakePlan(info, request, specialized, next);
            var pass := Rewrite(r.plan, ExpanderOf(r.plan), Pass([], r.bound, false, r.plan.variables), instrs);
            (pass.Pass? && pass.inserted) <==> !CannotRewrite(r.plan, instrs, r.bound)
                                               && exists i <- instrs :: i.op == 54
  {
    var r := MakePlan(info, request, specialized, next);
    ExpanderDrops(r.plan);
    RewriteShape(r.plan, ExpanderOf(r.plan), instrs, r.bound);
    TypesRunOut(info.types, next);
    RewritesExactly(r.plan, instrs, r.bound);
    FunctionExactly(instrs);
  }
}
