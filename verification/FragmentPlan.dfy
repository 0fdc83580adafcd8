/** What specializing a fragment shader's outputs needs to know: which outputs are packed, which one is the second
blend source, which one is blended in reversed order, and the types and ids to use. */
module FragmentPlan {
  import opened Wrappers
  import opened Spirv

  const EXPORT_PACKING_BASE: nat := 8224
  const DUAL_SOURCE_BLEND: nat := 8232
  const REVERSED_BLEND: nat := 8236
  const MAX_ID: nat := 0xFFFF_FFFF
  const FLOAT_ONE: nat := 0x3F80_0000

  // ----- The request

  datatype Constant = Constant(id: nat, value: nat)

  datatype Request = Request(packed: set<nat>, dualSource: bool, reversed: nat)

  /** A route code: the enable bit, four routes of two bits from bit 8 on and four from bit 16 on. */
  predicate ValidCode(code: nat) { code == 0 || (code % 2 == 1 && code / 2 % 128 == 0 && code < 0x100_0000) }

  /** None where a constant is invalid. */
  function Note(request: Request, c: Constant): Option<Request> {
    if c.id == DUAL_SOURCE_BLEND then (if c.value > 1 then None else Some(request.(dualSource := c.value != 0)))
    else if c.id == REVERSED_BLEND then (if ValidCode(c.value) then Some(request.(reversed := c.value)) else None)
    else if c.id < EXPORT_PACKING_BASE || c.id >= EXPORT_PACKING_BASE + 8 then Some(request)
    else if c.value > 1 then None
    else Some(if c.value == 1 then request.(packed := request.packed + {c.id - EXPORT_PACKING_BASE}) else request)
  }

  function Requested(constants: seq<Constant>, request: Request := Request({}, false, 0)): Option<Request>
    decreases |constants|
  {
    if constants == [] then Some(request)
    else
      match Note(request, constants[0])
      case None => None
      case Some(next) => Requested(constants[1..], next)
  }

  // ----- The module

  /** Decorations, types by id and ids by type, and output variables with their pointer types. The first one counts. */
  datatype Info = Info(locations: map<nat, nat>, indexed: set<nat>, typeKeys: map<nat, seq<nat>>, types: map<seq<nat>,
                       nat>, outputs: map<nat, nat>)

  function Emplace<K, V>(m: map<K, V>, key: K, value: V): map<K, V> { if key in m then m else m[key := value] }

  predicate IsType(op: nat) { op == OpTypeInt || op == OpTypeFloat || op == OpTypeVector || op == OpTypePointer }

  function TypeKey(i: Instr): seq<nat>
    requires i.operands != []
  {
    [i.op] + i.operands[1..]
  }

  function Scan(info: Info, i: Instr): Info {
    if i.op == OpDecorate && Count(i) == 4 && Operand(i, 2) == DecorationLocation then
      info.(locations := Emplace(info.locations, Operand(i, 1), Operand(i, 3)))
    else if i.op == OpDecorate && Count(i) == 4 && Operand(i, 2) == DecorationIndex then
      info.(indexed := info.indexed + {Operand(i, 1)})
    else if IsType(i.op) && Count(i) >= 3 then
      info.(typeKeys := Emplace(info.typeKeys, Operand(i, 1), TypeKey(i)),
            types := Emplace(info.types, TypeKey(i), Operand(i, 1)))
    else if i.op == OpVariable && Count(i) >= 4 && Operand(i, 3) == StorageClassOutput then
      info.(outputs := Emplace(info.outputs, Operand(i, 2), Operand(i, 1)))
    else info
  }

  function ScanAll(instrs: seq<Instr>, info: Info := Info(map[], {}, map[], map[], map[])): Info
    decreases |instrs|
  {
    if instrs == [] then info else ScanAll(instrs[1..], Scan(info, instrs[0]))
  }

  function Key(info: Info, id: nat): seq<nat> { if id in info.typeKeys then info.typeKeys[id] else [] }

  /** Is this a pointer to an output vector of four floats? */
  predicate FloatVectorPointer(info: Info, pointer: nat) {
    var outer := Key(info, pointer);
    && |outer| == 3 && outer[0] == OpTypePointer && outer[1] == StorageClassOutput
    && var vector := Key(info, outer[2]);
    && |vector| == 3 && vector[0] == OpTypeVector && vector[2] == 4 && Key(info, vector[1]) == [OpTypeFloat, 32]
  }

  function AtLocation(info: Info, location: nat): set<nat> {
    set id <- info.outputs | id != 0 && id in info.locations && info.locations[id] == location && id !in info.indexed
  }

  lemma Only(ids: set<nat>)
    requires |ids| == 1
    ensures exists id :: id in ids && forall other :: other in ids ==> other == id
  {
    var id :| id in ids;
    assert |ids - {id}| == 0;
    assert ids <= {id};
  }

  /** The output at a location, zero when there is none; None when two share it. */
  function OutputAt(info: Info, location: nat): (r: Option<nat>)
    ensures r.Some? && r.value != 0 ==> r.value in info.outputs && AtLocation(info, location) == {r.value}
    ensures r.Some? && r.value == 0 ==> AtLocation(info, location) == {}
  {
    var ids := AtLocation(info, location);
    if |ids| > 1 then None
    else if ids == {} then Some(0)
    else
      Only(ids);
      var id :| id in ids && forall other :: other in ids ==> other == id;
      Some(id)
  }

  /** The packed outputs from `location` on. */
  function Retyped(info: Info, packed: set<nat>, specialized: set<nat>, location: nat := 0): (r: Option<set<nat>>)
    requires location <= 8
    ensures r.Some? ==> forall id <- r.value :: id != 0 && id in info.outputs
                                                && FloatVectorPointer(info, info.outputs[id])
    decreases 8 - location
  {
    if location == 8 then Some({})
    else if location !in packed then Retyped(info, packed, specialized, location + 1)
    else
      match OutputAt(info, location)
      case None => None
      case Some(id) =>
        match Retyped(info, packed, specialized, location + 1)
        case None => None
        case Some(rest) =>
          if id == 0 then Some(rest)
          else if EXPORT_PACKING_BASE + location !in specialized || !FloatVectorPointer(info, info.outputs[id])
          then None
          else Some(rest + {id})
  }

  /** The output blended in reversed order, zero when none is asked for. It must be a float4 and the only color
      output. */
  function Blended(info: Info, request: Request, retyped: set<nat>): (r: Option<nat>)
    ensures r.Some? && r.value != 0 ==> r.value in info.outputs && r.value !in retyped
                                        && FloatVectorPointer(info, info.outputs[r.value])
  {
    if request.reversed == 0 then Some(0)
    else if request.dualSource then None
    else
      match OutputAt(info, 0)
      case None => None
      case Some(id) =>
        if id == 0 || id in retyped || !FloatVectorPointer(info, info.outputs[id]) then None
        else if exists other <- info.outputs :: other != id && other in info.locations then None
        else Some(id)
  }

  // ----- New ids

  /** Ids and types while declarations are added. */
  datatype Declared = Declared(types: map<seq<nat>, nat>, bound: nat, added: seq<Instr>)

  datatype Id = Id(id: nat, d: Declared) | NoId

  /** The id of a type, declared if the module has none; ids can run out. */
  function Declare(d: Declared, key: seq<nat>): Id
    requires key != []
  {
    if key in d.types then Id(d.types[key], d)
    else if d.bound == MAX_ID then NoId
    else Id(d.bound, Declared(d.types[key := d.bound], d.bound + 1, d.added + [Instr(key[0], [d.bound] + key[1..])]))
  }

  /** What the rewriting works with; zero stands for an id that is not used. */
  datatype Plan = Plan(retyped: set<nat>, secondSource: nat, blended: nat, reversed: nat, vectorType: nat,
                       pointerType: nat, colorType: nat, floatType: nat, zero: nat, one: nat, secondColor: nat,
                       declarations: seq<Instr>, variables: seq<Instr>)

  datatype PackedIds = PackedIds(vector: nat, pointer: nat, d: Declared) | NoPackedIds

  /** The types for packed outputs: a 32-bit word, four of them, and a pointer to those. */
  function PackedTypes(d: Declared): PackedIds {
    match Declare(d, [OpTypeInt, 32, 0])
    case NoId => NoPackedIds
    case Id(word, d1) =>
      match Declare(d1, [OpTypeVector, word, 4])
      case NoId => NoPackedIds
      case Id(vector, d2) =>
        match Declare(d2, [OpTypePointer, StorageClassOutput, vector])
        case NoId => NoPackedIds
        case Id(pointer, d3) => PackedIds(vector, pointer, d3)
  }

  datatype Planned = Unchanged | Refused | Ready(plan: Plan, bound: nat)

  function MakePlan(info: Info, request: Request, specialized: set<nat>, bound: nat): Planned {
    match Retyped(info, request.packed, specialized)
    case None => Refused
    case Some(retyped) =>
      match if request.dualSource then OutputAt(info, 1) else Some(0)
      case None => Refused
      case Some(second) =>
        if second in retyped then Refused
        else
          match Blended(info, request, retyped)
          case None => Refused
          case Some(blended) =>
            if retyped == {} && second == 0 && blended == 0 then Unchanged
            else Completed(info, request, retyped, second, blended, bound)
  }

  function Completed(info: Info, request: Request, retyped: set<nat>, second: nat, blended: nat, bound: nat): Planned
    requires blended != 0 ==> blended in info.outputs && FloatVectorPointer(info, info.outputs[blended])
  {
    var d := Declared(info.types, bound, []);
    match if retyped == {} then PackedIds(0, 0, d) else PackedTypes(d)
    case NoPackedIds => Refused
    case PackedIds(vector, pointer, d1) =>
      if blended == 0 then Ready(Plan(retyped, second, 0, request.reversed, vector, pointer, 0, 0, 0, 0, 0, d1.added,
                                      []), d1.bound)
      else if d1.bound + 3 > MAX_ID then Refused
      else
        var colorType := Key(info, info.outputs[blended])[2];
        var floatType := Key(info, colorType)[1];
        var zero, one, secondColor := d1.bound, d1.bound + 1, d1.bound + 2;
        var constants := [Instr(OpConstant, [floatType, zero, 0]), Instr(OpConstant, [floatType, one, FLOAT_ONE])];
        var variables := [Instr(OpVariable, [info.outputs[blended], secondColor, StorageClassOutput])];
        Ready(Plan(retyped, second, blended, request.reversed, vector, pointer, colorType, floatType, zero, one,
                   secondColor,
                   d1.added + constants, variables), d1.bound + 3)
  }

  // ----- What the new declarations are

  /** Every type is the module's own or declared by an added instruction. */
  ghost predicate TypesDeclared(types: map<seq<nat>, nat>, d: Declared) {
    forall key <- d.types :: (key in types && d.types[key] == types[key])
        || (key != [] && Instr(key[0], [d.types[key]] + key[1..]) in d.added)
  }

  /** The ids of the added instructions, in order, are the ones from `bound` on. */
  ghost predicate Numbered(instrs: seq<Instr>, bound: nat) {
    forall k :: 0 <= k < |instrs| ==> instrs[k].operands != [] && instrs[k].operands[0] == bound + k
  }

  lemma DeclareKeeps(types: map<seq<nat>, nat>, bound: nat, d: Declared, key: seq<nat>)
    requires key != [] && TypesDeclared(types, d) && Numbered(d.added, bound) && d.bound == bound + |d.added|
    ensures var r := Declare(d, key);
            r.Id? ==> (TypesDeclared(types, r.d) && Numbered(r.d.added, bound) && r.d.bound == bound + |r.d.added|
                       && key in r.d.types && r.d.types[key] == r.id && d.types.Items <= r.d.types.Items)
  {
    var r := Declare(d, key);
    if r.Id? && key !in d.types {
      var i := Instr(key[0], [d.bound] + key[1..]);
      assert i in r.d.added;
      forall k <- r.d.types ensures (k in types && r.d.types[k] == types[k])
          || (k != [] && Instr(k[0], [r.d.types[k]] + k[1..]) in r.d.added) {
        if k != key { assert k in d.types; }
      }
    }
  }

  /** The type of a packed output is a pointer to four 32-bit words, of the module or newly declared under new ids. */
  lemma PackedTypesTyped(types: map<seq<nat>, nat>, bound: nat) returns (word: nat)
    requires PackedTypes(Declared(types, bound, [])).PackedIds?
    ensures var r := PackedTypes(Declared(types, bound, []));
            && TypesDeclared(types, r.d) && Numbered(r.d.added, bound) && r.d.bound == bound + |r.d.added|
            && [OpTypeInt, 32, 0] in r.d.types && r.d.types[[OpTypeInt, 32, 0]] == word
            && [OpTypeVector, word, 4] in r.d.types && r.d.types[[OpTypeVector, word, 4]] == r.vector
            && [OpTypePointer, StorageClassOutput, r.vector] in r.d.types
            && r.d.types[[OpTypePointer, StorageClassOutput, r.vector]] == r.pointer
  {
    var d := Declared(types, bound, []);
    DeclareKeeps(types, bound, d, [OpTypeInt, 32, 0]);
    var first := Declare(d, [OpTypeInt, 32, 0]);
    word := first.id;
    DeclareKeeps(types, bound, first.d, [OpTypeVector, word, 4]);
    var second := Declare(first.d, [OpTypeVector, word, 4]);
    DeclareKeeps(types, bound, second.d, [OpTypePointer, StorageClassOutput, second.id]);
    var third := Declare(second.d, [OpTypePointer, StorageClassOutput, second.id]);
    assert ([OpTypeInt, 32, 0], word) in third.d.types.Items
        && ([OpTypeVector, word, 4], second.id) in third.d.types.Items;
  }

  // ----- The module's own types

  /** An instruction declares `id` as the type of this key. */
  predicate Declares(i: Instr, key: seq<nat>, id: nat) { key != [] && i == Instr(key[0], [id] + key[1..]) }

  lemma {:induction false} ScannedTypes(instrs: seq<Instr>, info: Info, key: seq<nat>)
    requires key in ScanAll(instrs, info).types
    ensures (key in info.types && info.types[key] == ScanAll(instrs, info).types[key])
            || exists i <- instrs :: IsType(i.op) && Declares(i, key, ScanAll(instrs, info).types[key])
    decreases |instrs|
  {
    if instrs != [] {
      var i, next := instrs[0], Scan(info, instrs[0]);
      ScannedTypes(instrs[1..], next, key);
      var id := ScanAll(instrs, info).types[key];
      if key in next.types && next.types[key] == id && (key !in info.types || info.types[key] != id) {
        assert i in instrs && Declares(i, key, id);
      } else if !(key in info.types && info.types[key] == id) {
        var x :| x in instrs[1..] && IsType(x.op) && Declares(x, key, id);
        assert x in instrs;
      }
    }
  }
}
