/** Fixed layouts of plain fields, pointers, records and counted lists, and the one theorem about all of them: a
layout's bytes and what they stand for are in bijection. */
module Layouts {
  import opened Wrappers
  import opened Uleb128
  import opened Serial

  /** The index that stands for no value. */
  const NO_INDEX: nat := 0xFFFF_FFFF

  /** A number of `width` bytes below `limit`; an index into the values, or none; parts one after another; a count and
      that many items, of `minimum` bytes each at least as the reader sees it. */
  datatype Shape = Field(width: nat, limit: nat) | Pointer | Record(parts: seq<Shape>) | Many(minimum: nat, item: Shape)

  /** What bytes of a layout stand for. */
  datatype Datum = Word(n: nat) | Reference(index: Option<nat>) | Group(items: seq<Datum>)

  // ----- Writing and reading

  function PointerCode(index: Option<nat>): nat { if index.Some? then index.value else NO_INDEX }

  function EncodeShape(s: Shape, d: Datum): seq<Byte>
    decreases s, 0
  {
    match s
    case Field(width, _) => if d.Word? then Fixed(d.n, width) else []
    case Pointer => if d.Reference? then Fixed(PointerCode(d.index), 4) else []
    case Record(parts) => if d.Group? && |d.items| == |parts| then EncodeParts(parts, d.items) else []
    case Many(_, item) => if d.Group? then Fixed(|d.items|, 8) + EncodeItems(item, d.items) else []
  }

  function EncodeParts(parts: seq<Shape>, ds: seq<Datum>): seq<Byte>
    requires |parts| == |ds|
    decreases parts, 0
  {
    if parts == [] then [] else EncodeShape(parts[0], ds[0]) + EncodeParts(parts[1..], ds[1..])
  }

  function EncodeItems(item: Shape, ds: seq<Datum>): seq<Byte>
    decreases item, |ds| + 1
  {
    if ds == [] then [] else EncodeShape(item, ds[0]) + EncodeItems(item, ds[1..])
  }

  /** An index past the values makes the whole invalid. */
  function ReadPointer(data: seq<Byte>, at: nat, values: nat): Read<Datum> {
    match ReadFixed(data, at, 4)
    case Bad => Bad
    case Got(index, next) => if index == NO_INDEX then Got(Reference(None), next) else if index >= values then Bad
        else Got(Reference(Some(index)), next)
  }

  function ReadField(data: seq<Byte>, at: nat, width: nat, limit: nat): Read<Datum> {
    match ReadFixed(data, at, width)
    case Bad => Bad
    case Got(n, next) => if n < limit then Got(Word(n), next) else Bad
  }

  function ReadShape(data: seq<Byte>, at: nat, s: Shape, values: nat): Read<Datum>
    decreases s, 0
  {
    match s
    case Field(width, limit) => ReadField(data, at, width, limit)
    case Pointer => ReadPointer(data, at, values)
    case Record(parts) => Grouped(ReadParts(data, at, parts, values))
    case Many(minimum, item) =>
      match ReadFixed(data, at, 8)
      case Bad => Bad
      case Got(count, next) => if count * minimum > |data| - next then Bad
          else Grouped(ReadItems(data, next, item, count, values))
  }

  function Grouped(r: Read<seq<Datum>>): Read<Datum> {
    match r
    case Bad => Bad
    case Got(items, next) => Got(Group(items), next)
  }

  function ReadParts(data: seq<Byte>, at: nat, parts: seq<Shape>, values: nat): Read<seq<Datum>>
    decreases parts, 0
  {
    if parts == [] then Got([], at)
    else
      match ReadShape(data, at, parts[0], values)
      case Bad => Bad
      case Got(first, next) => Prepended(first, ReadParts(data, next, parts[1..], values))
  }

  function ReadItems(data: seq<Byte>, at: nat, item: Shape, count: nat, values: nat): Read<seq<Datum>>
    decreases item, count + 1
  {
    if count == 0 then Got([], at)
    else
      match ReadShape(data, at, item, values)
      case Bad => Bad
      case Got(first, next) => Prepended(first, ReadItems(data, next, item, count - 1, values))
  }

  function Prepended(first: Datum, rest: Read<seq<Datum>>): Read<seq<Datum>> {
    match rest
    case Bad => Bad
    case Got(ds, end) => Got([first] + ds, end)
  }

  // ----- What fits

  /** The least number of bytes of a layout. */
  function MinSize(s: Shape): nat
    decreases s
  {
    match s
    case Field(width, _) => width
    case Pointer => 4
    case Record(parts) => MinSizes(parts)
    case Many(_, _) => 8
  }

  function MinSizes(parts: seq<Shape>): nat
    decreases parts
  {
    if parts == [] then 0 else MinSize(parts[0]) + MinSizes(parts[1..])
  }

  /** No reader asks for more bytes of an item than the item has. */
  predicate Sound(s: Shape)
    decreases s
  {
    match s
    case Field(width, limit) => limit <= Range(width)
    case Pointer => true
    case Record(parts) => AllSound(parts)
    case Many(minimum, item) => minimum <= MinSize(item) && Sound(item)
  }

  predicate AllSound(parts: seq<Shape>)
    decreases parts
  {
    parts == [] || (Sound(parts[0]) && AllSound(parts[1..]))
  }

  predicate Fits(s: Shape, d: Datum, values: nat)
    decreases s, 0
  {
    match s
    case Field(_, limit) => d.Word? && d.n < limit
    case Pointer => d.Reference? && (d.index.Some? ==> d.index.value < values)
    case Record(parts) => d.Group? && |d.items| == |parts| && FitParts(parts, d.items, values)
    case Many(_, item) => d.Group? && |d.items| < WORD_LIMIT && FitItems(item, d.items, values)
  }

  predicate FitParts(parts: seq<Shape>, ds: seq<Datum>, values: nat)
    requires |parts| == |ds|
    decreases parts, 0
  {
    parts == [] || (Fits(parts[0], ds[0], values) && FitParts(parts[1..], ds[1..], values))
  }

  predicate FitItems(item: Shape, ds: seq<Datum>, values: nat)
    decreases item, |ds| + 1
  {
    ds == [] || (Fits(item, ds[0], values) && FitItems(item, ds[1..], values))
  }

  // ----- Lengths

  lemma {:induction false} ShapeLength(s: Shape, d: Datum, values: nat)
    requires Fits(s, d, values)
    ensures |EncodeShape(s, d)| >= MinSize(s)
    decreases s
  {
    if s.Record? { PartsLength(s.parts, d.items, values); }
  }

  lemma {:induction false} PartsLength(parts: seq<Shape>, ds: seq<Datum>, values: nat)
    requires |parts| == |ds| && FitParts(parts, ds, values)
    ensures |EncodeParts(parts, ds)| >= MinSizes(parts)
    decreases parts
  {
    if parts != [] {
      ShapeLength(parts[0], ds[0], values);
      PartsLength(parts[1..], ds[1..], values);
    }
  }

  lemma {:induction false} ItemsLength(item: Shape, ds: seq<Datum>, minimum: nat, values: nat)
    requires FitItems(item, ds, values) && minimum <= MinSize(item)
    ensures |EncodeItems(item, ds)| >= |ds| * minimum
    decreases |ds|
  {
    if ds != [] {
      ShapeLength(item, ds[0], values);
      ItemsLength(item, ds[1..], minimum, values);
      assert |ds| * minimum == minimum + |ds[1..]| * minimum;
    }
  }

  // ----- Reading inverts writing

  lemma {:induction false} ShapeReads(data: seq<Byte>, at: nat, s: Shape, d: Datum, values: nat)
    requires Sound(s) && Fits(s, d, values) && values <= NO_INDEX && Holds(data, at, EncodeShape(s, d))
    ensures ReadShape(data, at, s, values) == Got(d, at + |EncodeShape(s, d)|)
    decreases s, 0
  {
    match s
    case Field(width, limit) => FixedHolds(data, at, d.n, width);
    case Pointer =>
      RangeOf8();
      FixedHolds(data, at, PointerCode(d.index), 4);
    case Record(parts) => PartsRead(data, at, parts, d.items, values);
    case Many(minimum, item) => ManyReads(data, at, minimum, item, d.items, values);
  }

  lemma {:induction false} ManyReads(data: seq<Byte>, at: nat, minimum: nat, item: Shape, ds: seq<Datum>, values: nat)
    requires Sound(item) && minimum <= MinSize(item) && |ds| < WORD_LIMIT && FitItems(item, ds, values)
             && values <= NO_INDEX
    requires Holds(data, at, Fixed(|ds|, 8) + EncodeItems(item, ds))
    ensures ReadShape(data, at, Many(minimum, item), values) ==
            Got(Group(ds), at + |Fixed(|ds|, 8) + EncodeItems(item, ds)|)
    decreases item, |ds| + 2
  {
    HoldsParts(data, at, Fixed(|ds|, 8), EncodeItems(item, ds));
    RangeOf8();
    FixedHolds(data, at, |ds|, 8);
    ItemsRead(data, at + 8, item, ds, values);
    HoldsIsAt(data, at + 8, EncodeItems(item, ds));
    ItemsLength(item, ds, minimum, values);
  }

  lemma {:induction false} PartsRead(data: seq<Byte>, at: nat, parts: seq<Shape>, ds: seq<Datum>, values: nat)
    requires |parts| == |ds| && AllSound(parts) && FitParts(parts, ds, values) && values <= NO_INDEX
             && Holds(data, at, EncodeParts(parts, ds))
    ensures ReadParts(data, at, parts, values) == Got(ds, at + |EncodeParts(parts, ds)|)
    decreases parts, 0
  {
    if parts != [] {
      var first, rest := EncodeShape(parts[0], ds[0]), EncodeParts(parts[1..], ds[1..]);
      HoldsParts(data, at, first, rest);
      ShapeReads(data, at, parts[0], ds[0], values);
      PartsRead(data, at + |first|, parts[1..], ds[1..], values);
      assert ds == [ds[0]] + ds[1..];
    }
  }

  lemma {:induction false} ItemsRead(data: seq<Byte>, at: nat, item: Shape, ds: seq<Datum>, values: nat)
    requires Sound(item) && FitItems(item, ds, values) && values <= NO_INDEX && Holds(data, at, EncodeItems(item, ds))
    ensures ReadItems(data, at, item, |ds|, values) == Got(ds, at + |EncodeItems(item, ds)|)
    decreases item, |ds| + 1
  {
    if ds != [] {
      var first, rest := EncodeShape(item, ds[0]), EncodeItems(item, ds[1..]);
      HoldsParts(data, at, first, rest);
      ShapeReads(data, at, item, ds[0], values);
      ItemsRead(data, at + |first|, item, ds[1..], values);
      assert ds == [ds[0]] + ds[1..];
    }
  }

  // ----- Only what the writer writes is accepted

  lemma {:induction false} ShapeWritten(data: seq<Byte>, at: nat, s: Shape, values: nat)
    requires ReadShape(data, at, s, values).Got? && at <= |data|
    ensures var r := ReadShape(data, at, s, values);
            Fits(s, r.value, values) && Holds(data, at, EncodeShape(s, r.value))
              && r.next == at + |EncodeShape(s, r.value)| <= |data|
    decreases s, 0
  {
    match s
    case Field(width, limit) => FixedHeld(data, at, width);
    case Pointer => FixedHeld(data, at, 4);
    case Record(parts) => PartsWritten(data, at, parts, values);
    case Many(minimum, item) =>
      var count := ReadFixed(data, at, 8);
      FixedHeld(data, at, 8);
      RangeOf8();
      ItemsWritten(data, count.next, item, count.value, values);
      var ds := ReadItems(data, count.next, item, count.value, values).value;
      HoldsParts(data, at, Fixed(|ds|, 8), EncodeItems(item, ds));
  }

  lemma {:induction false} PartsWritten(data: seq<Byte>, at: nat, parts: seq<Shape>, values: nat)
    requires ReadParts(data, at, parts, values).Got? && at <= |data|
    ensures var r := ReadParts(data, at, parts, values);
            && |r.value| == |parts| && FitParts(parts, r.value, values)
            && Holds(data, at, EncodeParts(parts, r.value)) && r.next == at + |EncodeParts(parts, r.value)| <= |data|
    decreases parts, 0
  {
    if parts == [] {
      HoldsNothing(data, at);
    } else {
      var first := ReadShape(data, at, parts[0], values);
      ShapeWritten(data, at, parts[0], values);
      PartsWritten(data, first.next, parts[1..], values);
      var rest := ReadParts(data, first.next, parts[1..], values).value;
      HoldsParts(data, at, EncodeShape(parts[0], first.value), EncodeParts(parts[1..], rest));
      assert ([first.value] + rest)[1..] == rest;
    }
  }

  lemma {:induction false} ItemsWritten(data: seq<Byte>, at: nat, item: Shape, count: nat, values: nat)
    requires ReadItems(data, at, item, count, values).Got? && at <= |data|
    ensures var r := ReadItems(data, at, item, count, values);
            && |r.value| == count && FitItems(item, r.value, values)
            && Holds(data, at, EncodeItems(item, r.value)) && r.next == at + |EncodeItems(item, r.value)| <= |data|
    decreases item, count + 1
  {
    if count == 0 {
      HoldsNothing(data, at);
    } else {
      var first := ReadShape(data, at, item, values);
      ShapeWritten(data, at, item, values);
      ItemsWritten(data, first.next, item, count - 1, values);
      var rest := ReadItems(data, first.next, item, count - 1, values).value;
      HoldsParts(data, at, EncodeShape(item, first.value), EncodeItems(item, rest));
      assert ([first.value] + rest)[1..] == rest;
    }
  }
}
