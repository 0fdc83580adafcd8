/** The writer that appends to a buffer and the reader that advances through one, for the streams of `Serial` and
`PlanTables`. */
module PlanStreams {
  import opened Wrappers
  import opened Uleb128
  import opened Serial
  import opened WordVectors
  import opened PlanCodec
  import opened Layouts
  import opened PlanLayout
  import opened PlanEntries
  import opened PlanTables

  class Writer {
    var out: seq<Byte>

    constructor ()
      ensures out == []
    {
      out := [];
    }

    method Compact(value: nat)
      modifies this
      ensures out == old(out) + Encode(value)
    {
      var rest := value;
      while rest >= 128
        invariant out + Encode(rest) == old(out) + Encode(value)
      {
        ghost var before := out;
        out := out + [rest % 128 + 128];
        assert before + ([rest % 128 + 128] + Encode(rest / 128)) == out + Encode(rest / 128);
        rest := rest / 128;
      }
      out := out + [rest];
    }

    method Numbers(numbers: seq<nat>)
      modifies this
      ensures out == old(out) + EncodeNumbers(numbers)
    {
      for i := 0 to |numbers|
        invariant out + EncodeNumbers(numbers[i..]) == old(out) + EncodeNumbers(numbers)
      {
        Regroup(out, Encode(numbers[i]), EncodeNumbers(numbers[i + 1..]));
        assert numbers[i..][1..] == numbers[i + 1..];
        Compact(numbers[i]);
      }
    }

    method Value(value: nat, width: nat)
      modifies this
      ensures out == old(out) + Fixed(value, width)
    {
      out := out + Fixed(value, width);
    }

    /** A length and the bytes of a text. */
    method Text(text: seq<Byte>)
      modifies this
      ensures out == old(out) + (Fixed(|text|, 8) + text)
    {
      Value(|text|, 8);
      out := out + text;
      Regroup(old(out), Fixed(|text|, 8), text);
    }

    /** A count and that many numbers of `width` bytes. */
    method Values(xs: seq<nat>, width: nat, ghost enc: (nat, nat) -> seq<Byte>)
      requires forall x: nat, i: nat :: enc(x, i) == Fixed(x, width)
      modifies this
      ensures out == old(out) + EncodeCounted(xs, enc)
    {
      Value(|xs|, 8);
      ghost var head := out;
      for i := 0 to |xs|
        invariant out + EncodeList(xs[i..], enc, i) == head + EncodeList(xs, enc)
      {
        ListStep(xs, enc, i);
        Regroup(out, Fixed(xs[i], width), EncodeList(xs[i + 1..], enc, i + 1));
        Value(xs[i], width);
      }
      assert xs[|xs|..] == [] && out + [] == out;
      Regroup(old(out), Fixed(|xs|, 8), EncodeList(xs, enc));
    }

    method Words(xs: seq<nat>)
      modifies this
      ensures out == old(out) + EncodeWords(xs)
    {
      Values(xs, 4, WordEnc());
    }

    method Nodes(nodes: seq<Node>)
      modifies this
      ensures out == old(out) + EncodeCounted(nodes, NodeEnc())
    {
      Value(|nodes|, 8);
      ghost var head := out;
      for current := 0 to |nodes|
        invariant out + EncodeList(nodes[current..], NodeEnc(), current) == head + EncodeList(nodes, NodeEnc())
      {
        var n := nodes[current];
        ListStep(nodes, NodeEnc(), current);
        Regroup(out, EncodeNode(n, current), EncodeList(nodes[current + 1..], NodeEnc(), current + 1));
        Numbers(NodeNumbers(n, current));
      }
      assert nodes[|nodes|..] == [] && out + [] == out;
      Regroup(old(out), Fixed(|nodes|, 8), EncodeList(nodes, NodeEnc()));
    }

    /** The fields of a record one after another, the items of a list behind their count. */
    method Shaped(shape: Shape, d: Datum)
      modifies this
      ensures out == old(out) + EncodeShape(shape, d)
      decreases shape, 0
    {
      match shape
      case Field(width, _) => if d.Word? { Value(d.n, width); } else { assert out + [] == out; }
      case Pointer => if d.Reference? { Value(PointerCode(d.index), 4); } else { assert out + [] == out; }
      case Record(parts) => if d.Group? && |d.items| == |parts| { Parts(parts, d.items); }
          else { assert out + [] == out; }
      case Many(_, item) =>
        if d.Group? {
          Regroup(out, Fixed(|d.items|, 8), EncodeItems(item, d.items));
          Value(|d.items|, 8);
          Items(item, d.items);
        } else {
          assert out + [] == out;
        }
    }

    method Parts(parts: seq<Shape>, ds: seq<Datum>)
      requires |parts| == |ds|
      modifies this
      ensures out == old(out) + EncodeParts(parts, ds)
      decreases parts, 0
    {
      if parts == [] { assert out + [] == out; return; }
      Regroup(out, EncodeShape(parts[0], ds[0]), EncodeParts(parts[1..], ds[1..]));
      Shaped(parts[0], ds[0]);
      Parts(parts[1..], ds[1..]);
    }

    method Items(item: Shape, ds: seq<Datum>)
      modifies this
      ensures out == old(out) + EncodeItems(item, ds)
      decreases item, |ds| + 1
    {
      for i := 0 to |ds|
        invariant out + EncodeItems(item, ds[i..]) == old(out) + EncodeItems(item, ds)
      {
        Regroup(out, EncodeShape(item, ds[i]), EncodeItems(item, ds[i + 1..]));
        assert ds[i..][1..] == ds[i + 1..];
        Shaped(item, ds[i]);
      }
      assert ds[|ds|..] == [] && out + [] == out;
    }

    method WholePlan(plan: Plan)
      modifies this
      ensures out == old(out) + EncodePlan(plan)
    {
      var e := EntryOf(plan);
      ghost var before := out;
      Shaped(HeadShape(), e.head);
      Nodes(e.nodes);
      Shaped(TablesShape(), e.tables);
      RegroupThree(before, EncodeShape(HeadShape(), e.head), EncodeCounted(e.nodes, NodeEnc()),
                   EncodeShape(TablesShape(), e.tables));
    }
  }

  lemma Regroup(a: seq<Byte>, b: seq<Byte>, c: seq<Byte>)
    ensures a + (b + c) == a + b + c
  {
  }

  lemma RegroupThree(before: seq<Byte>, a: seq<Byte>, b: seq<Byte>, c: seq<Byte>)
    ensures before + (a + (b + c)) == before + a + b + c
  {
    Regroup(before, a, b + c);
    Regroup(before + a, b, c);
  }

  lemma ListStep<T>(xs: seq<T>, enc: (T, nat) -> seq<Byte>, i: nat)
    requires i < |xs|
    ensures EncodeList(xs[i..], enc, i) == enc(xs[i], i) + EncodeList(xs[i + 1..], enc, i + 1)
  {
    assert xs[i..][1..] == xs[i + 1..];
  }

  class Reader {
    const data: seq<Byte>
    var position: nat
    var ok: bool

    constructor (data: seq<Byte>)
      ensures this.data == data && position == 0 && ok
    {
      this.data, position, ok := data, 0, true;
    }

    /** What a read leaves behind: the value and the place after it, or a reader that has failed. */
    ghost predicate Took<T>(r: Read<T>, value: T)
      reads this
    {
      if r.Got? then ok && position == r.next && value == r.value else !ok
    }

    method Raw() returns (byte: Byte)
      modifies this
      ensures old(ok && position < |data|) ==> ok && byte == data[old(position)] && position == old(position) + 1
      ensures !old(ok && position < |data|) ==> !ok
    {
      byte := 0;
      if !ok || position >= |data| {
        ok := false;
      } else {
        byte, position := data[position], position + 1;
      }
    }

    method Compact() returns (value: nat)
      modifies this
      ensures old(ok) ==> Took(ReadCompact(data, old(position)), value)
      ensures !old(ok) ==> !ok
    {
      value := 0;
      var shift: nat, scale: nat := 0, 1;
      ghost var all := ReadCompact(data, position);
      while shift < 64
        invariant old(ok) ==> ok && all == Higher(value, scale, ReadCompact(data, position, shift))
        invariant !old(ok) ==> shift == 0 && !ok
        decreases 70 - shift
      {
        ghost var at := position;
        var byte := Raw();
        if !ok { return 0; }
        HigherStep(value, scale, byte % 128, ReadCompact(data, at + 1, shift + 7));
        var bits := byte % 128;
        value := value + scale * bits;
        if byte >= 128 {
          shift, scale := shift + 7, scale * 128;
          continue;
        }
        if (byte == 0 && shift != 0) || (shift == 63 && byte > 1) { ok := false; return 0; }
        return;
      }
      ok := false;
    }

    method Value(width: nat) returns (value: nat)
      modifies this
      ensures old(ok) ==> Took(ReadFixed(data, old(position), width), value)
      ensures !old(ok) ==> !ok
    {
      value := 0;
      if !ok || position > |data| || |data| - position < width { ok := false; return; }
      value, position := FixedValue(data[position..position + width]), position + width;
    }

    /** A count of elements that have at least `minimum` bytes each. */
    method Count(minimum: nat) returns (count: nat)
      modifies this
      ensures old(ok) ==> match ReadFixed(data, old(position), 8)
                          case Bad => !ok
                          case Got(value, next) => if value * minimum > |data| - next then !ok
                              else ok && position == next && count == value
      ensures !old(ok) ==> !ok
    {
      count := Value(8);
      if !ok || count * minimum > |data| - position { ok := false; }
    }

    method Words() returns (xs: seq<nat>)
      modifies this
      ensures old(ok) ==> Took(ReadWords(data, old(position)), xs)
      ensures !old(ok) ==> !ok
    {
      xs := [];
      var count := Count(4);
      if !ok { return; }
      ghost var dec := WordDec(data);
      ghost var all := ReadList(position, count, dec);
      AfterNothing(all);
      for i := 0 to count
        invariant ok && all == After(xs, ReadList(position, count - i, dec, i))
      {
        AfterStep(xs, position, count - i, dec, i);
        assert dec(position, i) == ReadFixed(data, position, 4);
        var x := Value(4);
        if !ok { return; }
        xs := xs + [x];
      }
      assert xs + [] == xs;
    }

    method Numbers(count: nat) returns (numbers: seq<nat>)
      modifies this
      ensures old(ok) ==> Took(ReadNumbers(data, old(position), count), numbers)
      ensures !old(ok) ==> !ok
    {
      numbers := [];
      if !ok { return; }
      ghost var all := ReadNumbers(data, position, count);
      AfterNothing(all);
      for i := 0 to count
        invariant ok && all == After(numbers, ReadNumbers(data, position, count - i))
      {
        NumbersStep(numbers, data, position, count - i);
        var number := Compact();
        if !ok { return; }
        numbers := numbers + [number];
      }
      assert numbers + [] == numbers;
    }

    method Node(current: nat, nodes: nat, blocks: nat) returns (node: Node)
      modifies this
      ensures old(ok) ==> Took(DecodeNode(data, old(position), current, nodes, blocks), node)
      ensures !old(ok) ==> !ok
    {
      node := NodeOf([0, 0, 0, 0, 0, 0], [], [], []);
      var head := Numbers(6);
      if !ok { return; }
      if !HeadInRange(head) || head[5] / 2 > |data| - position { ok := false; return; }
      var immediate := Numbers(head[5] % 2);
      if !ok { return; }
      var codes := Numbers(head[5] / 2);
      if !ok { return; }
      if !ValidCodes(codes, current, nodes) { ok := false; return; }
      var phis := Numbers(if head[0] == PHI then head[5] / 2 else 0);
      if !ok { return; }
      if exists phi <- phis :: phi >= blocks { ok := false; return; }
      node := NodeOf(head, immediate, Arguments(codes, current, nodes), phis);
    }

    /** One more value of a list. */
    method NextNode(count: nat, blocks: nat, nodes: seq<Node>, ghost dec: (nat, nat) -> Read<Node>,
                    ghost all: Read<seq<Node>>) returns (more: seq<Node>)
      requires ok && dec == NodeDec(data, count, blocks) && |nodes| < count && Reading(all, nodes, position, count, dec)
      modifies this
      ensures if ok then |more| == |nodes| + 1 && Reading(all, more, position, count, dec) else all.Bad?
    {
      ReadingMore(all, nodes, position, count, dec);
      var node := NodeElement(|nodes|, count, blocks, dec);
      more := nodes + [node];
    }

    /** One value, as an element of a list. */
    method NodeElement(current: nat, nodes: nat, blocks: nat, ghost dec: (nat, nat) -> Read<Node>) returns (node: Node)
      requires ok && dec == NodeDec(data, nodes, blocks)
      modifies this
      ensures Took(dec(old(position), current), node)
    {
      assert dec(position, current) == DecodeNode(data, position, current, nodes, blocks);
      node := Node(current, nodes, blocks);
    }

    method Nodes(blocks: nat) returns (nodes: seq<Node>)
      modifies this
      ensures old(ok) ==> Took(ReadNodes(data, old(position), blocks), nodes)
      ensures !old(ok) ==> !ok
    {
      var count := Count(6);
      if !ok { return []; }
      nodes := NodeList(count, blocks, NodeDec(data, count, blocks));
    }

    method NodeList(count: nat, blocks: nat, ghost dec: (nat, nat) -> Read<Node>) returns (nodes: seq<Node>)
      requires ok && dec == NodeDec(data, count, blocks)
      modifies this
      ensures Took(ReadList(old(position), count, dec), nodes)
    {
      nodes := [];
      ghost var all := ReadList(position, count, dec);
      AfterNothing(all);
      while |nodes| < count
        invariant ok && |nodes| <= count && Reading(all, nodes, position, count, dec)
        decreases count - |nodes|
      {
        nodes := NextNode(count, blocks, nodes, dec, all);
        if !ok { return; }
      }
      ReadingEnds(all, nodes, position, count, dec);
    }

    /** What a layout stands for. */
    method Shaped(shape: Shape, values: nat) returns (d: Datum)
      modifies this
      ensures old(ok) ==> Took(ReadShape(data, old(position), shape, values), d)
      ensures !old(ok) ==> !ok
      decreases shape, 0
    {
      d := Group([]);
      match shape
      case Field(width, limit) =>
        var n := Value(width);
        if !ok || n >= limit { ok := false; return; }
        d := Word(n);
      case Pointer =>
        d := Pointed(values);
      case Record(parts) =>
        var items := Parts(parts, values);
        d := Group(items);
      case Many(minimum, item) =>
        var count := Count(minimum);
        if !ok { return; }
        var items := Items(item, count, values);
        d := Group(items);
    }

    /** An index past the values makes the plan invalid. */
    method Pointed(values: nat) returns (d: Datum)
      modifies this
      ensures old(ok) ==> Took(ReadPointer(data, old(position), values), d)
      ensures !old(ok) ==> !ok
    {
      d := Reference(None);
      var index := Value(4);
      if !ok || index == NO_INDEX { return; }
      if index >= values { ok := false; return; }
      d := Reference(Some(index));
    }

    method Parts(parts: seq<Shape>, values: nat) returns (ds: seq<Datum>)
      modifies this
      ensures old(ok) ==> Took(ReadParts(data, old(position), parts, values), ds)
      ensures !old(ok) ==> !ok
      decreases parts, 0
    {
      ds := [];
      if !ok || parts == [] { return; }
      var first := Shaped(parts[0], values);
      if !ok { return; }
      var rest := Parts(parts[1..], values);
      ds := [first] + rest;
    }

    method Items(item: Shape, count: nat, values: nat) returns (ds: seq<Datum>)
      requires ok
      modifies this
      ensures Took(ReadItems(data, old(position), item, count, values), ds)
      decreases item, count + 1
    {
      ds := [];
      ghost var all := ReadItems(data, position, item, count, values);
      AfterNothing(all);
      for i := 0 to count
        invariant ok && all == After(ds, ReadItems(data, position, item, count - i, values))
      {
        ItemsStep(ds, data, position, item, count - i, values);
        var d := Shaped(item, values);
        if !ok { return; }
        ds := ds + [d];
      }
      assert ds + [] == ds;
    }

    method WholePlan() returns (e: Entry)
      modifies this
      ensures old(ok && position == 0) ==> Took(ReadEntry(data), e)
      ensures !old(ok) ==> !ok
    {
      var head := Shaped(HeadShape(), 0);
      var nodes := Nodes(BlockCount(head));
      var tables := Shaped(TablesShape(), |nodes|);
      e := Entry(head, nodes, tables);
    }
  }

  /** The bytes of a plan. */
  method WritePlan(plan: Plan) returns (bytes: seq<Byte>)
    ensures bytes == EncodePlan(plan)
  {
    var writer := new Writer();
    writer.WholePlan(plan);
    bytes := writer.out;
    assert [] + EncodePlan(plan) == EncodePlan(plan);
  }

  /** The plan of the bytes. All of them must be used, and every index must be in range. */
  method LoadPlan(data: seq<Byte>) returns (plan: Option<Plan>)
    ensures plan == DecodePlan(data)
  {
    var reader := new Reader(data);
    var e := reader.WholePlan();
    if !reader.ok || reader.position != |data| || !ValidTables(TablesIn(e.tables)) { return None; }
    plan := Some(PlanIn(e));
  }

  /** What has been read put before what is still to be read. */
  ghost function After<T>(xs: seq<T>, rest: Read<seq<T>>): Read<seq<T>> {
    match rest
    case Got(more, next) => Got(xs + more, next)
    case Bad => Bad
  }

  /** The list `all` is what has been read and what the rest of the count elements reads as. */
  ghost predicate Reading<T>(all: Read<seq<T>>, xs: seq<T>, at: nat, count: nat, dec: (nat, nat) -> Read<T>) {
    |xs| <= count && all == After(xs, ReadList(at, count - |xs|, dec, |xs|))
  }

  lemma ReadingMore<T>(all: Read<seq<T>>, xs: seq<T>, at: nat, count: nat, dec: (nat, nat) -> Read<T>)
    requires Reading(all, xs, at, count, dec) && |xs| < count
    ensures match dec(at, |xs|) case Bad => all.Bad? case Got(x, next) => Reading(all, xs + [x], next, count, dec)
  {
    AfterStep(xs, at, count - |xs|, dec, |xs|);
  }

  lemma ReadingEnds<T>(all: Read<seq<T>>, xs: seq<T>, at: nat, count: nat, dec: (nat, nat) -> Read<T>)
    requires Reading(all, xs, at, count, dec) && |xs| == count
    ensures all == Got(xs, at)
  {
    assert xs + [] == xs;
  }

  lemma AfterNothing<T>(rest: Read<seq<T>>)
    ensures After([], rest) == rest
  {
    if rest.Got? { assert [] + rest.value == rest.value; }
  }

  lemma AfterStep<T>(xs: seq<T>, at: nat, count: nat, dec: (nat, nat) -> Read<T>, index: nat)
    requires count > 0
    ensures After(xs, ReadList(at, count, dec, index)) ==
            match dec(at, index) { case Bad => Bad case Got(x, next) =>
                                   After(xs + [x], ReadList(next, count - 1, dec, index + 1)) }
  {
    var first := dec(at, index);
    if first.Got? {
      var rest := ReadList(first.next, count - 1, dec, index + 1);
      if rest.Got? { assert xs + ([first.value] + rest.value) == xs + [first.value] + rest.value; }
    }
  }

  lemma ItemsStep(ds: seq<Datum>, data: seq<Byte>, at: nat, item: Shape, count: nat, values: nat)
    requires count > 0
    ensures After(ds, ReadItems(data, at, item, count, values)) ==
            match ReadShape(data, at, item, values) { case Bad => Bad case Got(d, next) =>
                                                      After(ds + [d], ReadItems(data, next, item, count - 1, values)) }
  {
    var first := ReadShape(data, at, item, values);
    if first.Got? {
      var rest := ReadItems(data, first.next, item, count - 1, values);
      if rest.Got? { assert ds + ([first.value] + rest.value) == ds + [first.value] + rest.value; }
    }
  }

  lemma NumbersStep(xs: seq<nat>, data: seq<Byte>, at: nat, count: nat)
    requires count > 0
    ensures After(xs, ReadNumbers(data, at, count)) ==
            match ReadCompact(data, at) { case Bad => Bad case Got(x, next) =>
                                          After(xs + [x], ReadNumbers(data, next, count - 1)) }
  {
    var first := ReadCompact(data, at);
    if first.Got? {
      var rest := ReadNumbers(data, first.next, count - 1);
      if rest.Got? { assert xs + ([first.value] + rest.value) == xs + [first.value] + rest.value; }
    }
  }

  /** A reader that has `value` so far and finds `rest` in the bits above. */
  ghost function Higher(value: nat, scale: nat, rest: Read<nat>): Read<nat> {
    match rest
    case Got(high, next) => Got(value + scale * high, next)
    case Bad => Bad
  }

  lemma HigherStep(value: nat, scale: nat, bits: nat, rest: Read<nat>)
    ensures Higher(value, scale, match rest { case Got(high, next) => Got(bits + 128 * high, next) case Bad => Bad })
         == Higher(value + scale * bits, scale * 128, rest)
  {
    if rest.Got? {
      var high := rest.value;
      assert scale * (bits + 128 * high) == scale * bits + scale * 128 * high;
    }
  }
}
