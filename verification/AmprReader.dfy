/** Reading recorded commands back as their execution does: an opcode and a size in the header, and behind it the fields
of a record, each at its own offset and of its own width. */
module AmprReader {
  import opened Wrappers
  import opened Uleb128
  import opened Serial
  import opened AmprCommands
  import opened AmprRecorder

  /** What a command asks for. */
  datatype Action =
    | Skip(words: seq<nat>)
    | Fetch(fileId: nat, destination: nat, size: nat, offset: nat)
    | Store(address: nat, value: nat, flags: nat)
    | StoreCounter(counter: nat, access: nat, operation: nat, value: nat)
    | AwaitAddress(address: nat, reference: nat, mask: nat, compare: nat)
    | AwaitCounter(counter: nat, access: nat, reference: nat, mask: nat, compare: nat)
    | Notify(equeue: nat, ident: nat, data: nat, userData: nat)
    | StoreTime(address: nat)
    | StoreFromCounter(address: nat, counter: nat)
    | StoreFromPair(address: nat, first: nat, second: nat)
    | Push(text: seq<Byte>)
    | Pop
    | Mark(text: seq<Byte>)
    | Gather(size: nat, offset: nat)
    | Scatter(destination: nat, size: nat)
    | GatherScatter(destination: nat, size: nat, offset: nat)
    | Forget
    | Map(address: nat, size: nat, typ: nat, protection: nat)
    | MapDirect(address: nat, directOffset: nat, size: nat, typ: nat, protection: nat)
    | EndMap

  // ----- Reading

  /** The number of `width` bytes at `offset`, lowest byte first. */
  function At(bytes: seq<Byte>, offset: nat, width: nat): nat
    requires offset + width <= |bytes|
  {
    FixedValue(bytes[offset..offset + width])
  }

  /** The text before the first NUL. */
  function TextOf(bytes: seq<Byte>): seq<Byte> {
    if bytes == [] || bytes[0] == 0 then [] else [bytes[0]] + TextOf(bytes[1..])
  }

  function WordsOf(bytes: seq<Byte>): seq<nat> {
    if |bytes| < 4 then [] else [At(bytes, 0, 4)] + WordsOf(bytes[4..])
  }

  /** A command, whose size is in its header unless it is the compact gather. */
  function Decode(bytes: seq<Byte>): Option<Action> {
    if |bytes| < 8 then None
    else if At(bytes, 0, 1) == 29 then
      if |bytes| != 12 then None
      else Some(Gather(At(bytes, 4, 4) + 1, At(bytes, 1, 3) * 0x1_0000_0000 + At(bytes, 8, 4)))
    else if At(bytes, 4, 4) != |bytes| then None
    else DecodeBody(At(bytes, 0, 4), bytes[8..])
  }

  /** What follows the header of a command with this opcode. */
  function DecodeBody(opcode: nat, body: seq<Byte>): Option<Action> {
    if opcode == 0 then Some(Skip(WordsOf(body)))
    else if opcode == 2 && |body| == 24 then Some(Store(At(body, 0, 8), At(body, 8, 8), At(body, 16, 4)))
    else if opcode == 3 && |body| == 16 then
      Some(StoreCounter(At(body, 0, 4), At(body, 4, 1), At(body, 5, 1), At(body, 8, 8)))
    else if opcode == 4 && |body| == 32 then
      Some(AwaitAddress(At(body, 0, 8), At(body, 8, 8), At(body, 16, 8), At(body, 28, 1)))
    else if opcode == 5 && |body| == 32 then
      Some(AwaitCounter(At(body, 24, 4), At(body, 29, 1), At(body, 8, 8), At(body, 16, 8), At(body, 28, 1)))
    else if opcode == 6 && |body| == 32 then
      Some(Notify(At(body, 0, 8), At(body, 8, 8), At(body, 16, 8), At(body, 24, 8)))
    else if opcode == 7 && |body| == 16 then Some(StoreTime(At(body, 0, 8)))
    else if opcode == 8 && |body| == 16 then Some(StoreFromCounter(At(body, 0, 8), At(body, 8, 4)))
    else if opcode == 9 && |body| == 16 then Some(StoreFromPair(At(body, 0, 8), At(body, 8, 4), At(body, 12, 4)))
    else if opcode == 10 then Some(Push(TextOf(body)))
    else if opcode == 11 then Some(Pop)
    else if opcode == 12 then Some(Mark(TextOf(body)))
    else if opcode == 16 then Some(Forget)
    else if opcode == 20 then Some(EndMap)
    else if |body| == 32 then DecodeLong(opcode, body)
    else None
  }

  /** Reads and maps. */
  function DecodeLong(opcode: nat, body: seq<Byte>): Option<Action>
    requires |body| == 32
  {
    if opcode == 1 then Some(Fetch(At(body, 0, 4), At(body, 8, 8), At(body, 16, 8), At(body, 24, 8)))
    else if opcode == 14 then Some(Scatter(At(body, 8, 8), At(body, 16, 8)))
    else if opcode == 15 then Some(GatherScatter(At(body, 8, 8), At(body, 16, 8), At(body, 24, 8)))
    else if opcode == 17 then Some(Map(At(body, 0, 8), At(body, 16, 8), At(body, 24, 4), At(body, 28, 4)))
    else if opcode == 18 then
      Some(MapDirect(At(body, 0, 8), At(body, 8, 8), At(body, 16, 8), At(body, 24, 4), At(body, 28, 4)))
    else None
  }

  // ----- What each call asks for

  const NO_MASK: nat := 0xFFFF_FFFF_FFFF_FFFF

  function Asked(call: Call): Action {
    match call
    case WriteAddress(address, value, flags) => Store(address, value, flags)
    case WriteAddressOnCompletion(address, value) => Store(address, value, 0)
    case WriteCounterOnCompletion(counter, value) => StoreCounter(counter, 1, 0, value)
    case WriteCounter(counter, access, value, operation, _) => StoreCounter(counter, access, operation, value)
    case WaitOnAddress(address, reference, compare, _) => AwaitAddress(address, reference, NO_MASK, compare)
    case WaitOnCounter(counter, access, reference, compare, maskOperation, mask, _) =>
      AwaitCounter(counter, access, reference, if maskOperation == 0 then NO_MASK else mask, compare)
    case WriteEventQueue(equeue, ident, data, _) => Notify(equeue, ident, data, 0)
    case WriteTime(address, _) => StoreTime(address)
    case WriteFromCounter(address, counter, _) => StoreFromCounter(address, counter)
    case WriteFromPair(address, counter, _) => StoreFromPair(address, counter, counter + 1)
    case MapBegin(address, directOffset, size, typ, protection, direct) =>
      if direct then MapDirect(address, directOffset, size, typ, protection) else Map(address, size, typ, protection)
    case MapEnd => EndMap
    case ReadFile(fileId, destination, size, offset) => Fetch(fileId, destination, size, offset)
    case ReadGather(size, offset) => Gather(size, offset)
    case ReadGatherScatter(destination, size, offset) => GatherScatter(destination, size, offset)
    case ReadScatter(destination, size) => Scatter(destination, size)
    case ResetGatherScatter => Forget
    case Nop(dwords) => Skip(seq(dwords, _ => 0))
    case NopWithData(words) => Skip(words)
    case PushMarker(text) => Push(text)
    case SetMarker(text) => Mark(text)
    case PopMarker => Pop
  }

  const B1: nat := 0x100
  const B4: nat := 0x1_0000_0000
  const B8: nat := 0x1_0000_0000_0000_0000

  /** Every argument has the width of its type, and a text has no NUL. */
  predicate InWidth(call: Call) {
    match call
    case WriteAddress(address, value, flags) => address < B8 && value < B8 && flags < B4
    case WriteAddressOnCompletion(address, value) => address < B8 && value < B8
    case WriteCounterOnCompletion(counter, value) => counter < B1 && value < B4
    case WriteCounter(counter, access, value, operation, _) =>
      counter < B1 && access < B1 && value < B8 && operation < B1
    case WaitOnAddress(address, reference, compare, _) => address < B8 && reference < B8 && compare < B1
    case WaitOnCounter(counter, access, reference, compare, _, mask, _) =>
      counter < B1 && access < B1 && reference < B8 && compare < B1 && mask < B8
    case WriteEventQueue(equeue, ident, data, _) => equeue < B8 && ident < B8 && data < B8
    case WriteTime(address, _) => address < B8
    case WriteFromCounter(address, counter, _) => address < B8 && counter < B1
    case WriteFromPair(address, counter, _) => address < B8 && counter < B1
    case MapBegin(address, directOffset, size, typ, protection, _) =>
      address < B8 && directOffset < B8 && size < B8 && typ < B4 && protection < B4
    case ReadFile(fileId, destination, size, offset) => fileId < B4 && destination < B8 && size < B8 && offset < B8
    case ReadGather(size, offset) => size < B8 && offset < B8
    case ReadGatherScatter(destination, size, offset) => destination < B8 && size < B8 && offset < B8
    case ReadScatter(destination, size) => destination < B8 && size < B8
    case NopWithData(words) => forall w <- words :: w < B4
    case PushMarker(text) => 0 !in text
    case SetMarker(text) => 0 !in text
    case _ => true
  }

  // ----- Fields one after another

  lemma Ranges()
    ensures Range(1) == B1 && Range(2) == 0x1_0000 && Range(4) == B4 && Range(8) == B8
  {
    assert Range(3) == 0x100_0000 && Range(2) == 0x1_0000;
    assert Range(5) == 0x100_0000_0000 && Range(6) == 0x1_0000_0000_0000 && Range(7) == 0x100_0000_0000_0000;
  }

  /** The first field is read at its place, and later ones where they stand behind it. */
  lemma FieldFirst(value: nat, width: nat, rest: seq<Byte>)
    requires value < Range(width)
    ensures At(Fixed(value, width) + rest, 0, width) == value
  {
    FixedReads(value, width);
    assert (Fixed(value, width) + rest)[0..width] == Fixed(value, width);
  }

  lemma FieldLater(first: seq<Byte>, rest: seq<Byte>, offset: nat, width: nat)
    requires |first| <= offset && offset + width <= |first| + |rest|
    ensures At(first + rest, offset, width) == At(rest, offset - |first|, width)
  {
    assert (first + rest)[offset..offset + width] == rest[offset - |first|..offset - |first| + width];
  }

  /** A field is read where it stands between others. */
  lemma FieldAt(before: seq<Byte>, value: nat, width: nat, rest: seq<Byte>, bytes: seq<Byte>)
    requires value < Range(width) && bytes == before + Fixed(value, width) + rest
    ensures At(bytes, |before|, width) == value
  {
    FixedReads(value, width);
    assert bytes[|before|..|before| + width] == Fixed(value, width);
  }

  lemma Regrouped(a: seq<Byte>, b: seq<Byte>, c: seq<Byte>, d: seq<Byte>)
    ensures a + b + c + d == a + (b + c + d) == a + b + (c + d) == [] + a + (b + c + d) == a + b + c + d + []
  {
  }

  /** Four fields of these widths. */
  lemma FourFields(a: nat, b: nat, c: nat, d: nat, wa: nat, wb: nat, wc: nat, wd: nat, bytes: seq<Byte>)
    requires a < Range(wa) && b < Range(wb) && c < Range(wc) && d < Range(wd)
    requires bytes == Fixed(a, wa) + Fixed(b, wb) + Fixed(c, wc) + Fixed(d, wd)
    ensures At(bytes, 0, wa) == a && At(bytes, wa, wb) == b && At(bytes, wa + wb, wc) == c
            && At(bytes, wa + wb + wc, wd) == d
  {
    var fa, fb, fc, fd := Fixed(a, wa), Fixed(b, wb), Fixed(c, wc), Fixed(d, wd);
    Regrouped(fa, fb, fc, fd);
    FieldAt([], a, wa, fb + fc + fd, bytes);
    FieldAt(fa, b, wb, fc + fd, bytes);
    FieldAt(fa + fb, c, wc, fd, bytes);
    FieldAt(fa + fb + fc, d, wd, [], bytes);
  }

  /** What stands behind one more field. */
  lemma Behind(z: nat, wz: nat, rest: seq<Byte>, offset: nat, width: nat)
    requires offset + width <= |rest|
    ensures At(Fixed(z, wz) + rest, wz + offset, width) == At(rest, offset, width)
  {
    FieldLater(Fixed(z, wz), rest, wz + offset, width);
  }

  lemma FiveFields(z: nat, wz: nat, a: nat, b: nat, c: nat, d: nat, wa: nat, wb: nat, wc: nat, wd: nat,
                   bytes: seq<Byte>)
    requires z < Range(wz) && a < Range(wa) && b < Range(wb) && c < Range(wc) && d < Range(wd)
    requires bytes == Fixed(z, wz) + (Fixed(a, wa) + Fixed(b, wb) + Fixed(c, wc) + Fixed(d, wd))
    ensures At(bytes, 0, wz) == z && At(bytes, wz, wa) == a && At(bytes, wz + wa, wb) == b
    ensures At(bytes, wz + wa + wb, wc) == c && At(bytes, wz + wa + wb + wc, wd) == d
  {
    var rest := Fixed(a, wa) + Fixed(b, wb) + Fixed(c, wc) + Fixed(d, wd);
    FieldFirst(z, wz, rest);
    FourFields(a, b, c, d, wa, wb, wc, wd, rest);
    Behind(z, wz, rest, 0, wa);
    Behind(z, wz, rest, wa, wb);
    Behind(z, wz, rest, wa + wb, wc);
    Behind(z, wz, rest, wa + wb + wc, wd);
  }

  lemma FiveJoined(z: seq<Byte>, a: seq<Byte>, b: seq<Byte>, c: seq<Byte>, d: seq<Byte>)
    ensures z + a + b + c + d == z + (a + b + c + d)
  {
  }

  /** The header tells the opcode and the size. */
  lemma HeaderReads(opcode: nat, body: seq<Byte>)
    requires opcode < 29 && 8 + |body| < B4
    ensures Decode(Fixed(opcode, 4) + Fixed(8 + |body|, 4) + body) == DecodeBody(opcode, body)
  {
    var bytes := Fixed(opcode, 4) + Fixed(8 + |body|, 4) + body;
    Ranges();
    assert bytes == Fixed(opcode, 4) + (Fixed(8 + |body|, 4) + body);
    FieldFirst(opcode, 4, Fixed(8 + |body|, 4) + body);
    FieldLater(Fixed(opcode, 4), Fixed(8 + |body|, 4) + body, 4, 4);
    FieldFirst(8 + |body|, 4, body);
    LowestByte(opcode, Fixed(8 + |body|, 4) + body);
    assert bytes[8..] == body;
  }

  lemma LowestByte(value: nat, rest: seq<Byte>)
    ensures At(Fixed(value, 4) + rest, 0, 1) == value % 256
  {
    var bytes := Fixed(value, 4) + rest;
    assert bytes[0..1] == [Digit(value, 0)];
    var one := bytes[0..1];
    assert one[1..] == [] && FixedValue(one[1..]) == 0 && FixedValue(one) == one[0];
  }

  // ----- Reading gives back what was asked for

  /** The payload of a wait: three wide fields and four small ones. */
  lemma WaitReads(address: nat, reference: nat, mask: nat, counter: nat, compare: nat, access: nat)
    requires address < B8 && reference < B8 && mask < B8 && counter < B4 && compare < B1 && access < B1
    ensures var body := Wait(address, reference, mask, counter, compare, access);
            && At(body, 0, 8) == address && At(body, 8, 8) == reference && At(body, 16, 8) == mask
            && At(body, 24, 4) == counter && At(body, 28, 1) == compare && At(body, 29, 1) == access
  {
    var rest := Fixed(counter, 4) + Fixed(compare, 1) + Fixed(access, 1) + Fixed(0, 2);
    var second := Fixed(mask, 8) + rest;
    var first := Fixed(reference, 8) + second;
    Ranges();
    WaitParts(Fixed(address, 8), Fixed(reference, 8), Fixed(mask, 8), Fixed(counter, 4), Fixed(compare, 1),
              Fixed(access, 1), Fixed(0, 2));
    FourFields(counter, compare, access, 0, 4, 1, 1, 2, rest);
    FieldFirst(address, 8, first);
    FieldFirst(reference, 8, second);
    FieldFirst(mask, 8, rest);
    Behind(address, 8, first, 0, 8);
    Behind(address, 8, first, 8, 8);
    Behind(reference, 8, second, 0, 8);
    SmallFields(address, reference, mask, rest, 0, 4);
    SmallFields(address, reference, mask, rest, 4, 1);
    SmallFields(address, reference, mask, rest, 5, 1);
  }

  lemma SmallFields(address: nat, reference: nat, mask: nat, rest: seq<Byte>, offset: nat, width: nat)
    requires offset + width <= |rest|
    ensures At(Fixed(address, 8) + (Fixed(reference, 8) + (Fixed(mask, 8) + rest)), 24 + offset, width) ==
            At(rest, offset, width)
  {
    Behind(mask, 8, rest, offset, width);
    Behind(reference, 8, Fixed(mask, 8) + rest, 8 + offset, width);
    Behind(address, 8, Fixed(reference, 8) + (Fixed(mask, 8) + rest), 16 + offset, width);
  }

  lemma WaitParts(a: seq<Byte>, b: seq<Byte>, c: seq<Byte>, d: seq<Byte>, e: seq<Byte>, f: seq<Byte>, g: seq<Byte>)
    ensures a + b + c + d + e + f + g == a + (b + (c + (d + e + f + g)))
  {
    assert c + d + e + f + g == c + (d + e + f + g);
    assert a + b + c + d + e + f + g == a + b + (c + d + e + f + g);
  }

  lemma ReadReads(fileId: nat, destination: nat, size: nat, offset: nat)
    requires fileId < B4 && destination < B8 && size < B8 && offset < B8
    ensures var body := AmprCommands.Read(fileId, destination, size, offset);
            At(body, 0, 4) == fileId && At(body, 8, 8) == destination && At(body, 16, 8) == size
              && At(body, 24, 8) == offset
  {
    Ranges();
    FiveJoined(Fixed(fileId, 4), Fixed(0, 4), Fixed(destination, 8), Fixed(size, 8), Fixed(offset, 8));
    FiveFields(fileId, 4, 0, destination, size, offset, 4, 8, 8, 8,
               AmprCommands.Read(fileId, destination, size, offset));
  }

  lemma CounterReads(counter: nat, access: nat, operation: nat, value: nat)
    requires counter < B4 && access < B1 && operation < B1 && value < B8
    ensures var body := CounterWrite(counter, access, operation, value);
            At(body, 0, 4) == counter && At(body, 4, 1) == access && At(body, 5, 1) == operation
              && At(body, 8, 8) == value
  {
    Ranges();
    FiveJoined(Fixed(counter, 4), Fixed(access, 1), Fixed(operation, 1), Fixed(0, 2), Fixed(value, 8));
    FiveFields(counter, 4, access, operation, 0, value, 1, 1, 2, 8, CounterWrite(counter, access, operation, value));
  }

  lemma MapReads(address: nat, directOffset: nat, size: nat, typ: nat, protection: nat)
    requires address < B8 && directOffset < B8 && size < B8 && typ < B4 && protection < B4
    ensures var body := Fixed(address, 8) + Fixed(directOffset, 8) + Fixed(size, 8) + Fixed(typ, 4)
            + Fixed(protection, 4);
            && At(body, 0, 8) == address && At(body, 8, 8) == directOffset && At(body, 16, 8) == size
            && At(body, 24, 4) == typ && At(body, 28, 4) == protection
  {
    Ranges();
    FiveJoined(Fixed(address, 8), Fixed(directOffset, 8), Fixed(size, 8), Fixed(typ, 4), Fixed(protection, 4));
    FiveFields(address, 8, directOffset, size, typ, protection, 8, 8, 4, 4,
               Fixed(address, 8) + Fixed(directOffset, 8) + Fixed(size, 8) + Fixed(typ, 4) + Fixed(protection, 4));
  }

  lemma PairReads(address: nat, first: nat, second: nat)
    requires address < B8 && first < B4 && second < B4
    ensures var body := Fixed(address, 8) + Fixed(first, 4) + Fixed(second, 4);
            At(body, 0, 8) == address && At(body, 8, 4) == first && At(body, 12, 4) == second
  {
    var body := Fixed(address, 8) + Fixed(first, 4) + Fixed(second, 4);
    Ranges();
    assert Fixed(0, 0) == [] && body == body + Fixed(0, 0);
    FourFields(address, first, second, 0, 8, 4, 4, 0, body);
  }

  lemma {:induction false} TextReads(text: seq<Byte>, zeros: seq<Byte>)
    requires 0 !in text && zeros != [] && zeros[0] == 0
    ensures TextOf(text + zeros) == text
    decreases |text|
  {
    if text != [] {
      assert text[0] in text;
      assert (text + zeros)[1..] == text[1..] + zeros;
      TextReads(text[1..], zeros);
    } else {
      assert text + zeros == zeros;
    }
  }

  lemma MarkerReads(text: seq<Byte>)
    requires 0 !in text
    ensures TextOf(MarkerText(text)) == text
  {
    var zeros: seq<Byte> := seq((|text| + 8) / 8 * 8 - |text|, _ => 0);
    assert |zeros| > 0;
    TextReads(text, zeros);
  }

  lemma {:induction false} DwordsRead(words: seq<nat>)
    requires forall w <- words :: w < B4
    ensures WordsOf(Dwords(words)) == words
    decreases |words|
  {
    if words != [] {
      var rest := Dwords(words[1..]);
      Ranges();
      assert words[0] in words;
      assert words[0] < Range(4);
      FieldFirst(words[0], 4, rest);
      forall w <- words[1..] ensures w < B4 { assert w in words; }
      DwordsRead(words[1..]);
      assert (Fixed(words[0], 4) + rest)[4..] == rest;
    }
  }

  lemma {:induction false} ZerosAreDwords(n: nat)
    ensures var zeros: seq<Byte> := seq(4 * n, _ => 0); zeros == Dwords(seq(n, _ => 0))
  {
    if n > 0 {
      ZerosAreDwords(n - 1);
      assert seq(n, _ => 0 as nat)[1..] == seq(n - 1, _ => 0);
      assert forall i :: 0 <= i < 4 ==> Fixed(0, 4)[i] == 0 by { ZeroDigits(3); }
    }
  }

  lemma {:induction false} ZeroDigits(n: nat)
    ensures forall i: nat :: i <= n ==> Digit(0, i) == 0
  {
    if n > 0 { ZeroDigits(n - 1); }
  }

  lemma StoresRead(call: Call)
    requires InWidth(call) && ValidArguments(call)
    requires call.WriteAddress? || call.WriteAddressOnCompletion? || call.WriteCounterOnCompletion?
             || call.WriteCounter?
    ensures DecodeBody(Opcode(call), Payload(call)) == Some(Asked(call))
  {
    Ranges();
    match call
    case WriteAddress(address, value, flags) => FourFields(address, value, flags, 0, 8, 8, 4, 4, Payload(call));
    case WriteAddressOnCompletion(address, value) => FourFields(address, value, 0, 0, 8, 8, 4, 4, Payload(call));
    case WriteCounterOnCompletion(counter, value) => CounterReads(counter, 1, 0, value);
    case WriteCounter(counter, access, value, operation, _) => CounterReads(counter, access, operation, value);
    case _ =>
  }

  lemma WaitsRead(call: Call)
    requires InWidth(call) && (call.WaitOnAddress? || call.WaitOnCounter? || call.WriteEventQueue?)
    ensures DecodeBody(Opcode(call), Payload(call)) == Some(Asked(call))
  {
    Ranges();
    match call
    case WaitOnAddress(address, reference, compare, _) => WaitReads(address, reference, ALL_ONES, 0, compare, 0);
    case WaitOnCounter(counter, access, reference, compare, maskOperation, mask, _) =>
      WaitReads(0, reference, if maskOperation != 0 then mask else ALL_ONES, counter, compare, access);
    case WriteEventQueue(equeue, ident, data, _) => FourFields(equeue, ident, data, 0, 8, 8, 8, 8, Payload(call));
    case _ =>
  }

  lemma PairsRead(call: Call)
    requires InWidth(call) && (call.WriteTime? || call.WriteFromCounter? || call.WriteFromPair?)
    ensures DecodeBody(Opcode(call), Payload(call)) == Some(Asked(call))
  {
    match call
    case WriteTime(address, _) => PairReads(address, 0, 0);
    case WriteFromCounter(address, counter, _) => PairReads(address, counter, 0);
    case WriteFromPair(address, counter, _) => PairReads(address, counter, counter + 1);
    case _ =>
  }

  lemma LongRead(call: Call)
    requires InWidth(call) && (call.MapBegin? || call.ReadFile? || call.ReadGatherScatter? || call.ReadScatter?)
    ensures DecodeBody(Opcode(call), Payload(call)) == Some(Asked(call))
  {
    match call
    case MapBegin(address, directOffset, size, typ, protection, direct) =>
      MapReads(address, if direct then directOffset else 0, size, typ, protection);
    case ReadFile(fileId, destination, size, offset) => ReadReads(fileId, destination, size, offset);
    case ReadGatherScatter(destination, size, offset) => ReadReads(0, destination, size, offset);
    case ReadScatter(destination, size) => ReadReads(0, destination, size, 0);
    case _ =>
  }

  lemma SkippedRead(call: Call)
    requires InWidth(call) && (call.Nop? || call.NopWithData? || call.PushMarker? || call.SetMarker?)
    ensures DecodeBody(Opcode(call), Payload(call)) == Some(Asked(call))
  {
    match call
    case Nop(dwords) =>
      ZerosAreDwords(dwords);
      DwordsRead(seq(dwords, _ => 0));
    case NopWithData(words) => DwordsRead(words);
    case PushMarker(text) => MarkerReads(text);
    case SetMarker(text) => MarkerReads(text);
    case _ =>
  }

  /** The compact gather: 24 bits of the offset beside the opcode, the size less one, and the lower half of the
      offset. */
  lemma GatherReads(size: nat, offset: nat)
    requires ValidReadLength(size) && ValidReadOffset(offset)
    ensures Decode(Command(ReadGather(size, offset))) == Some(Gather(size, offset))
  {
    var bytes, high, low := Command(ReadGather(size, offset)), offset / B4, offset % B4;
    var head, less := COMPACT_GATHER + high * 256, (size + 0xFFFF_FFFF) % B4;
    Ranges();
    assert less == size - 1;
    assert bytes == Fixed(head, 4) + (Fixed(less, 4) + Fixed(low, 4));
    LowestByte(head, Fixed(less, 4) + Fixed(low, 4));
    HighBytes(head, Fixed(less, 4) + Fixed(low, 4));
    FieldAt(Fixed(head, 4), less, 4, Fixed(low, 4), bytes);
    assert bytes == Fixed(head, 4) + Fixed(less, 4) + Fixed(low, 4) + [];
    FieldAt(Fixed(head, 4) + Fixed(less, 4), low, 4, [], bytes);
    assert head / 256 == high && head % 256 == 29;
  }

  lemma HighBytes(value: nat, rest: seq<Byte>)
    requires value < B4
    ensures At(Fixed(value, 4) + rest, 1, 3) == value / 256
  {
    Ranges();
    FixedStep(value, 4);
    FixedReads(value / 256, 3);
    assert (Fixed(value, 4) + rest)[1..4] == Fixed(value / 256, 3);
  }

  /** Whatever a recorder accepts, its command says what was asked for, with every argument that is not dropped. */
  lemma CommandDecodes(call: Call)
    requires ValidArguments(call) && InWidth(call) && |Command(call)| < B4
    ensures Decode(Command(call)) == Some(Asked(call))
  {
    if call.ReadGather? {
      GatherReads(call.size, call.offset);
    } else {
      HeaderReads(Opcode(call), Payload(call));
      BodyDecodes(call);
    }
  }

  lemma BodyDecodes(call: Call)
    requires ValidArguments(call) && InWidth(call) && !call.ReadGather?
    ensures DecodeBody(Opcode(call), Payload(call)) == Some(Asked(call))
  {
    match call
    case WriteAddress(_, _, _) => StoresRead(call);
    case WriteAddressOnCompletion(_, _) => StoresRead(call);
    case WriteCounterOnCompletion(_, _) => StoresRead(call);
    case WriteCounter(_, _, _, _, _) => StoresRead(call);
    case WaitOnAddress(_, _, _, _) => WaitsRead(call);
    case WaitOnCounter(_, _, _, _, _, _, _) => WaitsRead(call);
    case WriteEventQueue(_, _, _, _) => WaitsRead(call);
    case WriteTime(_, _) => PairsRead(call);
    case WriteFromCounter(_, _, _) => PairsRead(call);
    case WriteFromPair(_, _, _) => PairsRead(call);
    case Nop(_) => SkippedRead(call);
    case NopWithData(_) => SkippedRead(call);
    case PushMarker(_) => SkippedRead(call);
    case SetMarker(_) => SkippedRead(call);
    case MapEnd =>
    case ResetGatherScatter =>
    case PopMarker =>
    case _ => LongRead(call);
  }

  // ----- Whole histories

  lemma {:induction false} CommandsAt(calls: seq<Call>, k: nat)
    requires k < |calls|
    ensures Commands(Command, calls)[k] == Command(calls[k])
    decreases |calls|
  {
    if k > 0 { CommandsAt(calls[1..], k - 1); }
  }

  /** After any history on buffers below 4 GiB, the recorded bytes cut into commands that say, one by one, what the
      recorded calls asked for. */
  lemma HistoryDecodes(history: seq<Event>)
    requires forall e <- history :: (e.Bound? ==> e.size < 0x1_0000_0000) && (e.Called? ==> InWidth(e.call))
    ensures var calls := Play(Ampr(), history).calls;
            var cut := Cut(Stream(Command, calls));
            cut.Some? && |cut.value| == |calls| && forall k :: 0 <= k < |calls| ==>
                Decode(cut.value[k]) == Some(Asked(calls[k]))
  {
    var s := Play(Ampr(), history);
    HistoryCuts(history);
    PlayFits(Ampr(), history);
    CapacityBound(history);
    PlayCalled(history);
    forall k | 0 <= k < |s.calls| ensures Decode(Commands(Command, s.calls)[k]) == Some(Asked(s.calls[k])) {
      CommandsAt(s.calls, k);
      assert s.calls[k] in s.calls;
      CommandWithin(Command, s.calls, s.calls[k]);
      CommandDecodes(s.calls[k]);
    }
  }

  /** What is recorded was called. */
  lemma {:induction false} PlayCalled(history: seq<Event>)
    ensures forall call <- Play(Ampr(), history).calls :: Called(call) in history
    decreases |history|
  {
    if history != [] {
      var n := |history| - 1;
      PlayCalled(history[..n]);
      assert history == history[..n] + [history[n]];
    }
  }
}
