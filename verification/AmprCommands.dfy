/** The AMPR command buffer: what each call checks, the bytes it records, and the size it is measured to have. */
module AmprCommands {
  import opened Wrappers
  import opened Uleb128
  import opened Serial

  const PAGE: nat := 0x4000
  const USER_LIMIT: nat := 0xF000_0000_0000
  const COMPACT_GATHER: nat := 29

  datatype Code = Success | Invalid | NotPermitted | BufferFull

  /** The recording calls. Numbers have the width of the argument they stand for. */
  datatype Call =
    | WriteAddress(address: nat, value: nat, flags: nat)
    | WriteAddressOnCompletion(address: nat, value: nat)
    | WriteCounterOnCompletion(counter: nat, value: nat)
    | WriteCounter(counter: nat, access: nat, value: nat, operation: nat, atStart: bool)
    | WaitOnAddress(address: nat, reference: nat, compare: nat, flush: nat)
    | WaitOnCounter(counter: nat, access: nat, reference: nat, compare: nat, maskOperation: nat, mask: nat, flush: nat)
    | WriteEventQueue(equeue: nat, ident: nat, data: nat, atStart: bool)
    | WriteTime(address: nat, atStart: bool)
    | WriteFromCounter(address: nat, counter: nat, atStart: bool)
    | WriteFromPair(address: nat, counter: nat, atStart: bool)
    | MapBegin(address: nat, directOffset: nat, size: nat, typ: nat, protection: nat, direct: bool)
    | MapEnd
    | ReadFile(fileId: nat, destination: nat, size: nat, offset: nat)
    | ReadGather(size: nat, offset: nat)
    | ReadGatherScatter(destination: nat, size: nat, offset: nat)
    | ReadScatter(destination: nat, size: nat)
    | ResetGatherScatter
    | Nop(dwords: nat)
    | NopWithData(words: seq<nat>)
    | PushMarker(text: seq<Byte>)
    | SetMarker(text: seq<Byte>)
    | PopMarker

  // ----- Checks on arguments

  predicate ValidWriteAddress(address: nat) { address != 0 && address % 8 == 0 }
  predicate ValidReadLength(size: nat) { size != 0 && size <= 0x1_0000_0000 }
  predicate ValidReadOffset(offset: nat) { offset < 0x100_0000_0000 }

  predicate ValidRead(destination: nat, size: nat, offset: nat) {
    ValidReadLength(size) && destination <= USER_LIMIT && size <= USER_LIMIT - destination && ValidReadOffset(offset)
  }

  /** Whole pages that do not wrap around, and protection bits 0, 1 and 4 to 9 only. */
  predicate ValidMap(address: nat, directOffset: nat, size: nat, protection: nat) {
    && address != 0 && size != 0 && address % PAGE == 0 && size % PAGE == 0 && (address + size) % WORD_LIMIT > address
    && directOffset % PAGE == 0 && protection / 4 % 4 == 0 && protection < 0x400
  }

  predicate ValidArguments(call: Call) {
    match call
    case WriteAddress(_, _, _) => true
    case WriteAddressOnCompletion(address, _) => ValidWriteAddress(address)
    case WriteCounterOnCompletion(counter, _) => counter < 128
    case WriteCounter(counter, access, _, operation, _) => counter < 128 && access < 8 && operation < 5
    case WaitOnAddress(address, _, compare, flush) => ValidWriteAddress(address) && compare <= 6 && flush <= 1
    case WaitOnCounter(_, access, _, compare, maskOperation, _, flush) => access < 8 && compare <= 6
        && maskOperation < 2 && flush < 2
    case WriteEventQueue(equeue, _, _, _) => equeue != 0
    case WriteTime(address, _) => ValidWriteAddress(address)
    case WriteFromCounter(address, counter, _) => ValidWriteAddress(address) && counter < 128
    case WriteFromPair(address, counter, _) => ValidWriteAddress(address) && counter < 128 && counter % 2 == 0
    case MapBegin(address, directOffset, size, _, protection, direct) =>
        ValidMap(address, if direct then directOffset else 0, size, protection)
    case ReadFile(_, destination, size, offset) => ValidRead(destination, size, offset)
    case ReadGather(size, offset) => ValidReadLength(size) && ValidReadOffset(offset)
    case ReadGatherScatter(destination, size, offset) => ValidRead(destination, size, offset)
    case ReadScatter(destination, size) => ValidRead(destination, size, 0)
    case Nop(dwords) => 0 < dwords <= 16
    case NopWithData(words) => |words| <= 15
    case _ => true
  }

  /** Calls that take effect on completion are not allowed between MapBegin and MapEnd. */
  predicate OnCompletion(call: Call) {
    match call
    case WriteAddressOnCompletion(_, _) => true
    case WriteCounterOnCompletion(_, _) => true
    case WriteCounter(_, _, _, _, atStart) => !atStart
    case WriteEventQueue(_, _, _, atStart) => !atStart
    case WriteTime(_, atStart) => !atStart
    case WriteFromCounter(_, _, atStart) => !atStart
    case WriteFromPair(_, _, atStart) => !atStart
    case _ => false
  }

  predicate NeedsRead(call: Call) { call.ReadGather? || call.ReadGatherScatter? || call.ReadScatter? }

  predicate SetsRead(call: Call) { call.ReadFile? || call.ReadGatherScatter? || call.ReadScatter? }

  // ----- What is recorded

  function Opcode(call: Call): (opcode: nat)
    ensures opcode < COMPACT_GATHER
  {
    match call
    case Nop(_) => 0
    case NopWithData(_) => 0
    case ReadFile(_, _, _, _) => 1
    case WriteAddress(_, _, _) => 2
    case WriteAddressOnCompletion(_, _) => 2
    case WriteCounterOnCompletion(_, _) => 3
    case WriteCounter(_, _, _, _, _) => 3
    case WaitOnAddress(_, _, _, _) => 4
    case WaitOnCounter(_, _, _, _, _, _, _) => 5
    case WriteEventQueue(_, _, _, _) => 6
    case WriteTime(_, _) => 7
    case WriteFromCounter(_, _, _) => 8
    case WriteFromPair(_, _, _) => 9
    case PushMarker(_) => 10
    case PopMarker => 11
    case SetMarker(_) => 12
    case ReadGather(_, _) => 13
    case ReadScatter(_, _) => 14
    case ReadGatherScatter(_, _, _) => 15
    case ResetGatherScatter => 16
    case MapBegin(_, _, _, _, _, direct) => if direct then 18 else 17
    case MapEnd => 20
  }

  /** The text of a marker, its NUL, and zeros up to a multiple of eight. */
  function MarkerText(text: seq<Byte>): (bytes: seq<Byte>)
    ensures |bytes| == (|text| + 8) / 8 * 8
  {
    text + seq((|text| + 8) / 8 * 8 - |text|, _ => 0)
  }

  /** The words of a no-operation, four bytes each. */
  function Dwords(words: seq<nat>): (bytes: seq<Byte>)
    ensures |bytes| == 4 * |words|
    decreases |words|
  {
    if words == [] then [] else Fixed(words[0], 4) + Dwords(words[1..])
  }

  const ALL_ONES: nat := 0xFFFF_FFFF_FFFF_FFFF

  function Wait(address: nat, reference: nat, mask: nat, counter: nat, compare: nat, access: nat): (bytes: seq<Byte>)
    ensures |bytes| == 32
  {
    Fixed(address, 8) + Fixed(reference, 8) + Fixed(mask, 8) + Fixed(counter, 4) + Fixed(compare, 1) + Fixed(access, 1)
        + Fixed(0, 2)
  }

  function Read(fileId: nat, destination: nat, size: nat, offset: nat): (bytes: seq<Byte>)
    ensures |bytes| == 32
  {
    Fixed(fileId, 4) + Fixed(0, 4) + Fixed(destination, 8) + Fixed(size, 8) + Fixed(offset, 8)
  }

  function CounterWrite(counter: nat, access: nat, operation: nat, value: nat): (bytes: seq<Byte>)
    ensures |bytes| == 16
  {
    Fixed(counter, 4) + Fixed(access, 1) + Fixed(operation, 1) + Fixed(0, 2) + Fixed(value, 8)
  }

  /** What follows the header of a command. */
  function Payload(call: Call): seq<Byte> {
    match call
    case WriteAddress(address, value, flags) => Fixed(address, 8) + Fixed(value, 8) + Fixed(flags, 4) + Fixed(0, 4)
    case WriteAddressOnCompletion(address, value) => Fixed(address, 8) + Fixed(value, 8) + Fixed(0, 4) + Fixed(0, 4)
    case WriteCounterOnCompletion(counter, value) => CounterWrite(counter, 1, 0, value)
    case WriteCounter(counter, access, value, operation, _) => CounterWrite(counter, access, operation, value)
    case WaitOnAddress(address, reference, compare, _) => Wait(address, reference, ALL_ONES, 0, compare, 0)
    case WaitOnCounter(counter, access, reference, compare, maskOperation, mask, _) =>
      Wait(0, reference, if maskOperation != 0 then mask else ALL_ONES, counter, compare, access)
    case WriteEventQueue(equeue, ident, data, _) => Fixed(equeue, 8) + Fixed(ident, 8) + Fixed(data, 8) + Fixed(0, 8)
    case WriteTime(address, _) => Fixed(address, 8) + Fixed(0, 4) + Fixed(0, 4)
    case WriteFromCounter(address, counter, _) => Fixed(address, 8) + Fixed(counter, 4) + Fixed(0, 4)
    case WriteFromPair(address, counter, _) => Fixed(address, 8) + Fixed(counter, 4) + Fixed(counter + 1, 4)
    case MapBegin(address, directOffset, size, typ, protection, direct) =>
      var offset := if direct then directOffset else 0;
      Fixed(address, 8) + Fixed(offset, 8) + Fixed(size, 8) + Fixed(typ, 4) + Fixed(protection, 4)
    case ReadFile(fileId, destination, size, offset) => Read(fileId, destination, size, offset)
    case ReadGatherScatter(destination, size, offset) => Read(0, destination, size, offset)
    case ReadScatter(destination, size) => Read(0, destination, size, 0)
    case Nop(dwords) => seq(4 * dwords, _ => 0)
    case NopWithData(words) => Dwords(words)
    case PushMarker(text) => MarkerText(text)
    case SetMarker(text) => MarkerText(text)
    case _ => []
  }

  /** A header of opcode and length, then the payload; the compact gather has twelve bytes and no length. */
  function Command(call: Call): (bytes: seq<Byte>)
    ensures |bytes| >= 8
  {
    if call.ReadGather? then
      Fixed(COMPACT_GATHER + call.offset / 0x1_0000_0000 * 256, 4) + Fixed((call.size + 0xFFFF_FFFF) % 0x1_0000_0000, 4)
          + Fixed(call.offset % 0x1_0000_0000, 4)
    else Fixed(Opcode(call), 4) + Fixed(8 + |Payload(call)|, 4) + Payload(call)
  }

  // ----- What is measured

  /** The size a call's measuring function gives; None where it reports invalid arguments. */
  function Measure(call: Call): Option<nat> {
    match call
    case WriteAddress(_, _, _) => Some(32)
    case WriteAddressOnCompletion(_, _) => Some(32)
    case WriteCounterOnCompletion(_, _) => Some(24)
    case WriteCounter(counter, access, _, operation, _) => if counter < 128 && access < 8 && operation < 5 then Some(24)
        else None
    case WaitOnAddress(address, _, compare, flush) => if ValidWriteAddress(address) && compare <= 6 && flush <= 1
        then Some(40) else None
    case WaitOnCounter(_, access, _, compare, maskOperation, _, flush) =>
      if access < 8 && compare <= 6 && maskOperation < 2 && flush < 2 then Some(40) else None
    case WriteEventQueue(_, _, _, _) => Some(40)
    case WriteTime(address, _) => if ValidWriteAddress(address) then Some(24) else None
    case WriteFromCounter(address, _, _) => if ValidWriteAddress(address) then Some(24) else None
    case WriteFromPair(address, counter, _) => if ValidWriteAddress(address) && counter % 2 == 0 then Some(24) else None
    case MapBegin(address, directOffset, size, _, protection, direct) =>
      if ValidMap(address, if direct then directOffset else 0, size, protection) then Some(40) else None
    case MapEnd => Some(8)
    case ReadFile(_, _, _, _) => Some(40)
    case ReadGather(size, offset) => if ValidReadLength(size) && ValidReadOffset(offset) then Some(12) else None
    case ReadGatherScatter(destination, size, offset) => if ValidRead(destination, size, offset) then Some(40) else None
    case ReadScatter(destination, size) => if ValidRead(destination, size, 0) then Some(40) else None
    case ResetGatherScatter => Some(8)
    case Nop(dwords) => if 0 < dwords <= 16 then Some(8 + 4 * dwords) else None
    case NopWithData(words) => if 0 < |words| <= 16 then Some(8 + 4 * (|words| - 1)) else None
    case PushMarker(text) => Some(8 + (|text| + 8) / 8 * 8)
    case SetMarker(text) => Some(8 + (|text| + 8) / 8 * 8)
    case PopMarker => Some(8)
  }

  /** The call whose measure is the size of what this one records: a no-operation with data is measured as if it had one
      word less. */
  function MeasuredAs(call: Call): Call {
    if call.NopWithData? then NopWithData(call.words + [0]) else call
  }

  /** Arguments that a recorder accepts are measured, at the size of what it records, exactly unless they are a
      no-operation with data; that one has its size measured with one word more. */
  lemma MeasuredSize(call: Call)
    requires ValidArguments(call)
    ensures Measure(call) == Some(|Command(call)|) <==> !call.NopWithData?
    ensures Measure(MeasuredAs(call)) == Some(|Command(call)|)
  {
  }

  /** Measuring accepts more than recording: counters from 128 on in the two counter reads, a zero event queue, any
      arguments where the size is a constant, and sixteen words of data; but it refuses a no-operation with no data. */
  lemma MeasureLaxer(call: Call)
    ensures Measure(call).Some? <==>
              || (ValidArguments(call) && call != NopWithData([]))
              || (call.WriteFromCounter? && ValidWriteAddress(call.address))
              || (call.WriteFromPair? && ValidWriteAddress(call.address) && call.counter % 2 == 0)
              || call.WriteEventQueue? || call.WriteAddressOnCompletion? || call.WriteCounterOnCompletion?
              || call.ReadFile?
              || (call.NopWithData? && |call.words| == 16)
  {
  }

  // ----- Command streams

  type Encoder = Call -> seq<Byte>

  /** The commands one after another. */
  function Stream(encode: Encoder, calls: seq<Call>): seq<Byte>
    decreases |calls|
  {
    if calls == [] then [] else Stream(encode, calls[..|calls| - 1]) + encode(calls[|calls| - 1])
  }

  /** The length of the command at the start of some bytes: opcode 29 in the low byte means twelve. */
  function Length(bytes: seq<Byte>): nat
    requires |bytes| >= 8
  {
    if bytes[0] == COMPACT_GATHER then 12 else FixedValue(bytes[4..8])
  }

  /** Cuts bytes into commands by their own lengths. */
  function Cut(bytes: seq<Byte>): Option<seq<seq<Byte>>>
    decreases |bytes|
  {
    if bytes == [] then Some([])
    else if |bytes| < 8 || Length(bytes) < 8 || Length(bytes) > |bytes| then None
    else
      match Cut(bytes[Length(bytes)..])
      case None => None
      case Some(rest) => Some([bytes[..Length(bytes)]] + rest)
  }

  function Commands(encode: Encoder, calls: seq<Call>): (commands: seq<seq<Byte>>)
    ensures |commands| == |calls|
    decreases |calls|
  {
    if calls == [] then [] else [encode(calls[0])] + Commands(encode, calls[1..])
  }

  lemma LowByte(value: nat, bytes: seq<Byte>)
    requires |bytes| > 0 && bytes[0] == Fixed(value, 4)[0]
    ensures bytes[0] == value % 256
  {
  }

  /** A recorded command knows its own length, whatever follows. */
  lemma CommandLength(call: Call, rest: seq<Byte>)
    requires |Command(call)| < 0x1_0000_0000
    ensures Length(Command(call) + rest) == |Command(call)|
  {
    var bytes := Command(call) + rest;
    if call.ReadGather? {
      LowByte(COMPACT_GATHER + call.offset / 0x1_0000_0000 * 256, bytes);
    } else {
      LongLength(call, bytes);
    }
  }

  lemma LongLength(call: Call, bytes: seq<Byte>)
    requires !call.ReadGather? && |Command(call)| < 0x1_0000_0000 && Command(call) <= bytes
    ensures Length(bytes) == |Command(call)|
  {
    LowByte(Opcode(call), bytes);
    RangeOf8();
    FixedReads(8 + |Payload(call)|, 4);
    assert bytes[4..8] == Fixed(8 + |Payload(call)|, 4);
  }

  lemma {:induction false} StreamFirst(encode: Encoder, calls: seq<Call>)
    requires calls != []
    ensures Stream(encode, calls) == encode(calls[0]) + Stream(encode, calls[1..])
    decreases |calls|
  {
    var last := |calls| - 1;
    if last == 0 {
      assert calls[..0] == [] && calls[1..] == [];
    } else {
      StreamFirst(encode, calls[..last]);
      assert calls[..last][1..] == calls[1..][..last - 1] && calls[1..][last - 1] == calls[last];
      Rejoin(encode(calls[0]), Stream(encode, calls[1..][..last - 1]), encode(calls[last]));
    }
  }

  lemma Rejoin(a: seq<Byte>, b: seq<Byte>, c: seq<Byte>)
    ensures a + b + c == a + (b + c)
  {
  }

  /** Every command knows its own length, whatever follows. */
  ghost predicate SelfDelimiting(encode: Encoder, calls: seq<Call>) {
    forall call, rest :: call in calls ==> |encode(call)| >= 8 && Length(encode(call) + rest) == |encode(call)|
  }

  lemma {:induction false} DelimitedCuts(encode: Encoder, calls: seq<Call>)
    requires SelfDelimiting(encode, calls)
    ensures Cut(Stream(encode, calls)) == Some(Commands(encode, calls))
    decreases |calls|
  {
    if calls != [] {
      var first, rest := encode(calls[0]), Stream(encode, calls[1..]);
      StreamFirst(encode, calls);
      assert calls[0] in calls;
      DelimitedCuts(encode, calls[1..]);
      assert (first + rest)[..|first|] == first && (first + rest)[|first|..] == rest;
    }
  }

  /** A recorded stream cuts into exactly the recorded commands. */
  lemma StreamCuts(calls: seq<Call>)
    requires forall call <- calls :: |Command(call)| < 0x1_0000_0000
    ensures Cut(Stream(Command, calls)) == Some(Commands(Command, calls))
  {
    forall call, rest: seq<Byte> | call in calls ensures |Command(call)| >= 8
        && Length(Command(call) + rest) == |Command(call)| {
      CommandLength(call, rest);
    }
    DelimitedCuts(Command, calls);
  }
}
