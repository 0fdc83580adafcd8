/** The byte stream of the shader cache: fixed-width little-endian values, and compact ones that have exactly one
encoding each. */
module Serial {
  import opened Uleb128

  datatype Read<+T> = Got(value: T, next: nat) | Bad

  const WORD32: nat := 0x1_0000_0000

  // ----- Compact values

  /** The compact value at `at` when `shift` bits have been read before. Only the shortest encoding is accepted. */
  function ReadCompact(data: seq<Byte>, at: nat, shift: nat := 0): (r: Read<nat>)
    ensures r.Got? ==> at < r.next <= |data|
    decreases |data| - at
  {
    if shift >= 64 || at >= |data| then Bad
    else
      var byte := data[at];
      if byte < 128 then
        if (byte == 0 && shift != 0) || (shift == 63 && byte > 1) then Bad else Got(byte, at + 1)
      else
        match ReadCompact(data, at + 1, shift + 7)
        case Got(rest, next) => Got(byte - 128 + 128 * rest, next)
        case Bad => Bad
  }

  /** Reading inverts writing. */
  lemma {:induction false} CompactReads(data: seq<Byte>, at: nat, shift: nat, value: nat)
    requires At(data, at, Encode(value)) && shift <= 63 && shift % 7 == 0 && value < Limit(shift)
             && (shift > 0 ==> value > 0)
    ensures ReadCompact(data, at, shift) == Got(value, at + |Encode(value)|)
    decreases value
  {
    assert data[at + 0] == Encode(value)[0];
    if value >= 128 {
      AtParts(data, at, [value % 128 + 128], Encode(value / 128));
      CompactReads(data, at + 1, shift + 7, value / 128);
    }
  }

  /** What is accepted is what the writer writes for the value, and the value has 64 bits. */
  lemma {:induction false} CompactWrites(data: seq<Byte>, at: nat, shift: nat, value: nat, next: nat)
    requires ReadCompact(data, at, shift) == Got(value, next) && shift % 7 == 0
    ensures shift <= 63 && value < Limit(shift) && (shift > 0 ==> value > 0)
    ensures next <= |data| && data[at..next] == Encode(value)
    decreases |data| - at
  {
    if data[at] < 128 {
      assert data[at..next] == [data[at]];
    } else {
      var rest := ReadCompact(data, at + 1, shift + 7).value;
      CompactWrites(data, at + 1, shift + 7, rest, next);
      Digits(data[at] - 128, rest);
      assert data[at..next] == [data[at]] + data[at + 1..next];
    }
  }

  lemma Digits(low: nat, high: nat)
    requires low < 128
    ensures (low + 128 * high) % 128 == low && (low + 128 * high) / 128 == high
  {
  }

  lemma CompactBijection(data: seq<Byte>, at: nat, value: nat)
    ensures value < WORD_LIMIT && At(data, at, Encode(value)) ==>
            ReadCompact(data, at) == Got(value, at + |Encode(value)|)
    ensures ReadCompact(data, at).Got? && ReadCompact(data, at).value == value ==>
              value < WORD_LIMIT && ReadCompact(data, at).next <= |data|
                && data[at..ReadCompact(data, at).next] == Encode(value)
  {
    LimitIsWord();
    if value < WORD_LIMIT && At(data, at, Encode(value)) { CompactReads(data, at, 0, value); }
    if ReadCompact(data, at).Got? && ReadCompact(data, at).value == value {
      CompactWrites(data, at, 0, value, ReadCompact(data, at).next);
    }
  }

  // ----- Fixed-width values

  /** The values of `width` bytes. */
  function Range(width: nat): nat { if width == 0 then 1 else 256 * Range(width - 1) }

  /** The `i`-th lowest byte. */
  function Digit(value: nat, i: nat): Byte { if i == 0 then value % 256 else Digit(value / 256, i - 1) }

  function Fixed(value: nat, width: nat): (bytes: seq<Byte>)
    ensures |bytes| == width
  {
    seq(width, i requires 0 <= i < width => Digit(value, i))
  }

  function FixedValue(bytes: seq<Byte>): nat { if bytes == [] then 0 else bytes[0] + 256 * FixedValue(bytes[1..]) }

  function ReadFixed(data: seq<Byte>, at: nat, width: nat): (r: Read<nat>)
    ensures r.Got? ==> r.next == at + width <= |data|
  {
    if at > |data| || |data| - at < width then Bad else Got(FixedValue(data[at..at + width]), at + width)
  }

  lemma FixedStep(value: nat, width: nat)
    requires width > 0
    ensures Fixed(value, width) == [value % 256] + Fixed(value / 256, width - 1)
  {
  }

  lemma {:induction false} FixedReads(value: nat, width: nat)
    requires value < Range(width)
    ensures FixedValue(Fixed(value, width)) == value
    decreases width
  {
    if width > 0 {
      FixedStep(value, width);
      FixedReads(value / 256, width - 1);
      assert Fixed(value, width)[1..] == Fixed(value / 256, width - 1);
    }
  }

  lemma {:induction false} FixedWrites(bytes: seq<Byte>)
    ensures FixedValue(bytes) < Range(|bytes|) && Fixed(FixedValue(bytes), |bytes|) == bytes
    decreases |bytes|
  {
    if bytes != [] {
      FixedWrites(bytes[1..]);
      var value, rest := FixedValue(bytes), FixedValue(bytes[1..]);
      assert value % 256 == bytes[0] && value / 256 == rest;
      FixedStep(value, |bytes|);
      assert bytes == [bytes[0]] + bytes[1..];
    }
  }

  // ----- Counted lists

  /** The elements one after another; an encoder also sees an element's index. */
  function EncodeList<T>(xs: seq<T>, enc: (T, nat) -> seq<Byte>, index: nat := 0): seq<Byte>
    decreases |xs|
  {
    if xs == [] then [] else enc(xs[0], index) + EncodeList(xs[1..], enc, index + 1)
  }

  function ReadList<T>(at: nat, count: nat, dec: (nat, nat) -> Read<T>, index: nat := 0): Read<seq<T>>
    decreases count
  {
    if count == 0 then Got([], at)
    else
      match dec(at, index)
      case Bad => Bad
      case Got(first, next) =>
        match ReadList(next, count - 1, dec, index + 1)
        case Bad => Bad
        case Got(rest, end) => Got([first] + rest, end)
  }

  function EncodeCounted<T>(xs: seq<T>, enc: (T, nat) -> seq<Byte>): seq<Byte> { Fixed(|xs|, 8) + EncodeList(xs, enc) }

  /** A count of 64 bits, refused when that many elements of `minimum` bytes do not remain. */
  function ReadCounted<T>(data: seq<Byte>, at: nat, minimum: nat, dec: (nat, nat) -> Read<T>): Read<seq<T>> {
    match ReadFixed(data, at, 8)
    case Bad => Bad
    case Got(count, next) => if count * minimum > |data| - next then Bad else ReadList(next, count, dec)
  }

  /** Every prefix of `bytes` stands at `at`. */
  ghost predicate Holds(data: seq<Byte>, at: nat, bytes: seq<Byte>) {
    forall n: nat :: n <= |bytes| ==> HoldsPrefix(data, at, bytes, n)
  }

  ghost predicate HoldsPrefix(data: seq<Byte>, at: nat, bytes: seq<Byte>, n: nat) {
    n <= |bytes| && at + n <= |data| && data[at..at + n] == bytes[..n]
  }

  lemma HoldsIsAt(data: seq<Byte>, at: nat, bytes: seq<Byte>)
    ensures Holds(data, at, bytes) <==> At(data, at, bytes)
    ensures Holds(data, at, bytes) ==> at + |bytes| <= |data|
  {
    if Holds(data, at, bytes) {
      assert HoldsPrefix(data, at, bytes, |bytes|);
      forall i | 0 <= i < |bytes| ensures data[at + i] == bytes[i] {
        assert data[at..at + |bytes|][i] == bytes[..|bytes|][i];
      }
    }
  }

  lemma HoldsParts(data: seq<Byte>, at: nat, a: seq<Byte>, b: seq<Byte>)
    ensures Holds(data, at, a + b) <==> Holds(data, at, a) && Holds(data, at + |a|, b)
  {
    HoldsIsAt(data, at, a + b);
    HoldsIsAt(data, at, a);
    HoldsIsAt(data, at + |a|, b);
    if At(data, at, a + b) { AtParts(data, at, a, b); }
    if At(data, at, a) && At(data, at + |a|, b) {
      forall i | 0 <= i < |a + b| ensures data[at + i] == (a + b)[i] {
        if i >= |a| { assert data[at + |a| + (i - |a|)] == b[i - |a|]; }
      }
    }
  }

  lemma HoldsAll(data: seq<Byte>, bytes: seq<Byte>)
    requires |bytes| == |data|
    ensures Holds(data, 0, bytes) <==> data == bytes
  {
    HoldsIsAt(data, 0, bytes);
    if At(data, 0, bytes) {
      forall i | 0 <= i < |data| ensures data[i] == bytes[i] { assert data[0 + i] == bytes[i]; }
    }
  }

  lemma HoldsSlice(data: seq<Byte>, at: nat, next: nat, bytes: seq<Byte>)
    requires at <= next <= |data| && data[at..next] == bytes
    ensures Holds(data, at, bytes) && next == at + |bytes|
  {
    forall n: nat | n <= |bytes| ensures HoldsPrefix(data, at, bytes, n) {
      assert data[at..next][..n] == data[at..at + n];
    }
  }

  lemma HoldsNothing(data: seq<Byte>, at: nat)
    ensures at <= |data| <==> Holds(data, at, [])
  {
    HoldsIsAt(data, at, []);
  }

  lemma FixedHolds(data: seq<Byte>, at: nat, value: nat, width: nat)
    requires value < Range(width)
    ensures Holds(data, at, Fixed(value, width)) ==> ReadFixed(data, at, width) == Got(value, at + width)
  {
    if Holds(data, at, Fixed(value, width)) {
      var bytes := Fixed(value, width);
      assert HoldsPrefix(data, at, bytes, width) && bytes[..width] == bytes;
      FixedReads(value, width);
    }
  }

  lemma FixedHeld(data: seq<Byte>, at: nat, width: nat)
    requires ReadFixed(data, at, width).Got?
    ensures var r := ReadFixed(data, at, width); r.value < Range(width) && Holds(data, at, Fixed(r.value, width))
  {
    var bytes := data[at..at + width];
    FixedWrites(bytes);
    HoldsSlice(data, at, at + width, bytes);
  }

  /** Wherever the encoding of this element stands, the decoder finds the element. */
  ghost predicate Decodes<T>(data: seq<Byte>, x: T, index: nat, enc: (T, nat) -> seq<Byte>,
                             dec: (nat, nat) -> Read<T>) {
    forall p: nat :: Holds(data, p, enc(x, index)) ==> dec(p, index) == Got(x, p + |enc(x, index)|)
  }

  /** `r` is what the encoder writes at `p`. */
  ghost predicate Written<T>(data: seq<Byte>, p: nat, r: Read<T>, index: nat, enc: (T, nat) -> seq<Byte>) {
    r.Got? ==> Holds(data, p, enc(r.value, index)) && r.next == p + |enc(r.value, index)| <= |data|
  }

  /** What the decoder accepts at `p` is what the encoder writes. */
  ghost predicate Encodes<T>(data: seq<Byte>, p: nat, index: nat, enc: (T, nat) -> seq<Byte>,
                             dec: (nat, nat) -> Read<T>) {
    Written(data, p, dec(p, index), index, enc)
  }

  lemma {:induction false} ListReads<T>(data: seq<Byte>, at: nat, xs: seq<T>, enc: (T, nat) -> seq<Byte>,
                                        dec: (nat, nat) -> Read<T>, index: nat)
    requires Holds(data, at, EncodeList(xs, enc, index))
             && forall i: nat :: i < |xs| ==> Decodes(data, xs[i], index + i, enc, dec)
    ensures ReadList(at, |xs|, dec, index) == Got(xs, at + |EncodeList(xs, enc, index)|)
    decreases |xs|
  {
    if xs != [] {
      var first, rest := enc(xs[0], index), EncodeList(xs[1..], enc, index + 1);
      HoldsParts(data, at, first, rest);
      assert Decodes(data, xs[0], index + 0, enc, dec);
      forall i: nat | i < |xs[1..]| ensures Decodes(data, xs[1..][i], index + 1 + i, enc, dec) {
        assert Decodes(data, xs[i + 1], index + (i + 1), enc, dec);
      }
      ListReads(data, at + |first|, xs[1..], enc, dec, index + 1);
      assert xs == [xs[0]] + xs[1..];
    }
  }

  lemma {:induction false} ListLength<T>(xs: seq<T>, enc: (T, nat) -> seq<Byte>, index: nat, minimum: nat)
    requires forall i: nat :: i < |xs| ==> |enc(xs[i], index + i)| >= minimum
    ensures |EncodeList(xs, enc, index)| >= |xs| * minimum
    decreases |xs|
  {
    if xs != [] {
      assert |enc(xs[0], index + 0)| >= minimum;
      forall i: nat | i < |xs[1..]| ensures |enc(xs[1..][i], index + 1 + i)| >= minimum {
        assert |enc(xs[i + 1], index + (i + 1))| >= minimum;
      }
      ListLength(xs[1..], enc, index + 1, minimum);
      assert |xs| * minimum == minimum + |xs[1..]| * minimum;
    }
  }

  lemma RangeOf8()
    ensures Range(4) == 0x1_0000_0000 && Range(8) == WORD_LIMIT
  {
    assert Range(1) == 256 && Range(2) == 256 * 256 && Range(3) == 256 * Range(2) && Range(4) == 256 * Range(3);
    assert Range(5) == 256 * Range(4) && Range(6) == 256 * Range(5) && Range(7) == 256 * Range(6)
        && Range(8) == 256 * Range(7);
  }

  lemma CountedReads<T>(data: seq<Byte>, at: nat, xs: seq<T>, minimum: nat, enc: (T, nat) -> seq<Byte>,
                        dec: (nat, nat) -> Read<T>)
    requires Holds(data, at, EncodeCounted(xs, enc)) && |xs| < WORD_LIMIT
    requires forall i: nat :: i < |xs| ==> |enc(xs[i], i)| >= minimum && Decodes(data, xs[i], i, enc, dec)
    ensures ReadCounted(data, at, minimum, dec) == Got(xs, at + |EncodeCounted(xs, enc)|)
  {
    HoldsParts(data, at, Fixed(|xs|, 8), EncodeList(xs, enc));
    RangeOf8();
    FixedHolds(data, at, |xs|, 8);
    forall i: nat | i < |xs| ensures |enc(xs[i], 0 + i)| >= minimum && Decodes(data, xs[i], 0 + i, enc, dec) {}
    ListLength(xs, enc, 0, minimum);
    ListReads(data, at + 8, xs, enc, dec, 0);
    HoldsIsAt(data, at + 8, EncodeList(xs, enc));
  }

  /** Element `i` came from somewhere in the data. */
  ghost predicate Came<T>(data: seq<Byte>, x: T, index: nat, dec: (nat, nat) -> Read<T>) {
    exists p: nat :: p <= |data| && dec(p, index).Got? && dec(p, index).value == x
  }

  lemma {:induction false} ListWrites<T>(data: seq<Byte>, at: nat, count: nat, enc: (T, nat) -> seq<Byte>,
                                         dec: (nat, nat) -> Read<T>, index: nat)
    requires ReadList(at, count, dec, index).Got? && at <= |data|
    requires forall p: nat, i: nat :: p <= |data| ==> Encodes(data, p, i, enc, dec)
    ensures var r := ReadList(at, count, dec, index);
            |r.value| == count && r.next == at + |EncodeList(r.value, enc, index)| <= |data|
              && Holds(data, at, EncodeList(r.value, enc, index))
    decreases count
  {
    if count == 0 {
      HoldsNothing(data, at);
    } else {
      var first := dec(at, index);
      assert Encodes(data, at, index, enc, dec);
      ListWrites(data, first.next, count - 1, enc, dec, index + 1);
      var rest := ReadList(first.next, count - 1, dec, index + 1);
      HoldsParts(data, at, enc(first.value, index), EncodeList(rest.value, enc, index + 1));
      assert ([first.value] + rest.value)[1..] == rest.value;
    }
  }

  lemma {:induction false} ListCame<T>(data: seq<Byte>, at: nat, count: nat, enc: (T, nat) -> seq<Byte>,
                                       dec: (nat, nat) -> Read<T>, index: nat)
    requires ReadList(at, count, dec, index).Got? && at <= |data|
    requires forall p: nat, i: nat :: p <= |data| ==> Encodes(data, p, i, enc, dec)
    ensures var r := ReadList(at, count, dec, index);
            |r.value| == count && forall i: nat :: i < count ==> Came(data, r.value[i], index + i, dec)
    decreases count
  {
    if count > 0 {
      var first := dec(at, index);
      assert Encodes(data, at, index, enc, dec);
      ListCame(data, first.next, count - 1, enc, dec, index + 1);
      var rest := ReadList(first.next, count - 1, dec, index + 1).value;
      forall i: nat | i < count ensures Came(data, ([first.value] + rest)[i], index + i, dec) {
        if i == 0 {
          CameFirst(data, at, index, dec);
        } else {
          assert Came(data, rest[i - 1], index + 1 + (i - 1), dec);
        }
      }
    }
  }

  lemma CameFirst<T>(data: seq<Byte>, at: nat, index: nat, dec: (nat, nat) -> Read<T>)
    requires at <= |data| && dec(at, index).Got?
    ensures Came(data, dec(at, index).value, index, dec)
  {
  }

  lemma CountedWrites<T>(data: seq<Byte>, at: nat, minimum: nat, enc: (T, nat) -> seq<Byte>, dec: (nat, nat) -> Read<T>)
    requires ReadCounted(data, at, minimum, dec).Got?
    requires forall p: nat, i: nat :: p <= |data| ==> Encodes(data, p, i, enc, dec)
    ensures var r := ReadCounted(data, at, minimum, dec);
            && r.next == at + |EncodeCounted(r.value, enc)| <= |data| && Holds(data, at, EncodeCounted(r.value, enc))
            && |r.value| == ReadFixed(data, at, 8).value < WORD_LIMIT && |r.value| * minimum <= |data|
            && forall i: nat :: i < |r.value| ==> Came(data, r.value[i], i, dec)
  {
    var count := ReadFixed(data, at, 8);
    RangeOf8();
    FixedHeld(data, at, 8);
    ListWrites(data, count.next, count.value, enc, dec, 0);
    ListCame(data, count.next, count.value, enc, dec, 0);
    var r := ReadCounted(data, at, minimum, dec);
    HoldsParts(data, at, Fixed(count.value, 8), EncodeList(r.value, enc));
    forall i: nat | i < |r.value| ensures Came(data, r.value[i], i, dec) { assert Came(data, r.value[i], 0 + i, dec); }
  }
}
