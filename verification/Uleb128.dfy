/** Unsigned LEB128 (section 7.6 of DWARF 4): seven bits a byte, least significant first, the high bit set on
all bytes but the last. Values are 64-bit; the bits a reader ORs in are disjoint, so it adds them. */
module Uleb128 {

  type Byte = x: int | 0 <= x < 256

  const WORD_LIMIT: nat := 0x1_0000_0000_0000_0000

  datatype Error = Truncated | Overflow | Unterminated | OutOfBounds | Cycle | Duplicate | TooManyChildren
      | LayoutMismatch

  datatype Result<+T> = Ok(value: T) | Err(error: Error)

  /** A number that was read, and the cursor after it. */
  datatype Number = Number(value: nat, next: nat) | BadNumber(why: Error)

  function Encode(value: nat): (bytes: seq<Byte>)
    ensures |bytes| > 0
  {
    if value < 128 then [value] else [value % 128 + 128] + Encode(value / 128)
  }

  /** The number read from `data` at `cursor` when `shift` bits have been read before, and the cursor after it. */
  function Decode(data: seq<Byte>, cursor: nat, end: nat, shift: nat := 0): Number
    requires cursor <= end <= |data|
    decreases end - cursor
  {
    if cursor == end then BadNumber(Truncated)
    else
      var byte := data[cursor];
      if shift >= 64 || (shift == 63 && byte % 128 > 1) then BadNumber(Overflow)
      else if byte < 128 then Number(byte, cursor + 1)
      else
        match Decode(data, cursor + 1, end, shift + 7)
        case Number(rest, next) => Number(byte % 128 + 128 * rest, next)
        case BadNumber(e) => BadNumber(e)
  }

  lemma DecodeAdvances(data: seq<Byte>, cursor: nat, end: nat, shift: nat)
    requires cursor <= end <= |data|
    ensures Decode(data, cursor, end, shift).Number? ==> cursor < Decode(data, cursor, end, shift).next <= end
    decreases end - cursor
  {
  }

  method WriteUleb(out: seq<Byte>, value: nat) returns (result: seq<Byte>)
    ensures result == out + Encode(value)
  {
    result := out;
    var rest := value;
    while true
      invariant rest >= 0 && result + Encode(rest) == out + Encode(value)
      decreases rest
    {
      var byte := rest % 128;
      ghost var before := result;
      rest := rest / 128;
      if rest == 0 {
        result := result + [byte];
        return;
      }
      result := result + [byte + 128];
      assert before + ([byte + 128] + Encode(rest)) == result + Encode(rest);
    }
  }

  method UlebSize(value: nat) returns (size: nat)
    ensures size == |Encode(value)|
  {
    size := 1;
    var rest: nat := value / 128;
    while rest != 0
      invariant |Encode(value)| == size + if rest == 0 then 0 else |Encode(rest)|
      decreases rest
    {
      size, rest := size + 1, rest / 128;
    }
  }

  /** A reader that has `value` so far and finds `rest` in the bits above, `scale` being the weight of the next one. */
  ghost function Above(value: nat, scale: nat, rest: Number): Number {
    match rest
    case Number(high, next) => Number(value + scale * high, next)
    case BadNumber(e) => BadNumber(e)
  }

  lemma AboveStep(value: nat, scale: nat, bits: nat, rest: Number)
    ensures Above(value, scale, match rest { case Number(high, next) =>
                                             Number(bits + 128 * high, next) case BadNumber(e) => BadNumber(e) })
         == Above(value + scale * bits, scale * 128, rest)
  {
    if rest.Number? {
      var high := rest.value;
      assert scale * (bits + 128 * high) == scale * bits + scale * 128 * high;
    }
  }

  method ReadUleb(data: seq<Byte>, cursor: nat, end: nat) returns (result: Number)
    requires cursor <= end <= |data|
    ensures result == Decode(data, cursor, end)
  {
    var value: nat, scale: nat, shift: nat, at: nat := 0, 1, 0, cursor;
    while true
      invariant cursor <= at <= end
      invariant Decode(data, cursor, end) == Above(value, scale, Decode(data, at, end, shift))
      decreases end - at
    {
      if at >= end { return BadNumber(Truncated); }
      var byte := data[at];
      if shift >= 64 || (shift == 63 && byte % 128 > 1) { return BadNumber(Overflow); }
      if byte < 128 { return Number(value + scale * byte, at + 1); }
      AboveStep(value, scale, byte % 128, Decode(data, at + 1, end, shift + 7));
      value, scale, shift, at := value + scale * (byte % 128), scale * 128, shift + 7, at + 1;
    }
  }

  /** The values that fit above `shift` in 64 bits; `shift` grows by sevens. */
  function Limit(shift: nat): (limit: nat)
    ensures limit > 0
    decreases 63 - shift
  {
    if shift < 63 then 128 * Limit(shift + 7) else if shift == 63 then 2 else 1
  }

  lemma LimitIsWord()
    ensures Limit(0) == WORD_LIMIT
  {
    assert Limit(63) == 2 && Limit(56) == 256 && Limit(49) == 128 * Limit(56) && Limit(42) == 128 * Limit(49);
    assert Limit(35) == 128 * Limit(42) && Limit(28) == 128 * Limit(35) && Limit(21) == 128 * Limit(28);
    assert Limit(14) == 128 * Limit(21) && Limit(7) == 128 * Limit(14) && Limit(0) == 128 * Limit(7);
  }

  /** Reading inverts writing, whatever surrounds the bytes. */
  lemma {:induction false} DecodeEncodeAbove(data: seq<Byte>, cursor: nat, end: nat, shift: nat, value: nat)
    requires cursor + |Encode(value)| <= end <= |data| && data[cursor..cursor + |Encode(value)|] == Encode(value)
    requires shift <= 63 && shift % 7 == 0 && value < Limit(shift)
    ensures Decode(data, cursor, end, shift) == Number(value, cursor + |Encode(value)|)
    decreases value
  {
    assert data[cursor] == Encode(value)[0];
    if value >= 128 {
      var rest := Encode(value / 128);
      assert data[cursor + 1..cursor + 1 + |rest|] == data[cursor..cursor + |Encode(value)|][1..];
      DecodeEncodeAbove(data, cursor + 1, end, shift + 7, value / 128);
    }
  }

  lemma DecodeEncode(data: seq<Byte>, cursor: nat, end: nat, value: nat)
    requires cursor + |Encode(value)| <= end <= |data| && data[cursor..cursor + |Encode(value)|] == Encode(value)
    requires value < WORD_LIMIT
    ensures Decode(data, cursor, end) == Number(value, cursor + |Encode(value)|)
  {
    LimitIsWord();
    DecodeEncodeAbove(data, cursor, end, 0, value);
  }

  /** A larger value never takes fewer bytes. */
  lemma {:induction false} SizeMonotone(a: nat, b: nat)
    requires a <= b
    ensures |Encode(a)| <= |Encode(b)|
    decreases b
  {
    if b >= 128 && a >= 128 { SizeMonotone(a / 128, b / 128); }
  }

  lemma {:induction false} SizeBelowLimit(value: nat, shift: nat)
    requires shift <= 63 && shift % 7 == 0 && value < Limit(shift)
    ensures |Encode(value)| <= 10 - shift / 7
    decreases value
  {
    if value >= 128 { SizeBelowLimit(value / 128, shift + 7); }
  }

  /** 64 bits never take more than ten bytes. */
  lemma SizeBounded(value: nat)
    requires value < WORD_LIMIT
    ensures |Encode(value)| <= 10
  {
    LimitIsWord();
    SizeBelowLimit(value, 0);
  }

  // ----- Bytes at a place

  ghost predicate At(data: seq<Byte>, cursor: nat, bytes: seq<Byte>) {
    cursor + |bytes| <= |data| && forall i :: 0 <= i < |bytes| ==> data[cursor + i] == bytes[i]
  }

  lemma AtParts(data: seq<Byte>, cursor: nat, a: seq<Byte>, b: seq<Byte>)
    requires At(data, cursor, a + b)
    ensures At(data, cursor, a) && At(data, cursor + |a|, b)
  {
    forall i | 0 <= i < |a| ensures data[cursor + i] == a[i] { assert (a + b)[i] == a[i]; }
    forall i | 0 <= i < |b| ensures data[cursor + |a| + i] == b[i] { assert (a + b)[|a| + i] == b[i]; }
  }
}
