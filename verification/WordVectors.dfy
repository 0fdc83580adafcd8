/** Vectors of 32-bit words in a byte stream. */
module WordVectors {
  import opened Uleb128
  import opened Serial

  function WordEnc(): (nat, nat) -> seq<Byte> { (x: nat, i: nat) => Fixed(x, 4) }
  function WordDec(data: seq<Byte>): (nat, nat) -> Read<nat> { (p: nat, i: nat) => ReadFixed(data, p, 4) }

  function EncodeWords(xs: seq<nat>): seq<Byte> { EncodeCounted(xs, WordEnc()) }
  function ReadWords(data: seq<Byte>, at: nat): Read<seq<nat>> { ReadCounted(data, at, 4, WordDec(data)) }

  ghost predicate Words32(xs: seq<nat>) { |xs| < WORD_LIMIT && forall i: nat :: i < |xs| ==> xs[i] < WORD32 }

  lemma WordDecodes(data: seq<Byte>, x: nat, index: nat)
    requires x < WORD32
    ensures Decodes(data, x, index, WordEnc(), WordDec(data))
  {
    RangeOf8();
    forall p: nat | Holds(data, p, Fixed(x, 4)) ensures ReadFixed(data, p, 4) == Got(x, p + 4) {
      FixedHolds(data, p, x, 4);
    }
  }

  lemma WordEncodes(data: seq<Byte>, p: nat, index: nat)
    ensures Encodes(data, p, index, WordEnc(), WordDec(data))
    ensures ReadFixed(data, p, 4).Got? ==> ReadFixed(data, p, 4).value < WORD32
  {
    RangeOf8();
    if ReadFixed(data, p, 4).Got? { FixedHeld(data, p, 4); }
  }

  /** Reading the words that stand at `at`, with `rest` after them. */
  lemma WordsRead(data: seq<Byte>, at: nat, xs: seq<nat>, rest: seq<Byte>) returns (next: nat)
    requires Holds(data, at, EncodeWords(xs) + rest) && Words32(xs)
    ensures ReadWords(data, at) == Got(xs, next) && Holds(data, next, rest)
            && next + |rest| == at + |EncodeWords(xs) + rest|
  {
    HoldsParts(data, at, EncodeWords(xs), rest);
    forall i: nat | i < |xs| ensures |WordEnc()(xs[i], i)| >= 4 && Decodes(data, xs[i], i, WordEnc(), WordDec(data)) {
      WordDecodes(data, xs[i], i);
    }
    CountedReads(data, at, xs, 4, WordEnc(), WordDec(data));
    next := at + |EncodeWords(xs)|;
  }

  lemma WordsWritten(data: seq<Byte>, at: nat)
    requires ReadWords(data, at).Got?
    ensures var r := ReadWords(data, at); Holds(data, at, EncodeWords(r.value))
                                          && r.next == at + |EncodeWords(r.value)| <= |data| && Words32(r.value)
  {
    forall p: nat, i: nat | p <= |data| ensures Encodes(data, p, i, WordEnc(), WordDec(data)) {
      WordEncodes(data, p, i);
    }
    CountedWrites(data, at, 4, WordEnc(), WordDec(data));
    var r := ReadWords(data, at);
    forall i: nat | i < |r.value| ensures r.value[i] < WORD32 { CameWord(data, r.value[i], i); }
  }

  lemma CameWord(data: seq<Byte>, x: nat, index: nat)
    requires Came(data, x, index, WordDec(data))
    ensures x < WORD32
  {
    var p: nat :| p <= |data| && WordDec(data)(p, index).Got? && WordDec(data)(p, index).value == x;
    WordEncodes(data, p, index);
  }
}
