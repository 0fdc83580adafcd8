/** The `.gnu.hash` section: a bloom filter, a first symbol for each bucket, and a chain of hash words. */
module GnuHash {
  import opened Uleb128
  import opened Powers

  type Name = seq<Byte>

  function HashFrom(h: nat, name: Name): nat
    decreases |name|
  {
    if name == [] then h else HashFrom((h * 33 + name[0]) % 0x1_0000_0000, name[1..])
  }

  function Hash(name: Name): nat { HashFrom(5381, name) }

  // ----- The hash in closed form

  /** Every character with its place counted from the end. */
  function PlaceValues(name: Name, value: (nat, nat) -> nat): seq<nat> {
    seq(|name|, i requires 0 <= i < |name| => value(name[i], |name| - 1 - i))
  }

  /** Every character weighted by a power of 33, the last one by 1. */
  function Weighted(name: Name): seq<nat> { PlaceValues(name, Weight()) }

  function Weight(): (nat, nat) -> nat { (c: nat, k: nat) => c * Power(33, k) }

  lemma {:induction false} HashFromIs(h: nat, name: Name)
    requires h < 0x1_0000_0000
    ensures HashFrom(h, name) == (h * Power(33, |name|) + Sum(Weighted(name))) % 0x1_0000_0000
    decreases |name|
  {
    if name == [] {
      assert h * Power(33, 0) == h;
    } else {
      var c, rest, m := name[0], name[1..], 0x1_0000_0000;
      var p, sum := Power(33, |rest|), Sum(Weighted(rest));
      HashFromIs((h * 33 + c) % m, rest);
      Reduced(h * 33 + c, p, sum, m);
      SumFirst(name, Weight());
      assert Weight()(c, |rest|) == c * p;
      Distributed(h, c, p);
    }
  }

  lemma SumFirst(name: Name, value: (nat, nat) -> nat)
    requires name != []
    ensures Sum(PlaceValues(name, value)) == value(name[0], |name| - 1) + Sum(PlaceValues(name[1..], value))
  {
    var places := PlaceValues(name, value);
    assert places[0] == value(name[0], |name| - 1) && places[1..] == PlaceValues(name[1..], value);
  }

  lemma Distributed(h: nat, c: nat, p: nat)
    ensures (h * 33 + c) * p == h * (33 * p) + c * p
  {
  }

  /** Reducing a factor first changes nothing. */
  lemma Reduced(x: nat, p: nat, s: nat, m: nat)
    requires m > 0
    ensures (x % m * p + s) % m == (x * p + s) % m
  {
    var low, k := x % m * p + s, x / m * p;
    assert x == x / m * m + x % m;
    assert x * p == (x / m * m) * p + x % m * p == m * k + x % m * p;
    Multiples(low, k, m);
  }

  lemma Multiples(low: nat, k: nat, m: nat)
    requires m > 0
    ensures (low + m * k) % m == low % m
  {
    assert m * (low / m + k) + low % m == low + m * k;
    Quotient(low / m + k, low % m, m);
  }

  /** The hash of a name: 5381 and the characters as the digits of a number to the base 33, modulo 2 to the 32. */
  lemma HashIs(name: Name)
    ensures Hash(name) == (5381 * Power(33, |name|) + Sum(Weighted(name))) % 0x1_0000_0000
  {
    HashFromIs(5381, name);
  }

  method ComputeHash(name: Name) returns (h: nat)
    ensures h == Hash(name) == (5381 * Power(33, |name|) + Sum(Weighted(name))) % 0x1_0000_0000
  {
    h := 5381;
    for i := 0 to |name|
      invariant HashFrom(h, name[i..]) == Hash(name)
    {
      assert name[i..][1..] == name[i + 1..];
      h := (h * 33 + name[i]) % 0x1_0000_0000;
    }
    HashIs(name);
  }

  function Shifted(h: nat, shift: nat): nat { if shift == 0 then h else Shifted(h / 2, shift - 1) }

  lemma {:induction false} ShiftedIs(h: nat, shift: nat)
    ensures Shifted(h, shift) == h / Power(2, shift)
  {
    if shift > 0 {
      ShiftedIs(h / 2, shift - 1);
      DividedTwice(h, 2, Power(2, shift - 1));
    }
  }

  // ----- The table

  /** A bloom word is the set of its bits. */
  type BloomWord = set<nat>

  datatype Table = Table(symOffset: nat, bloomShift: nat, bloom: seq<BloomWord>, buckets: seq<nat>, chain: seq<nat>)

  function WordOf(h: nat, words: nat): (w: nat)
    requires words > 0
    ensures w < words
  {
    h / 64 % words
  }

  function FirstBit(h: nat): nat { h % 64 }
  function SecondBit(h: nat, shift: nat): nat { Shifted(h, shift) % 64 }

  function BucketOf(h: nat, buckets: nat): (b: nat)
    requires buckets > 0
    ensures b < buckets
  {
    h % buckets
  }

  // ----- How a loader looks a name up

  datatype Found = Symbol(index: nat) | Absent | RanOff

  /** Along the chain from symbol `i`: the low bit marks the last of a bucket, the others are the hash. */
  function Walk(t: Table, names: seq<Name>, name: Name, h: nat, i: nat): Found
    requires |names| == t.symOffset + |t.chain| && i >= t.symOffset
    decreases |names| - i
  {
    if i >= |names| then RanOff
    else
      var word := t.chain[i - t.symOffset];
      if word / 2 == h / 2 && names[i] == name then Symbol(i)
      else if word % 2 == 1 then Absent
      else Walk(t, names, name, h, i + 1)
  }

  predicate BloomPasses(t: Table, h: nat)
    requires t.bloom != []
  {
    var word := t.bloom[h / 64 % |t.bloom|];
    h % 64 in word && h / Power(2, t.bloomShift) % 64 in word
  }

  function Lookup(t: Table, names: seq<Name>, name: Name): Found
    requires |names| == t.symOffset + |t.chain| && t.bloom != []
  {
    var h := Hash(name);
    if !BloomPasses(t, h) || t.buckets == [] then Absent
    else
      var first := t.buckets[h % |t.buckets|];
      if first == 0 then Absent
      else if first < t.symOffset then RanOff
      else Walk(t, names, name, h, first)
  }

  // ----- What the rebuild writes

  function Hashes(names: seq<Name>): (hashes: seq<nat>)
    ensures |hashes| == |names| && forall i :: 0 <= i < |names| ==> hashes[i] == Hash(names[i])
  {
    seq(|names|, i requires 0 <= i < |names| => Hash(names[i]))
  }

  /** Bloom word `w` when the symbols before `k` are in it. */
  function BloomAfter(hashes: seq<nat>, off: nat, shift: nat, words: nat, w: nat, k: nat): BloomWord
    requires off <= k <= |hashes| && words > 0
    decreases k
  {
    if k == off then {}
    else
      var h, before := hashes[k - 1], BloomAfter(hashes, off, shift, words, w, k - 1);
      if WordOf(h, words) == w then before + {FirstBit(h), SecondBit(h, shift)} else before
  }

  /** Bucket `b` when the symbols before `k` have been seen: the first that belongs there, zero standing for none. */
  function BucketAfter(hashes: seq<nat>, off: nat, buckets: nat, b: nat, k: nat): nat
    requires off <= k <= |hashes| && buckets > 0
    decreases k
  {
    if k == off then 0
    else
      var before := BucketAfter(hashes, off, buckets, b, k - 1);
      if before == 0 && BucketOf(hashes[k - 1], buckets) == b then k - 1 else before
  }

  predicate LastInBucket(hashes: seq<nat>, buckets: nat, i: nat)
    requires i < |hashes| && buckets > 0
  {
    i + 1 == |hashes| || BucketOf(hashes[i + 1], buckets) != BucketOf(hashes[i], buckets)
  }

  function ChainWord(hashes: seq<nat>, buckets: nat, i: nat): (word: nat)
    requires i < |hashes| && buckets > 0
    ensures word / 2 == hashes[i] / 2 && (word % 2 == 1 <==> LastInBucket(hashes, buckets, i))
  {
    hashes[i] - hashes[i] % 2 + if LastInBucket(hashes, buckets, i) then 1 else 0
  }

  /** The table is what the hashes from `off` on call for. */
  ghost predicate Rebuilt(t: Table, hashes: seq<nat>) {
    && t.symOffset + |t.chain| == |hashes| && t.bloom != [] && (t.buckets == [] ==> t.chain == [])
    && (forall w: nat :: w < |t.bloom| ==>
        t.bloom[w] == BloomAfter(hashes, t.symOffset, t.bloomShift, |t.bloom|, w, |hashes|))
    && (forall b: nat :: b < |t.buckets| ==> t.buckets[b] == BucketAfter(hashes, t.symOffset, |t.buckets|, b, |hashes|))
    && (forall i: nat :: i < |t.chain| ==> t.chain[i] == ChainWord(hashes, |t.buckets|, t.symOffset + i))
  }

  /** Symbols from `off` on stand bucket by bucket. */
  ghost predicate Grouped(hashes: seq<nat>, off: nat, buckets: nat) {
    buckets > 0 && forall i, j :: off <= i <= j < |hashes| ==>
        BucketOf(hashes[i], buckets) <= BucketOf(hashes[j], buckets)
  }

  lemma {:induction false} BloomHas(hashes: seq<nat>, off: nat, shift: nat, words: nat, w: nat, k: nat, i: nat)
    requires off <= i < k <= |hashes| && words > 0 && w == WordOf(hashes[i], words)
    ensures FirstBit(hashes[i]) in BloomAfter(hashes, off, shift, words, w, k)
    ensures SecondBit(hashes[i], shift) in BloomAfter(hashes, off, shift, words, w, k)
    decreases k
  {
    if i < k - 1 { BloomHas(hashes, off, shift, words, w, k - 1, i); }
  }

  /** The first symbol a bucket can name: zero stands for an empty bucket. */
  function Nameable(off: nat): nat { if off == 0 then 1 else off }

  /** A bucket holds its first nameable symbol, and zero only when it has none. */
  lemma {:induction false} BucketFirst(hashes: seq<nat>, off: nat, buckets: nat, b: nat, k: nat)
    requires off <= k <= |hashes| && buckets > 0
    ensures var f, low := BucketAfter(hashes, off, buckets, b, k), Nameable(off);
            if f == 0 then forall i :: low <= i < k ==> BucketOf(hashes[i], buckets) != b
            else low <= f < k && BucketOf(hashes[f], buckets) == b
                 && forall i :: low <= i < f ==> BucketOf(hashes[i], buckets) != b
    decreases k
  {
    if k > off { BucketFirst(hashes, off, buckets, b, k - 1); }
  }

  /** From the first symbol of a bucket the walk reaches every symbol of the bucket unless it stops at that name
      before. */
  lemma {:induction false} WalkFinds(t: Table, names: seq<Name>, i: nat, k: nat)
    requires Rebuilt(t, Hashes(names)) && t.symOffset <= i <= k < |names|
             && Grouped(Hashes(names), t.symOffset, |t.buckets|)
    requires BucketOf(Hash(names[i]), |t.buckets|) == BucketOf(Hash(names[k]), |t.buckets|)
    ensures var r := Walk(t, names, names[k], Hash(names[k]), i);
            r.Symbol? && r.index < |names| && names[r.index] == names[k]
    decreases k - i
  {
    var hashes := Hashes(names);
    assert t.chain[i - t.symOffset] == ChainWord(hashes, |t.buckets|, t.symOffset + (i - t.symOffset));
    if i < k {
      assert BucketOf(hashes[i], |t.buckets|) <= BucketOf(hashes[i + 1], |t.buckets|) <= BucketOf(hashes[k],
          |t.buckets|);
      WalkFinds(t, names, i + 1, k);
    }
  }

  /** A walk ends inside the table, and only at the name it looks for. */
  lemma {:induction false} WalkEnds(t: Table, names: seq<Name>, name: Name, h: nat, i: nat)
    requires Rebuilt(t, Hashes(names)) && t.symOffset <= i < |names| && t.buckets != []
    ensures var r := Walk(t, names, name, h, i); r.Absent?
                                                 || (r.Symbol? && i <= r.index < |names| && names[r.index] == name)
    decreases |names| - i
  {
    var hashes := Hashes(names);
    assert t.chain[i - t.symOffset] == ChainWord(hashes, |t.buckets|, t.symOffset + (i - t.symOffset));
    if i + 1 < |names| { WalkEnds(t, names, name, h, i + 1); }
  }

  /** The names that the table is to find. */
  ghost predicate Listed(names: seq<Name>, off: nat, name: Name) { exists k :: off <= k < |names| && names[k] == name }

  /** A lookup in a rebuilt, grouped table finds a symbol of that name exactly when there is a nameable one. */
  lemma LookupExact(t: Table, names: seq<Name>, name: Name)
    requires Rebuilt(t, Hashes(names)) && (t.chain != [] ==> Grouped(Hashes(names), t.symOffset, |t.buckets|))
    ensures var r := Lookup(t, names, name);
            if Listed(names, Nameable(t.symOffset), name)
            then r.Symbol? && t.symOffset <= r.index < |names| && names[r.index] == name
            else r.Absent?
  {
    PassesIs(t, Hash(name));
    WrittenLookup(t, names, name);
  }

  /** The bits a loader looks at are those that the rebuild sets. */
  lemma PassesIs(t: Table, h: nat)
    requires t.bloom != []
    ensures BloomPasses(t, h) <==> HasBits(t, h)
  {
    ShiftedIs(h, t.bloomShift);
  }

  predicate HasBits(t: Table, h: nat)
    requires t.bloom != []
  {
    var word := t.bloom[WordOf(h, |t.bloom|)];
    FirstBit(h) in word && SecondBit(h, t.bloomShift) in word
  }

  /** The look-up in the terms of the rebuild. */
  function LookupWritten(t: Table, names: seq<Name>, name: Name): Found
    requires |names| == t.symOffset + |t.chain| && t.bloom != []
  {
    var h := Hash(name);
    if !HasBits(t, h) || t.buckets == [] then Absent
    else
      var first := t.buckets[BucketOf(h, |t.buckets|)];
      if first == 0 then Absent
      else if first < t.symOffset then RanOff
      else Walk(t, names, name, h, first)
  }

  lemma WrittenLookup(t: Table, names: seq<Name>, name: Name)
    requires Rebuilt(t, Hashes(names)) && (t.chain != [] ==> Grouped(Hashes(names), t.symOffset, |t.buckets|))
    ensures var r := LookupWritten(t, names, name);
            if Listed(names, Nameable(t.symOffset), name)
            then r.Symbol? && t.symOffset <= r.index < |names| && names[r.index] == name
            else r.Absent?
  {
    var hashes, h := Hashes(names), Hash(name);
    if t.buckets != [] {
      var b := BucketOf(h, |t.buckets|);
      BucketFirst(hashes, t.symOffset, |t.buckets|, b, |names|);
      var first := t.buckets[b];
      if first != 0 { WalkEnds(t, names, name, h, first); }
      if Listed(names, Nameable(t.symOffset), name) {
        var k :| Nameable(t.symOffset) <= k < |names| && names[k] == name;
        BloomHas(hashes, t.symOffset, t.bloomShift, |t.bloom|, WordOf(h, |t.bloom|), |names|, k);
        assert BucketOf(hashes[k], |t.buckets|) == b;
        WalkFinds(t, names, first, k);
      }
    }
  }

  /** Every name from `symOffset` on can be looked up exactly when the table leaves out symbol zero, or its name comes
      again. */
  lemma AllFound(t: Table, names: seq<Name>)
    requires Rebuilt(t, Hashes(names)) && (t.chain != [] ==> Grouped(Hashes(names), t.symOffset, |t.buckets|))
    ensures (forall k :: t.symOffset <= k < |names| ==> Lookup(t, names, names[k]).Symbol?)
       <==> t.symOffset >= 1 || names == [] || Listed(names, 1, names[0])
  {
    forall k | t.symOffset <= k < |names| ensures Lookup(t, names, names[k]).Symbol? <==>
        Listed(names, Nameable(t.symOffset), names[k]) {
      LookupExact(t, names, names[k]);
    }
  }

  /** A table that includes symbol zero, and nothing but it: its one bucket names symbol zero, so the name is missed. */
  lemma SymbolZeroMissed(name: Name, shift: nat)
    ensures var h := Hash(name);
            var t := Table(0, shift, [{FirstBit(h), SecondBit(h, shift)}], [0], [ChainWord([h], 1, 0)]);
            Rebuilt(t, Hashes([name])) && Lookup(t, [name], name).Absent?
  {
    var h := Hash(name);
    assert Hashes([name]) == [h];
    assert BloomAfter([h], 0, shift, 1, 0, 0) == {} && BucketAfter([h], 0, 1, 0, 0) == 0;
  }

  // ----- Rebuilding the section in place

  class HashSection {
    const room: nat
    const symOffset: nat
    const bloomShift: nat
    var bloom: seq<BloomWord>
    var buckets: seq<nat>
    var chain: seq<nat>

    constructor (room: nat, symOffset: nat, bloomShift: nat, bloom: seq<BloomWord>, buckets: seq<nat>, chain: seq<nat>)
      ensures this.room == room && this.symOffset == symOffset && this.bloomShift == bloomShift
      ensures this.bloom == bloom && this.buckets == buckets && this.chain == chain
    {
      this.room, this.symOffset, this.bloomShift, this.bloom, this.buckets, this.chain := room, symOffset, bloomShift,
          bloom, buckets, chain;
    }

    function Contents(): Table
      reads this
    {
      Table(symOffset, bloomShift, bloom, buckets, chain)
    }

    /** The bytes the section needs for `symCount` symbols: a header, the bloom words, the buckets and the chain. */
    function Required(symCount: nat): int
      reads this
    {
      16 + 8 * |bloom| + 4 * |buckets| + 4 * (symCount - symOffset)
    }

    /** The geometry a rebuild can work with. */
    predicate Sound(symCount: nat)
      reads this
    {
      && symOffset <= symCount && IsPowerOfTwo(|bloom|) && bloomShift < 32
      && (buckets == [] ==> symOffset == symCount) && Required(symCount) <= room
    }

    /** Fills the section for these names; a section that is too small is left as it was. */
    method Rebuild(names: seq<Name>) returns (ok: bool)
      requires symOffset <= |names| && bloom != [] && (buckets == [] ==> symOffset == |names|)
      modifies this
      ensures ok <==> old(Required(|names|)) <= room
      ensures ok ==> Rebuilt(Contents(), Hashes(names)) && |bloom| == old(|bloom|) && |buckets| == old(|buckets|)
      ensures !ok ==> Contents() == old(Contents())
    {
      if Required(|names|) > room { return false; }
      var hashes := HashAll(names);
      var newBloom := FillBloom(hashes, symOffset, bloomShift, |bloom|);
      var newBuckets, newChain := [], [];
      if buckets != [] {
        newBuckets := FillBuckets(hashes, symOffset, |buckets|);
        newChain := FillChain(hashes, symOffset, |buckets|);
      }
      bloom, buckets, chain := newBloom, newBuckets, newChain;
      ok := true;
    }
  }

  method HashAll(names: seq<Name>) returns (hashes: seq<nat>)
    ensures hashes == Hashes(names)
  {
    hashes := [];
    for i := 0 to |names|
      invariant |hashes| == i && forall k :: 0 <= k < i ==> hashes[k] == Hash(names[k])
    {
      var h := ComputeHash(names[i]);
      hashes := hashes + [h];
    }
  }

  method FillBloom(hashes: seq<nat>, off: nat, shift: nat, words: nat) returns (result: seq<BloomWord>)
    requires off <= |hashes| && words > 0
    ensures |result| == words && forall w: nat :: w < words ==>
            result[w] == BloomAfter(hashes, off, shift, words, w, |hashes|)
  {
    var bloom := new BloomWord[words](_ => {});
    for i := off to |hashes|
      invariant forall w: nat :: w < words ==> bloom[w] == BloomAfter(hashes, off, shift, words, w, i)
    {
      var h := hashes[i];
      var word := WordOf(h, words);
      bloom[word] := bloom[word] + {FirstBit(h)};
      bloom[word] := bloom[word] + {SecondBit(h, shift)};
    }
    result := bloom[..];
  }

  method FillBuckets(hashes: seq<nat>, off: nat, buckets: nat) returns (result: seq<nat>)
    requires off <= |hashes| && buckets > 0
    ensures |result| == buckets && forall b: nat :: b < buckets ==>
            result[b] == BucketAfter(hashes, off, buckets, b, |hashes|)
  {
    var first := new nat[buckets](_ => 0);
    for i := off to |hashes|
      invariant forall b: nat :: b < buckets ==> first[b] == BucketAfter(hashes, off, buckets, b, i)
    {
      var b := BucketOf(hashes[i], buckets);
      if first[b] == 0 { first[b] := i; }
    }
    result := first[..];
  }

  method FillChain(hashes: seq<nat>, off: nat, buckets: nat) returns (result: seq<nat>)
    requires off <= |hashes| && buckets > 0
    ensures |result| == |hashes| - off && forall i: nat :: i < |result| ==>
            result[i] == ChainWord(hashes, buckets, off + i)
  {
    var chain := new nat[|hashes| - off](_ => 0);
    for i := off to |hashes|
      invariant forall k: nat :: k < i - off ==> chain[k] == ChainWord(hashes, buckets, off + k)
    {
      var last := i + 1 == |hashes| || BucketOf(hashes[i + 1], buckets) != BucketOf(hashes[i], buckets);
      chain[i - off] := if last then hashes[i] - hashes[i] % 2 + 1 else hashes[i] - hashes[i] % 2;
    }
    result := chain[..];
  }
}
