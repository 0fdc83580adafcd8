/** The memo of materialized results: a list, most recently used first, of at most 256 entries, and an index into it.
Threads look a result up, make it outside the lock on a miss, and publish it. */
module ResultMemo {
  import opened Wrappers

  const ENTRIES: nat := 256

  type Word = x: int | 0 <= x < 0x1_0000_0000_0000_0000

  /** A result and what it was made for. */
  datatype Result = Result(variantId: Word, hash: Word, serial: nat)

  datatype Entry = Entry(variantId: Word, hash: Word, result: Result)

  /** Two different pairs may share an index. */
  type Mix = (Word, Word) -> Word

  function Index(variantId: Word, hash: Word): Word {
    ((variantId * 0x9e37_79b9_7f4a_7c15 % 0x1_0000_0000_0000_0000) as bv64 ^ (hash as bv64)) as Word
  }

  function KeyOf(mix: Mix, e: Entry): Word { mix(e.variantId, e.hash) }

  // ----- Lists in order of use

  /** `s` without the first `x`. */
  function Remove<T(==)>(s: seq<T>, x: T): seq<T> {
    if s == [] then [] else if s[0] == x then s[1..] else [s[0]] + Remove(s[1..], x)
  }

  function Take<T>(s: seq<T>, n: nat): seq<T> { if |s| <= n then s else s[..n] }

  /** The distinct keys of a history, most recently used first. */
  ghost function Recent(history: seq<Word>): seq<Word> {
    if history == [] then []
    else
      var last := history[|history| - 1];
      [last] + Remove(Recent(history[..|history| - 1]), last)
  }

  ghost predicate Distinct<T>(s: seq<T>) { forall i, j :: 0 <= i < j < |s| ==> s[i] != s[j] }

  lemma {:induction false} RemoveDistinct<T>(s: seq<T>, x: T)
    requires Distinct(s)
    ensures Distinct(Remove(s, x)) && forall y :: y in Remove(s, x) <==> y in s && y != x
  {
    if s != [] {
      assert s == [s[0]] + s[1..];
      RemoveDistinct(s[1..], x);
      if s[0] == x {
        assert x !in s[1..];
      } else {
        var rest := Remove(s[1..], x);
        forall j | 0 <= j < |rest| ensures rest[j] != s[0] { assert rest[j] in rest; }
      }
    }
  }

  lemma {:induction false} RecentDistinct(history: seq<Word>)
    ensures Distinct(Recent(history))
    decreases |history|
  {
    if history != [] {
      var last := history[|history| - 1];
      var before := Recent(history[..|history| - 1]);
      RecentDistinct(history[..|history| - 1]);
      RemoveDistinct(before, last);
      var rest := Remove(before, last);
      forall j | 0 <= j < |rest| ensures rest[j] != last { assert rest[j] in rest; }
    }
  }

  /** What a full list forgets it never needs again to stay in order. */
  lemma {:induction false} TakeRemove<T>(s: seq<T>, x: T, n: nat)
    requires n > 0
    ensures Take(Remove(s, x), n - 1) == Take(Remove(Take(s, n), x), n - 1)
    decreases |s|
  {
    if s != [] && |s| > n {
      var t := Take(s, n);
      if s[0] == x {
        assert Take(s[1..], n - 1) == Take(t[1..], n - 1);
      } else if n > 1 {
        TakeRemove(s[1..], x, n - 1);
        assert t[1..] == Take(s[1..], n - 1);
        assert Take([s[0]] + Remove(s[1..], x), n - 1) == [s[0]] + Take(Remove(s[1..], x), n - 2);
        assert Take([s[0]] + Remove(t[1..], x), n - 1) == [s[0]] + Take(Remove(t[1..], x), n - 2);
      }
    }
  }

  function Keys(mix: Mix, memo: seq<Entry>): (keys: seq<Word>)
    ensures |keys| == |memo| && forall i :: 0 <= i < |keys| ==> keys[i] == KeyOf(mix, memo[i])
  {
    seq(|memo|, i requires 0 <= i < |memo| => KeyOf(mix, memo[i]))
  }

  // ----- What a use does to the memo

  /** The memo without the entry under `key`. */
  function Without(mix: Mix, memo: seq<Entry>, key: Word): seq<Entry> {
    if memo == [] then [] else if KeyOf(mix, memo[0]) == key then memo[1..]
    else [memo[0]] + Without(mix, memo[1..], key)
  }

  /** `e` in front of the others, the one under its key gone, and the least recently used dropped. */
  function Use(mix: Mix, memo: seq<Entry>, e: Entry): seq<Entry> {
    Take([e] + Without(mix, memo, KeyOf(mix, e)), ENTRIES)
  }

  /** The entry for exactly this pair. */
  function Find(mix: Mix, memo: seq<Entry>, variantId: Word, hash: Word): Option<Entry> {
    if memo == [] then None
    else if KeyOf(mix, memo[0]) == mix(variantId, hash) then
      if memo[0].variantId == variantId && memo[0].hash == hash then Some(memo[0]) else None
    else Find(mix, memo[1..], variantId, hash)
  }

  /** Under the lock: a hit moves the entry to the front. */
  function AfterLookup(mix: Mix, memo: seq<Entry>, variantId: Word, hash: Word): seq<Entry> {
    var found := Find(mix, memo, variantId, hash);
    if found.Some? then Use(mix, memo, found.value) else memo
  }

  /** Under the lock again: a result published meanwhile for the pair is preferred. */
  function Published(mix: Mix, memo: seq<Entry>, variantId: Word, hash: Word, made: Result): Entry {
    var found := Find(mix, memo, variantId, hash);
    if found.Some? then found.value else Entry(variantId, hash, made)
  }

  function AfterPublish(mix: Mix, memo: seq<Entry>, variantId: Word, hash: Word, made: Result): seq<Entry> {
    Use(mix, memo, Published(mix, memo, variantId, hash, made))
  }

  // ----- What every memo satisfies

  /** Entries hold results made for them, and their keys are the most recently used ones, in order. */
  ghost predicate Sound(mix: Mix, memo: seq<Entry>, history: seq<Word>) {
    && (forall e <- memo :: e.result.variantId == e.variantId && e.result.hash == e.hash)
    && Keys(mix, memo) == Take(Recent(history), ENTRIES)
  }

  /** So there are at most 256, under pairwise different keys. */
  lemma SoundBounded(mix: Mix, memo: seq<Entry>, history: seq<Word>)
    requires Sound(mix, memo, history)
    ensures |memo| <= ENTRIES && Distinct(Keys(mix, memo))
  {
    RecentDistinct(history);
    assert |Keys(mix, memo)| == |memo|;
  }

  lemma KeysFirst(mix: Mix, first: Entry, rest: seq<Entry>)
    ensures Keys(mix, [first] + rest) == [KeyOf(mix, first)] + Keys(mix, rest)
  {
  }

  lemma {:induction false} WithoutKeys(mix: Mix, memo: seq<Entry>, key: Word)
    ensures Keys(mix, Without(mix, memo, key)) == Remove(Keys(mix, memo), key)
    ensures forall e <- Without(mix, memo, key) :: e in memo
  {
    if memo != [] {
      var first, rest := memo[0], memo[1..];
      WithoutKeys(mix, rest, key);
      KeysFirst(mix, first, rest);
      KeysFirst(mix, first, Without(mix, rest, key));
      assert memo == [first] + rest;
    }
  }

  /** Using an entry keeps the memo sound, and puts its key last in the history. */
  lemma UseSound(mix: Mix, memo: seq<Entry>, history: seq<Word>, e: Entry)
    requires Sound(mix, memo, history) && e.result.variantId == e.variantId && e.result.hash == e.hash
    ensures Sound(mix, Use(mix, memo, e), history + [KeyOf(mix, e)])
  {
    var key := KeyOf(mix, e);
    var others := Without(mix, memo, key);
    WithoutKeys(mix, memo, key);
    var all := history + [key];
    assert all[..|all| - 1] == history;
    TakeRemove(Recent(history), key, ENTRIES);
    assert Keys(mix, [e] + others) == [key] + Remove(Keys(mix, memo), key);
    var used := Use(mix, memo, e);
    assert Keys(mix, used) == Take(Keys(mix, [e] + others), ENTRIES);
    TakeFirst(key, Remove(Keys(mix, memo), key), ENTRIES);
    TakeFirst(key, Remove(Recent(history), key), ENTRIES);
    forall x <- used ensures x.result.variantId == x.variantId && x.result.hash == x.hash { assert x in [e] + others; }
  }

  lemma TakeFirst<T>(x: T, s: seq<T>, n: nat)
    requires n > 0
    ensures Take([x] + s, n) == [x] + Take(s, n - 1)
  {
  }

  lemma {:induction false} FindIsEntry(mix: Mix, memo: seq<Entry>, variantId: Word, hash: Word)
    ensures var found := Find(mix, memo, variantId, hash);
            found.Some? ==> found.value in memo && found.value.variantId == variantId && found.value.hash == hash
  {
    if memo != [] { FindIsEntry(mix, memo[1..], variantId, hash); }
  }

  // ----- The list and its index, updated in place

  ghost predicate DistinctKeys(mix: Mix, memo: seq<Entry>) {
    forall i, j :: 0 <= i < j < |memo| ==> KeyOf(mix, memo[i]) != KeyOf(mix, memo[j])
  }

  /** `e` is what the index gives for its key. */
  ghost predicate Indexed(mix: Mix, memoIndex: map<Word, Entry>, e: Entry) {
    KeyOf(mix, e) in memoIndex && memoIndex[KeyOf(mix, e)] == e
  }

  /** List and index hold the same entries, one for each key. */
  ghost predicate Bijective(mix: Mix, memo: seq<Entry>, memoIndex: map<Word, Entry>) {
    && DistinctKeys(mix, memo)
    && (forall e <- memo :: Indexed(mix, memoIndex, e))
    && (forall key <- memoIndex :: memoIndex[key] in memo && KeyOf(mix, memoIndex[key]) == key)
  }

  lemma {:induction false} WithoutMembers(mix: Mix, memo: seq<Entry>, key: Word)
    requires DistinctKeys(mix, memo)
    ensures DistinctKeys(mix, Without(mix, memo, key))
    ensures forall x :: x in Without(mix, memo, key) <==> x in memo && KeyOf(mix, x) != key
    ensures |Without(mix, memo, key)| <= |memo|
  {
    if memo != [] {
      var first, rest := memo[0], memo[1..];
      assert memo == [first] + rest;
      forall x <- rest ensures KeyOf(mix, x) != KeyOf(mix, first) {
        var k :| 0 <= k < |rest| && rest[k] == x;
        assert KeyOf(mix, memo[0]) != KeyOf(mix, memo[k + 1]);
      }
      WithoutMembers(mix, rest, key);
      DistinctFirst(mix, first, Without(mix, rest, key));
    }
  }

  lemma DistinctFirst(mix: Mix, first: Entry, rest: seq<Entry>)
    requires DistinctKeys(mix, rest)
    ensures (forall x <- rest :: KeyOf(mix, x) != KeyOf(mix, first)) ==> DistinctKeys(mix, [first] + rest)
  {
  }

  lemma {:induction false} WithoutNone(mix: Mix, memo: seq<Entry>, key: Word)
    requires forall x <- memo :: KeyOf(mix, x) != key
    ensures Without(mix, memo, key) == memo
  {
    if memo != [] { WithoutNone(mix, memo[1..], key); }
  }

  lemma {:induction false} WithoutOne(mix: Mix, memo: seq<Entry>, e: Entry)
    requires e in memo
    ensures |Without(mix, memo, KeyOf(mix, e))| == |memo| - 1
  {
    if KeyOf(mix, memo[0]) != KeyOf(mix, e) { WithoutOne(mix, memo[1..], e); }
  }

  lemma {:induction false} FindIndexed(mix: Mix, memo: seq<Entry>, variantId: Word, hash: Word, e: Entry)
    requires DistinctKeys(mix, memo) && e in memo && KeyOf(mix, e) == mix(variantId, hash)
    ensures Find(mix, memo, variantId, hash) == if e.variantId == variantId && e.hash == hash then Some(e) else None
  {
    if memo[0] != e {
      var i :| 0 <= i < |memo| && memo[i] == e;
      assert KeyOf(mix, memo[0]) != KeyOf(mix, memo[i]);
      FindIndexed(mix, memo[1..], variantId, hash, e);
    }
  }

  lemma {:induction false} FindNone(mix: Mix, memo: seq<Entry>, variantId: Word, hash: Word)
    requires forall x <- memo :: KeyOf(mix, x) != mix(variantId, hash)
    ensures Find(mix, memo, variantId, hash).None?
  {
    if memo != [] { FindNone(mix, memo[1..], variantId, hash); }
  }

  /** The entry the index gives is the one a search of the list finds. */
  lemma IndexFinds(mix: Mix, memo: seq<Entry>, memoIndex: map<Word, Entry>, variantId: Word, hash: Word)
    requires Bijective(mix, memo, memoIndex)
    ensures var key, found := mix(variantId, hash), Find(mix, memo, variantId, hash);
            if key in memoIndex && memoIndex[key].variantId == variantId && memoIndex[key].hash == hash
            then found == Some(memoIndex[key]) else found.None?
  {
    var key := mix(variantId, hash);
    if key in memoIndex {
      FindIndexed(mix, memo, variantId, hash, memoIndex[key]);
    } else {
      forall x <- memo ensures KeyOf(mix, x) != key { assert Indexed(mix, memoIndex, x); }
      FindNone(mix, memo, variantId, hash);
    }
  }

  lemma SameKeySame(mix: Mix, memo: seq<Entry>, memoIndex: map<Word, Entry>, x: Entry, e: Entry)
    requires Bijective(mix, memo, memoIndex) && x in memo && e in memo
    ensures KeyOf(mix, x) == KeyOf(mix, e) ==> x == e
  {
    assert Indexed(mix, memoIndex, x) && Indexed(mix, memoIndex, e);
  }

  /** List and index stay in bijection when the same entries are in both, under distinct keys. */
  lemma SameMembers(mix: Mix, memo: seq<Entry>, memoIndex: map<Word, Entry>, now: seq<Entry>, key: Word)
    requires Bijective(mix, memo, memoIndex) && DistinctKeys(mix, now)
    requires forall x :: x in now <==> x in memo && KeyOf(mix, x) != key
    ensures Bijective(mix, now, memoIndex - {key})
  {
    forall x <- now ensures Indexed(mix, memoIndex - {key}, x) {
      assert x in memo && KeyOf(mix, x) != key;
      assert Indexed(mix, memoIndex, x);
    }
    forall k <- memoIndex - {key} ensures memoIndex[k] in now && KeyOf(mix, memoIndex[k]) == k {
      assert k in memoIndex;
    }
  }

  lemma FrontBijective(mix: Mix, memo: seq<Entry>, memoIndex: map<Word, Entry>, e: Entry)
    requires Bijective(mix, memo, memoIndex) && e in memo
    ensures Bijective(mix, [e] + Without(mix, memo, KeyOf(mix, e)), memoIndex)
  {
    var others := Without(mix, memo, KeyOf(mix, e));
    WithoutMembers(mix, memo, KeyOf(mix, e));
    DistinctFirst(mix, e, others);
    forall x <- memo ensures x in [e] + others {
      SameKeySame(mix, memo, memoIndex, x, e);
      if KeyOf(mix, x) != KeyOf(mix, e) { assert x in others; }
    }
    forall x <- [e] + others ensures Indexed(mix, memoIndex, x) { assert x in memo; }
  }

  lemma AddedBijective(mix: Mix, memo: seq<Entry>, memoIndex: map<Word, Entry>, e: Entry)
    requires Bijective(mix, memo, memoIndex) && KeyOf(mix, e) !in memoIndex
    ensures Bijective(mix, [e] + memo, memoIndex[KeyOf(mix, e) := e])
  {
    forall x <- memo ensures KeyOf(mix, x) != KeyOf(mix, e) { assert Indexed(mix, memoIndex, x); }
    DistinctFirst(mix, e, memo);
    var now := memoIndex[KeyOf(mix, e) := e];
    forall x <- [e] + memo ensures Indexed(mix, now, x) {
      if x != e { assert x in memo && Indexed(mix, memoIndex, x); }
    }
    forall key <- now ensures now[key] in [e] + memo && KeyOf(mix, now[key]) == key {
      if key != KeyOf(mix, e) { assert key in memoIndex && now[key] == memoIndex[key]; }
    }
  }

  lemma DroppedBijective(mix: Mix, memo: seq<Entry>, memoIndex: map<Word, Entry>)
    requires Bijective(mix, memo, memoIndex) && memo != []
    ensures Bijective(mix, memo[..|memo| - 1], memoIndex - {KeyOf(mix, memo[|memo| - 1])})
  {
    var front, last := memo[..|memo| - 1], memo[|memo| - 1];
    assert memo == front + [last];
    forall x ensures x in front <==> x in memo && KeyOf(mix, x) != KeyOf(mix, last) {
      if x in front {
        var i :| 0 <= i < |front| && front[i] == x;
        assert KeyOf(mix, memo[i]) != KeyOf(mix, memo[|front|]);
      }
    }
    SameMembers(mix, memo, memoIndex, front, KeyOf(mix, last));
  }

  /** An iterator into the list is modelled by the entry it points at. */
  class Memo {
    const mix: Mix
    var memo: seq<Entry>
    var memoIndex: map<Word, Entry>

    ghost predicate Valid()
      reads this
    {
      |memo| <= ENTRIES && Bijective(mix, memo, memoIndex)
    }

    constructor (mix: Mix)
      ensures this.mix == mix && Valid() && memo == []
    {
      this.mix, memo, memoIndex := mix, [], map[];
    }

    /** Moves an entry to the front. */
    method ToFront(e: Entry)
      requires Valid() && e in memo
      modifies this`memo
      ensures Valid() && memo == Use(mix, old(memo), e)
    {
      FrontBijective(mix, memo, memoIndex, e);
      WithoutOne(mix, memo, e);
      memo := [e] + Without(mix, memo, KeyOf(mix, e));
    }

    method Lookup(variantId: Word, hash: Word) returns (hit: Option<Result>)
      requires Valid()
      modifies this
      ensures Valid() && memo == AfterLookup(mix, old(memo), variantId, hash)
      ensures var found := Find(mix, old(memo), variantId, hash);
              hit == if found.Some? then Some(found.value.result) else None
    {
      IndexFinds(mix, memo, memoIndex, variantId, hash);
      var key := mix(variantId, hash);
      if key in memoIndex && memoIndex[key].variantId == variantId && memoIndex[key].hash == hash {
        var e := memoIndex[key];
        ToFront(e);
        return Some(e.result);
      }
      hit := None;
    }

    method Publish(variantId: Word, hash: Word, made: Result) returns (shared: Result)
      requires Valid()
      modifies this
      ensures Valid() && memo == AfterPublish(mix, old(memo), variantId, hash, made)
      ensures shared == Published(mix, old(memo), variantId, hash, made).result
    {
      IndexFinds(mix, memo, memoIndex, variantId, hash);
      var key := mix(variantId, hash);
      if key in memoIndex {
        var e := memoIndex[key];
        if e.variantId == variantId && e.hash == hash {
          ToFront(e);
          return e.result;
        }
        WithoutMembers(mix, memo, key);
        SameMembers(mix, memo, memoIndex, Without(mix, memo, key), key);
        memo, memoIndex := Without(mix, memo, key), memoIndex - {key};
      } else {
        forall x <- memo ensures KeyOf(mix, x) != key { assert Indexed(mix, memoIndex, x); }
        WithoutNone(mix, memo, key);
      }
      PushFront(Entry(variantId, hash, made));
      shared := made;
    }

    /** A new entry in front, under a key of its own; the last ones go when there are too many. */
    method PushFront(e: Entry)
      requires Valid() && KeyOf(mix, e) !in memoIndex
      modifies this
      ensures Valid() && memo == Take([e] + old(memo), ENTRIES)
    {
      AddedBijective(mix, memo, memoIndex, e);
      memo, memoIndex := [e] + memo, memoIndex[KeyOf(mix, e) := e];
      while |memo| > ENTRIES
        invariant Bijective(mix, memo, memoIndex) && |memo| <= ENTRIES + 1
        invariant Take(memo, ENTRIES) == Take([e] + old(memo), ENTRIES)
      {
        DroppedBijective(mix, memo, memoIndex);
        memo, memoIndex := memo[..|memo| - 1], memoIndex - {KeyOf(mix, memo[|memo| - 1])};
      }
    }
  }
}
