/** Unwrapping a SELF: its segments are copied to regions of their own in a clean file, each congruent to its address
modulo its alignment, and the program headers follow them. */
module SelfRegions {
  import opened Uleb128
  import opened Powers

  const FIRST_REGION: nat := 0x400

  /** A program header with its place in the input; what the tool writes is where it ends up. */
  datatype Segment = Segment(load: bool, source: nat, size: nat, vaddr: nat, align: nat)

  datatype Region = Region(from: nat, size: nat, vaddr: nat, align: nat)

  // ----- Which regions there are

  predicate Inside(r: Region, offset: nat, size: nat) { r.from <= offset && offset + size <= r.from + r.size }

  /** The first region that holds a range, or the number of regions. */
  function RegionFor(regions: seq<Region>, offset: nat, size: nat): (i: nat)
    ensures i <= |regions| && (i < |regions| ==> Inside(regions[i], offset, size))
    ensures i == |regions| ==> forall r <- regions :: !Inside(r, offset, size)
  {
    if regions == [] then 0 else if Inside(regions[0], offset, size) then 0
    else 1 + RegionFor(regions[1..], offset, size)
  }

  /** The region that a load segment asks for. */
  function OwnRegion(s: Segment): Region { Region(s.source, s.size, s.vaddr, s.align) }

  /** One region for every non-empty load segment, with its address and alignment. */
  function LoadRegions(segments: seq<Segment>): seq<Region> {
    if segments == [] then []
    else
      var last, before := segments[|segments| - 1], LoadRegions(segments[..|segments| - 1]);
      if last.load && last.size > 0 then before + [OwnRegion(last)] else before
  }

  predicate NeedsRegion(regions: seq<Region>, s: Segment) {
    !s.load && s.size > 0 && RegionFor(regions, s.source, s.size) == |regions|
  }

  /** Then one, of no address and alignment, for every other non-empty segment that no region before it holds. */
  function WithOthers(regions: seq<Region>, segments: seq<Segment>): seq<Region> {
    if segments == [] then regions
    else
      var last, before := segments[|segments| - 1], WithOthers(regions, segments[..|segments| - 1]);
      if NeedsRegion(before, last) then before + [Region(last.source, last.size, 0, 1)] else before
  }

  function Collected(segments: seq<Segment>): seq<Region> { WithOthers(LoadRegions(segments), segments) }

  method CollectRegions(segments: seq<Segment>) returns (regions: seq<Region>)
    ensures regions == Collected(segments)
  {
    regions := [];
    for i := 0 to |segments|
      invariant regions == LoadRegions(segments[..i])
    {
      assert segments[..i + 1][..i] == segments[..i];
      var s := segments[i];
      if s.load && s.size > 0 { regions := regions + [Region(s.source, s.size, s.vaddr, s.align)]; }
    }
    assert segments[..|segments|] == segments;
    ghost var loads := regions;
    for i := 0 to |segments|
      invariant regions == WithOthers(loads, segments[..i])
    {
      assert segments[..i + 1][..i] == segments[..i];
      var s := segments[i];
      if !s.load && s.size > 0 && RegionFor(regions, s.source, s.size) == |regions| {
        regions := regions + [Region(s.source, s.size, 0, 1)];
      }
    }
  }

  ghost predicate Held(regions: seq<Region>, s: Segment) { exists r <- regions :: Inside(r, s.source, s.size) }

  ghost predicate OfLoad(segments: seq<Segment>, r: Region) {
    exists s <- segments :: s.load && s.size > 0 && r == OwnRegion(s)
  }

  /** `r` is the plain region of a segment that none of the regions `before` holds. */
  ghost predicate OfOther(segments: seq<Segment>, before: seq<Region>, r: Region) {
    exists s <- segments :: NeedsRegion(before, s) && r == Region(s.source, s.size, 0, 1)
  }

  lemma {:induction false} LoadsCollected(segments: seq<Segment>)
    ensures forall s <- segments :: s.load && s.size > 0 ==> OwnRegion(s) in LoadRegions(segments)
    ensures forall r <- LoadRegions(segments) :: OfLoad(segments, r)
  {
    if segments != [] {
      var last, rest := segments[|segments| - 1], segments[..|segments| - 1];
      assert segments == rest + [last];
      LoadsCollected(rest);
      forall r <- LoadRegions(segments) ensures OfLoad(segments, r) {
        if r in LoadRegions(rest) {
          assert OfLoad(rest, r);
          var s :| s in rest && s.load && s.size > 0 && r == OwnRegion(s);
          assert s in segments;
        } else {
          assert r == OwnRegion(last) && last in segments;
        }
      }
    }
  }

  lemma {:induction false} OthersHeld(regions: seq<Region>, segments: seq<Segment>)
    ensures var all := WithOthers(regions, segments);
            regions <= all && forall s <- segments :: s.size > 0 && !s.load ==> Held(all, s)
  {
    if segments != [] {
      var last, rest := segments[|segments| - 1], segments[..|segments| - 1];
      var before, all := WithOthers(regions, rest), WithOthers(regions, segments);
      OthersHeld(regions, rest);
      forall s <- segments | s.size > 0 && !s.load ensures Held(all, s) {
        if s == last {
          var i := RegionFor(before, s.source, s.size);
          assert Inside(if i < |before| then before[i] else all[|before|], s.source, s.size);
        } else {
          assert segments == rest + [last] && Held(before, s);
          HeldMore(before, all, s);
        }
      }
    }
  }

  lemma HeldMore(before: seq<Region>, all: seq<Region>, s: Segment)
    requires Held(before, s) && before <= all
    ensures Held(all, s)
  {
    var r :| r in before && Inside(r, s.source, s.size);
    assert r in all;
  }

  lemma {:induction false} OthersCollected(regions: seq<Region>, segments: seq<Segment>, k: nat)
    requires |regions| <= k < |WithOthers(regions, segments)|
    ensures OfOther(segments, WithOthers(regions, segments)[..k], WithOthers(regions, segments)[k])
    decreases |segments|
  {
    var last, rest := segments[|segments| - 1], segments[..|segments| - 1];
    var before, all := WithOthers(regions, rest), WithOthers(regions, segments);
    assert segments == rest + [last];
    if k < |before| {
      OthersCollected(regions, rest, k);
      assert all[..k] == before[..k];
      var s :| s in rest && NeedsRegion(before[..k], s) && before[k] == Region(s.source, s.size, 0, 1);
      assert s in segments;
    } else {
      assert all[..k] == before && last in segments;
    }
  }

  /** Every non-empty load segment has its region, with its address and alignment; every other region has neither and is
      that of a segment that no region before it holds. So every non-empty segment is held, and no region is of anything
      else. */
  lemma CollectedRegions(segments: seq<Segment>)
    ensures forall s <- segments :: s.load && s.size > 0 ==> OwnRegion(s) in Collected(segments)
    ensures forall s <- segments :: s.size > 0 ==> Held(Collected(segments), s)
    ensures var n, all := |LoadRegions(segments)|, Collected(segments);
            && n <= |all| && (forall k :: 0 <= k < n ==> OfLoad(segments, all[k]))
            && forall k :: n <= k < |all| ==> OfOther(segments, all[..k], all[k])
  {
    var loads, all := LoadRegions(segments), Collected(segments);
    LoadsCollected(segments);
    OthersHeld(loads, segments);
    forall s <- segments | s.load && s.size > 0 ensures OwnRegion(s) in all && Held(all, s) {
      assert Inside(OwnRegion(s), s.source, s.size);
    }
    forall k | |loads| <= k < |all| ensures OfOther(segments, all[..k], all[k]) { OthersCollected(loads, segments, k); }
  }

  // ----- Where they go

  function AlignUp(value: nat, alignment: nat): nat {
    if alignment <= 1 then value else (value + alignment - 1) / alignment * alignment
  }

  /** An alignment that is no power of two counts as none. */
  function Alignment(align: nat): (a: nat)
    ensures a > 0
  {
    if align > 0 && IsPowerOfTwo(align) then align else 1
  }

  function Place(cursor: nat, r: Region): nat {
    var a := Alignment(r.align);
    var placed := AlignUp(cursor, a);
    if r.vaddr % a != placed % a then placed + (r.vaddr % a - placed % a) % a else placed
  }

  lemma MultipleAbove(value: nat, a: nat) returns (q: nat)
    requires a > 0
    ensures AlignUp(value, a) == q * a >= value
  {
    if a == 1 {
      q := value;
    } else {
      var x := value + a - 1;
      q := x / a;
      assert x == a * q + x % a && x % a < a;
    }
  }

  lemma Remainder(q: nat, a: nat, r: nat)
    requires r < a
    ensures (q * a + r) % a == r
    decreases q
  {
    if q > 0 {
      Remainder(q - 1, a, r);
      var x := (q - 1) * a + r;
      assert q * a + r == x + a;
      AddOne(x, a);
    }
  }

  lemma AddOne(x: nat, a: nat)
    requires a > 0
    ensures (x + a) % a == x % a
  {
    var q, r := x / a, x % a;
    assert x == q * a + r;
    assert x + a == (q + 1) * a + r;
    Unique(x + a, a, q + 1, r);
  }

  lemma Unique(x: nat, a: nat, q: nat, r: nat)
    requires a > 0 && x == q * a + r && r < a
    ensures x % a == r
  {
    var k: int := x / a - q;
    var r' := x % a;
    assert x == (x / a) * a + r';
    assert (x / a) * a - q * a == k * a;
    assert k * a == r - r';
    MultipleFar(k, a);
  }

  lemma MultipleFar(k: int, a: int)
    requires a > 0
    ensures (k >= 1 ==> k * a >= a) && (k <= -1 ==> k * a <= -a)
  {
    if k >= 1 { assert k * a == a + (k - 1) * a; }
    if k <= -1 { assert k * a == -a + (k + 1) * a; }
  }

  /** A region goes at or after the cursor, congruent to its address. */
  lemma PlaceCongruent(cursor: nat, r: Region)
    ensures Place(cursor, r) >= cursor && Place(cursor, r) % Alignment(r.align) == r.vaddr % Alignment(r.align)
  {
    var a := Alignment(r.align);
    var q := MultipleAbove(cursor, a);
    Remainder(q, a, 0);
    Remainder(q, a, r.vaddr % a);
    Remainder(0, a, r.vaddr % a);
  }

  /** The regions in the order of their place in the input; equal ones keep their order. */
  function SortByFrom(regions: seq<Region>): (sorted: seq<Region>)
    ensures multiset(sorted) == multiset(regions)
  {
    if regions == [] then []
    else
      assert regions == [regions[0]] + regions[1..];
      InsertByFrom(regions[0], SortByFrom(regions[1..]))
  }

  function InsertByFrom(r: Region, sorted: seq<Region>): (all: seq<Region>)
    ensures multiset(all) == multiset(sorted) + multiset{r}
  {
    if sorted == [] then [r]
    else if r.from <= sorted[0].from then [r] + sorted
    else
      assert sorted == [sorted[0]] + sorted[1..];
      [sorted[0]] + InsertByFrom(r, sorted[1..])
  }

  /** The regions that start at one place in the input. */
  function StartingAt(regions: seq<Region>, from: nat): seq<Region> {
    if regions == [] then [] else (if regions[0].from == from then [regions[0]]
                                   else []) + StartingAt(regions[1..], from)
  }

  ghost predicate InOrder(regions: seq<Region>) {
    forall i, j :: 0 <= i < j < |regions| ==> regions[i].from <= regions[j].from
  }

  /** The sort orders by place and keeps the order of regions that start together. */
  lemma {:induction false} SortOrders(regions: seq<Region>, from: nat)
    ensures InOrder(SortByFrom(regions)) && StartingAt(SortByFrom(regions), from) == StartingAt(regions, from)
  {
    if regions != [] {
      SortOrders(regions[1..], from);
      InsertOrders(regions[0], SortByFrom(regions[1..]), from);
    }
  }

  lemma {:induction false} InsertOrders(r: Region, sorted: seq<Region>, from: nat)
    requires InOrder(sorted)
    ensures InOrder(InsertByFrom(r, sorted))
    ensures StartingAt(InsertByFrom(r, sorted), from) == (if r.from == from then [r] else []) + StartingAt(sorted, from)
  {
    if sorted == [] || r.from <= sorted[0].from {
      assert ([r] + sorted)[1..] == sorted;
    } else {
      InsertOrders(r, sorted[1..], from);
      var rest := InsertByFrom(r, sorted[1..]);
      assert ([sorted[0]] + rest)[1..] == rest;
      InsertBehind(r, sorted);
      if r.from == from { LaterStarts(sorted, from); }
    }
  }

  lemma InsertBehind(r: Region, sorted: seq<Region>)
    requires InOrder(sorted) && sorted != [] && sorted[0].from < r.from && InOrder(InsertByFrom(r, sorted[1..]))
    ensures InOrder([sorted[0]] + InsertByFrom(r, sorted[1..]))
  {
    var rest := InsertByFrom(r, sorted[1..]);
    forall x <- rest ensures sorted[0].from <= x.from { InsertedFrom(r, sorted[1..], x); }
    FirstInOrder(sorted[0], rest);
  }

  lemma InsertedFrom(r: Region, sorted: seq<Region>, x: Region)
    requires x in InsertByFrom(r, sorted)
    ensures x == r || x in sorted
  {
    assert x in multiset(InsertByFrom(r, sorted));
  }

  lemma FirstInOrder(first: Region, rest: seq<Region>)
    requires InOrder(rest) && forall x <- rest :: first.from <= x.from
    ensures InOrder([first] + rest)
  {
  }

  /** Nothing that starts later starts at `from`. */
  lemma LaterStarts(sorted: seq<Region>, from: nat)
    requires sorted != [] && sorted[0].from < from
    ensures StartingAt(sorted, from) == StartingAt(sorted[1..], from)
  {
  }

  /** Where the regions start, one behind the other from `cursor` on. */
  function Starts(regions: seq<Region>, cursor: nat): (starts: seq<nat>)
    ensures |starts| == |regions|
  {
    if regions == [] then [] else [Place(cursor, regions[0])]
                                  + Starts(regions[1..], Place(cursor, regions[0]) + regions[0].size)
  }

  function End(regions: seq<Region>, cursor: nat): nat {
    if regions == [] then cursor else End(regions[1..], Place(cursor, regions[0]) + regions[0].size)
  }

  /** What the placement guarantees of region `i`. */
  ghost predicate WellPlaced(regions: seq<Region>, starts: seq<nat>, low: nat, high: nat, i: nat) {
    && i < |regions| == |starts| && low <= starts[i] && starts[i] + regions[i].size <= high
    && starts[i] % Alignment(regions[i].align) == regions[i].vaddr % Alignment(regions[i].align)
    && forall j :: 0 <= i < j < |regions| ==> starts[i] + regions[i].size <= starts[j]
  }

  /** All regions lie at or above the cursor, one behind the other, each congruent to its address. */
  lemma {:induction false} StartsPlaced(regions: seq<Region>, cursor: nat)
    ensures cursor <= End(regions, cursor)
    ensures forall i: nat :: i < |regions| ==>
            WellPlaced(regions, Starts(regions, cursor), cursor, End(regions, cursor), i)
    decreases |regions|
  {
    if regions != [] {
      var r, rest := regions[0], regions[1..];
      var starts, end := Starts(regions, cursor), End(regions, cursor);
      var next := starts[0] + r.size;
      PlaceCongruent(cursor, r);
      StartsPlaced(rest, next);
      forall j | 0 < j < |regions| ensures next <= starts[j] {
        assert WellPlaced(rest, Starts(rest, next), next, end, j - 1);
      }
      forall i: nat | i < |regions| ensures WellPlaced(regions, starts, cursor, end, i) {
        if i > 0 {
          assert WellPlaced(rest, Starts(rest, next), next, end, i - 1);
          assert regions[i] == rest[i - 1] && starts[i] == Starts(rest, next)[i - 1];
        }
      }
    }
  }

  method PlaceRegions(regions: seq<Region>) returns (starts: seq<nat>, cursor: nat)
    ensures starts == Starts(regions, FIRST_REGION) && cursor == End(regions, FIRST_REGION)
  {
    starts, cursor := [], FIRST_REGION;
    for i := 0 to |regions|
      invariant starts + Starts(regions[i..], cursor) == Starts(regions, FIRST_REGION)
      invariant End(regions[i..], cursor) == End(regions, FIRST_REGION)
    {
      assert regions[i..][1..] == regions[i + 1..];
      var placed := Place(cursor, regions[i]);
      starts, cursor := starts + [placed], placed + regions[i].size;
    }
  }

  // ----- Copying and remapping

  /** The bytes of the input that a region holds. */
  function Bytes(data: seq<Byte>, r: Region): (bytes: seq<Byte>)
    requires r.from + r.size <= |data|
    ensures |bytes| == r.size
  {
    data[r.from..r.from + r.size]
  }

  ghost predicate InData(data: seq<Byte>, regions: seq<Region>) { forall r <- regions :: r.from + r.size <= |data| }

  /** Region `i` holds its bytes of the input. */
  ghost predicate Copied(data: seq<Byte>, result: seq<Byte>, regions: seq<Region>, starts: seq<nat>, i: nat) {
    i < |regions| == |starts| && regions[i].from + regions[i].size <= |data|
      && At(result, starts[i], Bytes(data, regions[i]))
  }

  function Overwritten(before: seq<Byte>, start: nat, bytes: seq<Byte>): (after: seq<Byte>)
    requires start + |bytes| <= |before|
    ensures |after| == |before|
  {
    before[..start] + bytes + before[start + |bytes|..]
  }

  lemma OverwrittenAt(before: seq<Byte>, start: nat, bytes: seq<Byte>, other: nat, otherBytes: seq<Byte>)
    requires start + |bytes| <= |before|
    ensures At(Overwritten(before, start, bytes), start, bytes)
    ensures At(before, other, otherBytes) && (other + |otherBytes| <= start || start + |bytes| <= other) ==>
              At(Overwritten(before, start, bytes), other, otherBytes)
  {
    var after := Overwritten(before, start, bytes);
    forall k | 0 <= k < |before| && (k < start || start + |bytes| <= k) ensures after[k] == before[k] {}
    forall k | 0 <= k < |bytes| ensures after[start + k] == bytes[k] {}
  }

  method CopyRegion(data: seq<Byte>, r: Region, start: nat, result: array<Byte>)
    requires r.from + r.size <= |data| && start + r.size <= result.Length
    modifies result
    ensures result[..] == Overwritten(old(result[..]), start, Bytes(data, r))
  {
    ghost var after := Overwritten(result[..], start, Bytes(data, r));
    for n := 0 to r.size
      invariant forall k :: 0 <= k < result.Length && k < start + n ==> result[k] == after[k]
      invariant forall k :: start + n <= k < result.Length ==> result[k] == old(result[k])
    {
      result[start + n] := data[r.from + n];
    }
  }

  lemma CopyStep(data: seq<Byte>, before: seq<Byte>, regions: seq<Region>, starts: seq<nat>, end: nat, i: nat, j: nat)
    requires InData(data, regions) && WellPlaced(regions, starts, FIRST_REGION, end, i)
             && WellPlaced(regions, starts, FIRST_REGION, end, j)
    requires |before| == end && j <= i && (j < i ==> Copied(data, before, regions, starts, j))
    ensures regions[i] in regions && Copied(data, Overwritten(before, starts[i], Bytes(data, regions[i])), regions,
                                            starts, j)
  {
    assert regions[i] in regions;
    assert regions[j] in regions;
    OverwrittenAt(before, starts[i], Bytes(data, regions[i]), starts[j], Bytes(data, regions[j]));
  }

  method CopyRegions(data: seq<Byte>, regions: seq<Region>, starts: seq<nat>, result: array<Byte>)
    requires InData(data, regions) && starts == Starts(regions, FIRST_REGION)
             && result.Length == End(regions, FIRST_REGION)
    modifies result
    ensures forall i: nat :: i < |regions| ==> Copied(data, result[..], regions, starts, i)
  {
    StartsPlaced(regions, FIRST_REGION);
    for i := 0 to |regions|
      invariant forall j: nat :: j < i ==> Copied(data, result[..], regions, starts, j)
    {
      ghost var before := result[..];
      assert WellPlaced(regions, starts, FIRST_REGION, result.Length, i);
      assert regions[i] in regions;
      CopyRegion(data, regions[i], starts[i], result);
      forall j: nat | j <= i ensures Copied(data, result[..], regions, starts, j) {
        CopyStep(data, before, regions, starts, result.Length, i, j);
      }
    }
  }

  /** Where a segment ends up: with its region, or, when none holds it, where it was. */
  function NewOffset(regions: seq<Region>, starts: seq<nat>, s: Segment): nat
    requires |starts| == |regions|
  {
    if s.size == 0 && s.load then 0
    else
      var i := RegionFor(regions, s.source, s.size);
      if i == |regions| then s.source else starts[i] + (s.source - regions[i].from)
  }

  /** The segment reads the same bytes at its new offset as at its source. */
  ghost predicate ReadsSame(data: seq<Byte>, result: seq<Byte>, s: Segment, offset: nat) {
    s.source + s.size <= |data| && At(result, offset, data[s.source..s.source + s.size])
  }

  lemma SegmentReadsSame(data: seq<Byte>, result: seq<Byte>, regions: seq<Region>, starts: seq<nat>, s: Segment)
    requires |starts| == |regions| && s.size > 0 && RegionFor(regions, s.source, s.size) < |regions|
    requires forall i: nat :: i < |regions| ==> Copied(data, result, regions, starts, i)
    ensures ReadsSame(data, result, s, NewOffset(regions, starts, s))
  {
    var i := RegionFor(regions, s.source, s.size);
    var r, offset := regions[i], NewOffset(regions, starts, s);
    assert Copied(data, result, regions, starts, i);
    var d := s.source - r.from;
    PartOfPart(data, r.from, r.from + r.size, d, s.size);
    PartAt(result, starts[i], Bytes(data, r), d, s.size);
  }

  lemma PartOfPart<T>(data: seq<T>, from: nat, to: nat, d: nat, n: nat)
    requires from <= to <= |data| && from + d + n <= to
    ensures data[from..to][d..d + n] == data[from + d..from + d + n]
  {
    var part := data[from..to];
    var left, right := part[d..d + n], data[from + d..from + d + n];
    forall k | 0 <= k < n ensures left[k] == right[k] { assert left[k] == part[d + k] == data[from + (d + k)]; }
    assert left == right;
  }

  lemma PartAt(data: seq<Byte>, start: nat, bytes: seq<Byte>, d: nat, n: nat)
    requires At(data, start, bytes) && d + n <= |bytes|
    ensures At(data, start + d, bytes[d..d + n])
  {
    var part := bytes[d..d + n];
    forall k | 0 <= k < n ensures data[start + d + k] == part[k] { assert data[start + (d + k)] == bytes[d + k]; }
  }

  /** A segment that a region holds ends up inside the result. */
  lemma HeldFits(regions: seq<Region>, starts: seq<nat>, s: Segment)
    requires starts == Starts(regions, FIRST_REGION)
    ensures RegionFor(regions, s.source, s.size) < |regions| ==>
            NewOffset(regions, starts, s) + s.size <= End(regions, FIRST_REGION)
  {
    StartsPlaced(regions, FIRST_REGION);
    var i := RegionFor(regions, s.source, s.size);
    if i < |regions| { assert WellPlaced(regions, starts, FIRST_REGION, End(regions, FIRST_REGION), i); }
  }

  /** Bytes below 0x400 written over the result: the ELF header and the program headers. */
  ghost predicate HeadersOver(before: seq<Byte>, after: seq<Byte>) {
    |after| == |before| && forall k :: FIRST_REGION <= k < |before| ==> after[k] == before[k]
  }

  lemma HeadersKeep(data: seq<Byte>, before: seq<Byte>, after: seq<Byte>, regions: seq<Region>, starts: seq<nat>)
    requires starts == Starts(regions, FIRST_REGION) && HeadersOver(before, after)
    requires forall i: nat :: i < |regions| ==> Copied(data, before, regions, starts, i)
    ensures forall i: nat :: i < |regions| ==> Copied(data, after, regions, starts, i)
  {
    StartsPlaced(regions, FIRST_REGION);
    forall i: nat | i < |regions| ensures Copied(data, after, regions, starts, i) {
      assert Copied(data, before, regions, starts, i)
          && WellPlaced(regions, starts, FIRST_REGION, End(regions, FIRST_REGION), i);
    }
  }

  /** Whatever is written below 0x400, non-empty segments read the same bytes. */
  ghost predicate AllReadSame(data: seq<Byte>, result: seq<Byte>, segments: seq<Segment>, offsets: seq<nat>) {
    |offsets| == |segments| &&
    forall after, i: nat :: HeadersOver(result, after) && i < |segments| && segments[i].size > 0 ==>
        ReadsSame(data, after, segments[i], offsets[i])
  }

  lemma SortHolds(regions: seq<Region>, s: Segment)
    requires RegionFor(regions, s.source, s.size) < |regions|
    ensures RegionFor(SortByFrom(regions), s.source, s.size) < |SortByFrom(regions)|
  {
    var r := regions[RegionFor(regions, s.source, s.size)];
    assert r in regions && r in multiset(regions);
    assert r in multiset(SortByFrom(regions));
    assert r in SortByFrom(regions) && Inside(r, s.source, s.size);
  }

  /** Every non-empty segment is held by a region. */
  ghost predicate AllHeld(segments: seq<Segment>, regions: seq<Region>) {
    forall i :: 0 <= i < |segments| && segments[i].size > 0 ==>
        RegionFor(regions, segments[i].source, segments[i].size) < |regions|
  }

  /** The regions of a file lie in the input and hold every non-empty segment. */
  lemma CollectedFits(data: seq<Byte>, segments: seq<Segment>)
    requires forall s <- segments :: s.source + s.size <= |data|
    ensures InData(data, SortByFrom(Collected(segments))) && AllHeld(segments, SortByFrom(Collected(segments)))
  {
    var collected, n := Collected(segments), |LoadRegions(segments)|;
    var regions := SortByFrom(collected);
    CollectedRegions(segments);
    forall i | 0 <= i < |segments| && segments[i].size > 0
      ensures RegionFor(regions, segments[i].source, segments[i].size) < |regions| {
      assert segments[i] in segments && Held(collected, segments[i]);
      SortHolds(collected, segments[i]);
    }
    forall r <- regions ensures r.from + r.size <= |data| {
      assert r in multiset(regions);
      var k :| 0 <= k < |collected| && collected[k] == r;
      if k < n { assert OfLoad(segments, r); } else { assert OfOther(segments, collected[..k], r); }
    }
  }

  /** A segment that would end past the result. */
  predicate Escapes(regions: seq<Region>, starts: seq<nat>, limit: nat, s: Segment)
    requires |starts| == |regions|
  {
    NewOffset(regions, starts, s) + s.size > limit
  }

  /** The new offset of every segment, unless one would end past the result. */
  method Remap(segments: seq<Segment>, regions: seq<Region>, starts: seq<nat>, limit: nat)
    returns (refused: bool, offsets: seq<nat>)
    requires |starts| == |regions|
    ensures refused <==> exists s <- segments :: !(s.load && s.size == 0) && Escapes(regions, starts, limit, s)
    ensures !refused ==> Remapped(segments, regions, starts, offsets)
  {
    offsets := [];
    for i := 0 to |segments|
      invariant Remapped(segments[..i], regions, starts, offsets)
      invariant forall s <- segments[..i] :: (s.load && s.size == 0) || !Escapes(regions, starts, limit, s)
    {
      var s := segments[i];
      assert segments[..i + 1] == segments[..i] + [s];
      if s.load && s.size == 0 {
        offsets := offsets + [0];
        continue;
      }
      var offset := NewOffset(regions, starts, s);
      if offset + s.size > limit {
        assert s in segments && Escapes(regions, starts, limit, s);
        return true, offsets;
      }
      offsets := offsets + [offset];
    }
    assert segments[..|segments|] == segments;
    refused := false;
  }

  ghost predicate Remapped(segments: seq<Segment>, regions: seq<Region>, starts: seq<nat>, offsets: seq<nat>)
    requires |starts| == |regions|
  {
    |offsets| == |segments| && forall j :: 0 <= j < |offsets| ==> offsets[j] == NewOffset(regions, starts, segments[j])
  }

  datatype Unwrapped = Unwrapped(offsets: seq<nat>, regions: seq<Region>, starts: seq<nat>) | Refused

  /** An empty segment that no region holds, at a place beyond the end of the result. */
  predicate Stray(regions: seq<Region>, s: Segment) {
    s.size == 0 && !s.load && RegionFor(regions, s.source, 0) == |regions| && s.source > End(regions, FIRST_REGION)
  }

  /** The regions of the file in order, placed one behind the other; every segment gets its new offset, and the
      non-empty ones read the same bytes there, also after the headers are written. The tool refuses exactly for a stray
      segment. */
  method Unwrap(data: seq<Byte>, segments: seq<Segment>) returns (outcome: Unwrapped, result: array<Byte>)
    requires forall s <- segments :: s.source + s.size <= |data|
    ensures outcome.Refused? <==> exists s <- segments :: Stray(SortByFrom(Collected(segments)), s)
    ensures outcome.Unwrapped? ==>
              && outcome.regions == SortByFrom(Collected(segments))
              && outcome.starts == Starts(outcome.regions, FIRST_REGION)
              && result.Length == End(outcome.regions, FIRST_REGION)
              && AllPlaced(outcome.regions, outcome.starts, result.Length)
              && Remapped(segments, outcome.regions, outcome.starts, outcome.offsets)
              && AllReadSame(data, result[..], segments, outcome.offsets)
  {
    var collected := CollectRegions(segments);
    var regions := SortByFrom(collected);
    CollectedFits(data, segments);
    var starts, cursor := PlaceRegions(regions);
    StartsPlaced(regions, FIRST_REGION);
    result := new Byte[cursor];
    CopyRegions(data, regions, starts, result);
    var refused, offsets := Remap(segments, regions, starts, result.Length);
    OnlyStraysEscape(segments, regions, starts);
    if refused {
      outcome := Refused;
    } else {
      SegmentsReadSame(data, result[..], segments, regions, starts, offsets);
      outcome := Unwrapped(offsets, regions, starts);
    }
  }

  ghost predicate AllPlaced(regions: seq<Region>, starts: seq<nat>, end: nat) {
    forall i: nat :: i < |regions| ==> WellPlaced(regions, starts, FIRST_REGION, end, i)
  }

  lemma SegmentsReadSame(data: seq<Byte>, result: seq<Byte>, segments: seq<Segment>, regions: seq<Region>,
                         starts: seq<nat>, offsets: seq<nat>)
    requires starts == Starts(regions, FIRST_REGION) && AllHeld(segments, regions)
    requires forall i: nat :: i < |regions| ==> Copied(data, result, regions, starts, i)
    requires Remapped(segments, regions, starts, offsets)
    ensures AllReadSame(data, result, segments, offsets)
  {
    forall after, i: nat | HeadersOver(result, after) && i < |segments| && segments[i].size > 0
      ensures ReadsSame(data, after, segments[i], offsets[i])
    {
      HeadersKeep(data, result, after, regions, starts);
      SegmentReadsSame(data, after, regions, starts, segments[i]);
    }
  }

  lemma OnlyStraysEscape(segments: seq<Segment>, regions: seq<Region>, starts: seq<nat>)
    requires starts == Starts(regions, FIRST_REGION) && AllHeld(segments, regions)
    ensures forall s <- segments :: Stray(regions, s) <==>
            !(s.load && s.size == 0) && Escapes(regions, starts, End(regions, FIRST_REGION), s)
  {
    forall s <- segments ensures Stray(regions, s) <==>
        !(s.load && s.size == 0) && Escapes(regions, starts, End(regions, FIRST_REGION), s) {
      HeldFits(regions, starts, s);
    }
  }

  // ----- Where segments end up against their addresses

  /** The segment's new offset is congruent to its address modulo its alignment. */
  predicate Congruent(regions: seq<Region>, starts: seq<nat>, s: Segment)
    requires |starts| == |regions|
  {
    Same(NewOffset(regions, starts, s), s.vaddr, s.align)
  }

  /** Congruent modulo an alignment. */
  predicate Same(x: nat, y: nat, align: nat) { x % Alignment(align) == y % Alignment(align) }

  /** Where the cursor stands when region `i` is placed. */
  function CursorAt(regions: seq<Region>, cursor: nat, i: nat): nat
    requires i <= |regions|
  {
    if i == 0 then cursor else CursorAt(regions[1..], Place(cursor, regions[0]) + regions[0].size, i - 1)
  }

  lemma {:induction false} StartAt(regions: seq<Region>, cursor: nat, i: nat)
    requires i < |regions|
    ensures Starts(regions, cursor)[i] == Place(CursorAt(regions, cursor, i), regions[i])
    decreases i
  {
    if i > 0 { StartAt(regions[1..], Place(cursor, regions[0]) + regions[0].size, i - 1); }
  }

  /** `b` is a multiple of `a`. */
  lemma {:induction false} PowersDivide(a: nat, b: nat) returns (k: nat)
    requires IsPowerOfTwo(a) && IsPowerOfTwo(b) && a <= b
    ensures b == k * a && k > 0
    decreases b
  {
    if a == b {
      k := 1;
    } else {
      HalfStays(a, b);
      k := PowersDivide(a, b / 2);
      assert b == 2 * (b / 2) == 2 * (k * a) == (2 * k) * a;
      k := 2 * k;
    }
  }

  lemma {:induction false} HalfStays(a: nat, b: nat)
    requires IsPowerOfTwo(a) && IsPowerOfTwo(b) && a < b
    ensures b > 1 && a <= b / 2
    decreases a
  {
    if a > 1 { HalfStays(a / 2, b / 2); }
  }

  lemma Regrouped(q: int, k: int, p: int, a: int)
    ensures (q * k + p) * a == q * (k * a) + p * a
  {
  }

  /** Congruence modulo a multiple is congruence. */
  lemma CoarserRemainder(x: nat, a: nat, k: nat, m: nat)
    requires a > 0 && m == k * a > 0
    ensures (x % m) % a == x % a
  {
    var q, r := x / m, x % m;
    var p, e := r / a, r % a;
    assert x == q * m + r;
    assert r == p * a + e;
    CoarserSum(x, a, k, m, q, p, e);
  }

  lemma CoarserSum(x: nat, a: nat, k: nat, m: nat, q: nat, p: nat, e: nat)
    requires a > 0 && m == k * a && x == q * m + (p * a + e) && e < a
    ensures x % a == e
  {
    Regrouped(q, k, p, a);
    Unique(x, a, q * k + p, e);
  }

  lemma SumRemainder(x: nat, d: nat, a: nat)
    requires a > 0
    ensures (x + d) % a == (x % a + d) % a
  {
    var y := x % a + d;
    assert x + d == (x / a) * a + y;
    var e := y % a;
    assert y == (y / a) * a + e;
    assert x + d == (x / a + y / a) * a + e;
    Unique(x + d, a, x / a + y / a, e);
  }

  /** The alignments are powers of two, so one is a multiple of the other. */
  lemma AlignmentDivides(x: nat, y: nat) returns (k: nat)
    requires Alignment(x) <= Alignment(y)
    ensures k > 0 && Alignment(y) == k * Alignment(x)
  {
    k := PowersDivide(Alignment(x), Alignment(y));
  }

  /** When exactly a segment's new offset is congruent to its address. Its own region makes it so. Another region that
      holds it and comes first makes it so, when aligned at least as much, exactly if addresses and places differ alike
      in both; when aligned less, that is needed, and decided by where the cursor stood. */
  lemma NewOffsetCongruent(regions: seq<Region>, s: Segment, i: nat)
    requires s.size > 0 && i == RegionFor(regions, s.source, s.size) < |regions|
    ensures regions[i] == OwnRegion(s) ==> Congruent(regions, Starts(regions, FIRST_REGION), s)
    ensures Alignment(s.align) <= Alignment(regions[i].align) ==>
              (Congruent(regions, Starts(regions, FIRST_REGION), s) <==> Same(Moved(regions[i], s), s.vaddr, s.align))
    ensures Alignment(regions[i].align) <= Alignment(s.align)
            && Congruent(regions, Starts(regions, FIRST_REGION), s) ==>
              Same(Moved(regions[i], s), s.vaddr, regions[i].align)
    ensures Congruent(regions, Starts(regions, FIRST_REGION), s) <==>
              Same(Place(CursorAt(regions, FIRST_REGION, i), regions[i]) + s.source - regions[i].from, s.vaddr, s.align)
  {
    StartAt(regions, FIRST_REGION, i);
    var start := Place(CursorAt(regions, FIRST_REGION, i), regions[i]);
    PlaceCongruent(CursorAt(regions, FIRST_REGION, i), regions[i]);
    OffsetCongruent(start, regions[i], s);
    assert NewOffset(regions, Starts(regions, FIRST_REGION), s) == start + (s.source - regions[i].from);
  }

  /** The address that the place of a segment inside a region stands for. */
  function Moved(r: Region, s: Segment): nat
    requires r.from <= s.source
  {
    r.vaddr + (s.source - r.from)
  }

  lemma OffsetCongruent(start: nat, r: Region, s: Segment)
    requires r.from <= s.source && Same(start, r.vaddr, r.align)
    ensures var d := s.source - r.from;
            && (r == OwnRegion(s) ==> Same(start + d, s.vaddr, s.align))
            && (Alignment(s.align) <= Alignment(r.align) ==>
                (Same(start + d, s.vaddr, s.align) <==> Same(r.vaddr + d, s.vaddr, s.align)))
            && (Alignment(r.align) <= Alignment(s.align) && Same(start + d, s.vaddr, s.align) ==>
                Same(r.vaddr + d, s.vaddr, r.align))
  {
    var d := s.source - r.from;
    if Alignment(s.align) <= Alignment(r.align) { SameCoarser(start, r.vaddr, d, s.align, r.align); }
    if Alignment(r.align) <= Alignment(s.align) && Same(start + d, s.vaddr, s.align) {
      SameCoarser(start + d, s.vaddr, 0, r.align, s.align);
      SameCoarser(start, r.vaddr, d, r.align, r.align);
    }
  }

  /** Congruence by the larger alignment is congruence by the smaller one, also after a step. */
  lemma SameCoarser(x: nat, y: nat, d: nat, small: nat, large: nat)
    requires Alignment(small) <= Alignment(large) && Same(x, y, large)
    ensures Same(x + d, y + d, small)
  {
    var a := Alignment(small);
    var k := AlignmentDivides(small, large);
    CoarserRemainder(x, a, k, Alignment(large));
    CoarserRemainder(y, a, k, Alignment(large));
    SumRemainder(x, d, a);
    SumRemainder(y, d, a);
  }

  /** It can fail: a load segment inside an earlier one, at an address that differs from its place. */
  lemma CongruenceCanFail()
    ensures var outer, inner := Segment(true, 0x1000, 0x3000, 0x400000, 0x1000),
            Segment(true, 0x2000, 0x1000, 0x800234, 0x1000);
            var regions := SortByFrom(Collected([outer, inner]));
            !Congruent(regions, Starts(regions, FIRST_REGION), inner)
  {
    var outer, inner := Segment(true, 0x1000, 0x3000, 0x400000, 0x1000),
        Segment(true, 0x2000, 0x1000, 0x800234, 0x1000);
    TwoLoads(outer, inner);
    NewOffsetCongruent([OwnRegion(outer), OwnRegion(inner)], inner, 0);
    PowersUpTo();
  }

  lemma TwoLoads(outer: Segment, inner: Segment)
    requires outer.load && inner.load && outer.size > 0 && inner.size > 0 && outer.source <= inner.source
    ensures SortByFrom(Collected([outer, inner])) == [OwnRegion(outer), OwnRegion(inner)]
  {
    var segments := [outer, inner];
    var loads := [OwnRegion(outer), OwnRegion(inner)];
    assert segments[..1] == [outer] && [outer][..0] == [];
    assert LoadRegions([]) == [] && LoadRegions([outer]) == [OwnRegion(outer)];
    assert LoadRegions(segments) == loads;
    assert WithOthers(loads, []) == loads && WithOthers(loads, [outer]) == loads;
    assert Collected(segments) == loads;
    assert loads[1..] == [OwnRegion(inner)] && loads[1..][1..] == [];
    assert SortByFrom([OwnRegion(inner)]) == [OwnRegion(inner)];
  }

  lemma PowersUpTo()
    ensures IsPowerOfTwo(0x1000)
  {
    assert IsPowerOfTwo(8) && IsPowerOfTwo(64) && IsPowerOfTwo(512);
  }
}
