/** The rebuilt `.dynstr`: values sorted by their reversed text, so that a value directly follows one it is a
suffix of, and then shares its bytes. */
module DynStr {
  import opened Uleb128

  type Text = seq<Byte>

  const WORD32: nat := 0x1_0000_0000

  function Init(v: Text): Text
    requires v != []
  {
    v[..|v| - 1]
  }

  function Last(v: Text): Byte
    requires v != []
  {
    v[|v| - 1]
  }

  /** `left` sorts before `right`: reversed, it is lexicographically greater. */
  predicate Above(left: Text, right: Text)
    decreases |left|
  {
    left != [] && (right == [] || Last(right) < Last(left)
                   || (Last(right) == Last(left) && Above(Init(left), Init(right))))
  }

  predicate Suffix(v: Text, w: Text) { |v| <= |w| && w[|w| - |v|..] == v }

  lemma {:induction false} AboveTransitive(a: Text, b: Text, c: Text)
    requires Above(a, b) && Above(b, c)
    ensures Above(a, c)
    decreases |a|
  {
    if c != [] && Last(a) == Last(b) == Last(c) { AboveTransitive(Init(a), Init(b), Init(c)); }
  }

  lemma {:induction false} AboveTotal(a: Text, b: Text)
    ensures a == b <==> !Above(a, b) && !Above(b, a)
    decreases |a|
  {
    if a != [] && b != [] {
      assert a == Init(a) + [Last(a)] && b == Init(b) + [Last(b)];
      if Last(a) == Last(b) { AboveTotal(Init(a), Init(b)); }
    }
  }

  lemma {:induction false} AboveAsymmetric(a: Text, b: Text)
    requires Above(a, b)
    ensures !Above(b, a)
    decreases |a|
  {
    if b != [] && Last(a) == Last(b) { AboveAsymmetric(Init(a), Init(b)); }
  }

  lemma SuffixInit(v: Text, w: Text)
    requires v != [] && w != []
    ensures Suffix(v, w) <==> Last(v) == Last(w) && Suffix(Init(v), Init(w))
  {
    if |v| <= |w| {
      var tail := w[|w| - |v|..];
      assert Init(w)[|Init(w)| - |Init(v)|..] == Init(tail) && Last(tail) == Last(w);
      assert v == Init(v) + [Last(v)] && tail == Init(tail) + [Last(tail)];
    }
  }

  lemma {:induction false} SuffixAbove(v: Text, w: Text)
    requires Suffix(v, w) && v != w
    ensures Above(w, v)
    decreases |v|
  {
    if v != [] {
      SuffixInit(v, w);
      assert v == Init(v) + [Last(v)] && w == Init(w) + [Last(w)];
      SuffixAbove(Init(v), Init(w));
    }
  }

  /** Whatever sorts between a value and a suffix of it ends in that suffix too. */
  lemma {:induction false} SuffixBetween(w: Text, u: Text, v: Text)
    requires Suffix(v, w) && Above(w, u) && Above(u, v)
    ensures Suffix(v, u)
    decreases |v|
  {
    if v != [] {
      SuffixInit(v, w);
      SuffixInit(v, u);
      if Last(u) == Last(v) { SuffixBetween(Init(w), Init(u), Init(v)); }
    }
  }

  lemma SuffixTransitive(a: Text, b: Text, c: Text)
    requires Suffix(a, b) && Suffix(b, c)
    ensures Suffix(a, c)
  {
    assert b[|b| - |a|..] == c[|c| - |b|..][|b| - |a|..] == c[|c| - |a|..];
  }

  // ----- Sorting

  ghost predicate Descending(s: seq<Text>) { forall i, j :: 0 <= i < j < |s| ==> Above(s[i], s[j]) }

  /** `v` put in its place, once. */
  function Insert(s: seq<Text>, v: Text): (r: seq<Text>)
    requires Descending(s)
    ensures Descending(r) && forall x :: x in r <==> x in s || x == v
  {
    if s == [] then [v]
    else if s[0] == v then s
    else if Above(v, s[0]) then
      InsertFirst(s, v);
      [v] + s
    else
      var rest := Insert(s[1..], v);
      InsertLater(s, v, rest);
      [s[0]] + rest
  }

  lemma InsertLater(s: seq<Text>, v: Text, rest: seq<Text>)
    requires Descending(s) && s != [] && s[0] != v && !Above(v, s[0])
    requires Descending(rest) && forall x :: x in rest <==> x in s[1..] || x == v
    ensures Descending([s[0]] + rest) && forall x :: x in [s[0]] + rest <==> x in s || x == v
  {
    AboveTotal(v, s[0]);
    forall j | 0 <= j < |rest| ensures Above(s[0], rest[j]) { assert rest[j] in rest; }
    assert s == [s[0]] + s[1..];
  }

  lemma InsertFirst(s: seq<Text>, v: Text)
    requires Descending(s) && s != [] && Above(v, s[0])
    ensures Descending([v] + s)
  {
    forall j | 0 < j < |s| ensures Above(v, s[j]) { AboveTransitive(v, s[0], s[j]); }
  }

  /** The values in descending order, each once. */
  function Sorted(values: seq<Text>): (s: seq<Text>)
    ensures Descending(s) && forall v :: v in s <==> v in values
  {
    if values == [] then [] else Insert(Sorted(values[1..]), values[0])
  }

  // ----- Which values get bytes of their own

  /** Value `i` is no suffix of another. */
  ghost predicate Root(s: seq<Text>, i: nat)
    requires i < |s|
  {
    forall j :: 0 <= j < |s| && j != i ==> !Suffix(s[i], s[j])
  }

  /** In descending order only the value before can end in this one, if any does. */
  lemma RootOrFollows(s: seq<Text>, i: nat)
    requires Descending(s) && i < |s|
    ensures Root(s, i) <==> i == 0 || !Suffix(s[i], s[i - 1])
  {
    forall j | 0 <= j < |s| && j != i && Suffix(s[i], s[j]) ensures i > 0 && Suffix(s[i], s[i - 1]) {
      if j > i {
        assert Above(s[i], s[j]);
        AboveAsymmetric(s[i], s[j]);
        AboveTotal(s[i], s[j]);
        SuffixAbove(s[i], s[j]);
      } else if j < i - 1 {
        assert Above(s[j], s[i - 1]) && Above(s[i - 1], s[i]);
        SuffixBetween(s[j], s[i - 1], s[i]);
      }
    }
  }

  /** The bytes of the roots among the first `k` values, with their NULs. */
  ghost function RootBytes(s: seq<Text>, k: nat): nat
    requires k <= |s|
  {
    if k == 0 then 0 else RootBytes(s, k - 1) + if Root(s, k - 1) then |s[k - 1]| + 1 else 0
  }

  // ----- The table

  /** `v` and its NUL stand at `offset`. */
  ghost predicate StringAt(table: seq<Byte>, offset: nat, v: Text) {
    offset + |v| < |table| && table[offset + |v|] == 0 && forall i :: 0 <= i < |v| ==> table[offset + i] == v[i]
  }

  /** The C string at `offset`. */
  function ReadCStr(table: seq<Byte>, offset: nat): (v: Text)
    decreases |table| - offset
  {
    if offset >= |table| || table[offset] == 0 then [] else [table[offset]] + ReadCStr(table, offset + 1)
  }

  lemma {:induction false} StringReads(table: seq<Byte>, offset: nat, v: Text)
    requires StringAt(table, offset, v) && 0 !in v
    ensures ReadCStr(table, offset) == v
    decreases |v|
  {
    if v == [] {
      assert table[offset + 0] == 0;
    } else {
      assert table[offset + 0] == v[0] && v[0] in v;
      forall i | 0 <= i < |v[1..]| ensures table[offset + 1 + i] == v[1..][i] { assert v[1..][i] == v[i + 1]; }
      StringReads(table, offset + 1, v[1..]);
    }
  }

  /** A suffix stands at the end of the string. */
  lemma SuffixAt(table: seq<Byte>, offset: nat, w: Text, v: Text)
    requires StringAt(table, offset, w) && Suffix(v, w)
    ensures StringAt(table, offset + |w| - |v|, v)
  {
    var d := |w| - |v|;
    forall i | 0 <= i < |v| ensures table[offset + d + i] == v[i] { assert w[d..][i] == w[d + i]; }
  }

  /** The table has the first `k` values where `offsets` says, the roots one after another. */
  ghost predicate Laid(table: seq<Byte>, offsets: map<Text, nat>, s: seq<Text>, k: nat) {
    && k <= |s| && |table| == 1 + RootBytes(s, k) && table[0] == 0
    && (forall i: nat :: i < k ==> LaidAt(table, offsets, s, i))
  }

  ghost predicate LaidAt(table: seq<Byte>, offsets: map<Text, nat>, s: seq<Text>, i: nat) {
    && i < |s| && s[i] in offsets && StringAt(table, offsets[s[i]], s[i])
    && if Root(s, i) then offsets[s[i]] == 1 + RootBytes(s, i) else Shares(offsets, s, i)
  }

  /** Value `i` has the last bytes of a root. */
  ghost predicate Shares(offsets: map<Text, nat>, s: seq<Text>, i: nat)
    requires i < |s| && s[i] in offsets
  {
    exists j: nat :: j < i && EndsIn(offsets, s, j, i)
  }

  ghost predicate EndsIn(offsets: map<Text, nat>, s: seq<Text>, j: nat, i: nat)
    requires i < |s| && s[i] in offsets
  {
    j < |s| && Root(s, j) && Suffix(s[i], s[j]) && s[j] in offsets && offsets[s[i]] == offsets[s[j]] + |s[j]| - |s[i]|
  }

  /** Value `k` stands at `offset` in the grown table; the earlier values stay where they are. */
  lemma LaidMore(table: seq<Byte>, offsets: map<Text, nat>, s: seq<Text>, k: nat, grown: seq<Byte>, offset: nat)
    requires Laid(table, offsets, s, k) && Descending(s) && k < |s| && table <= grown
             && |grown| == 1 + RootBytes(s, k + 1)
    requires LaidAt(grown, offsets[s[k] := offset], s, k)
    ensures Laid(grown, offsets[s[k] := offset], s, k + 1)
  {
    var now := offsets[s[k] := offset];
    forall i: nat | i < k + 1 ensures LaidAt(grown, now, s, i) {
      if i < k {
        assert LaidAt(table, offsets, s, i);
        LaidStays(table, offsets, s, k, grown, offset, i);
      }
    }
  }

  lemma LaidStays(table: seq<Byte>, offsets: map<Text, nat>, s: seq<Text>, k: nat, grown: seq<Byte>, offset: nat,
                  i: nat)
    requires LaidAt(table, offsets, s, i) && Descending(s) && i < k < |s| && table <= grown
    ensures LaidAt(grown, offsets[s[k] := offset], s, i)
  {
    Distinct(s, i, k);
    if !Root(s, i) {
      var j: nat :| j < i && EndsIn(offsets, s, j, i);
      Distinct(s, j, k);
      assert EndsIn(offsets[s[k] := offset], s, j, i);
    }
  }

  lemma Distinct(s: seq<Text>, i: nat, j: nat)
    requires Descending(s) && i < j < |s|
    ensures s[i] != s[j]
  {
    assert Above(s[i], s[j]);
    AboveTotal(s[i], s[j]);
  }

  /** The last root before value `k`: the value before ends it. */
  ghost predicate Previous(offsets: map<Text, nat>, s: seq<Text>, k: nat, p: nat, offset: nat) {
    p < k <= |s| && Root(s, p) && Suffix(s[k - 1], s[p]) && s[p] in offsets && offsets[s[p]] == offset
  }

  /** Value `k` is a suffix of the last root exactly when it is not a root itself. */
  lemma MergesIffNotRoot(offsets: map<Text, nat>, s: seq<Text>, k: nat, p: nat, offset: nat)
    requires Descending(s) && k < |s| && Previous(offsets, s, k, p, offset)
    ensures Suffix(s[k], s[p]) <==> !Root(s, k)
  {
    RootOrFollows(s, k);
    if !Root(s, k) { SuffixTransitive(s[k], s[k - 1], s[p]); }
  }

  /** A value that ends the last root shares its bytes. */
  lemma MergeStep(table: seq<Byte>, offsets: map<Text, nat>, s: seq<Text>, k: nat, p: nat, offset: nat)
    requires Descending(s) && k < |s| && Laid(table, offsets, s, k) && Previous(offsets, s, k, p, offset)
             && Suffix(s[k], s[p])
    ensures var now := offsets[s[k] := offset + |s[p]| - |s[k]|];
            Laid(table, now, s, k + 1) && Previous(now, s, k + 1, p, offset)
  {
    MergesIffNotRoot(offsets, s, k, p, offset);
    assert LaidAt(table, offsets, s, p);
    SuffixAt(table, offset, s[p], s[k]);
    Distinct(s, p, k);
    assert EndsIn(offsets[s[k] := offset + |s[p]| - |s[k]|], s, p, k);
    LaidMore(table, offsets, s, k, table, offset + |s[p]| - |s[k]|);
  }

  /** A root is appended with its NUL. */
  lemma AppendStep(table: seq<Byte>, offsets: map<Text, nat>, s: seq<Text>, k: nat)
    requires Descending(s) && k < |s| && Laid(table, offsets, s, k) && Root(s, k)
    ensures var now := offsets[s[k] := |table|]; Laid(table + s[k] + [0], now, s, k + 1)
                                                 && Previous(now, s, k + 1, k, |table|)
  {
    LaidMore(table, offsets, s, k, table + s[k] + [0], |table|);
  }

  method BuildTable(values: seq<Text>) returns (table: seq<Byte>, offsets: map<Text, nat>)
    ensures Laid(table, offsets, Sorted(values), |Sorted(values)|)
  {
    var s := Sorted(values);
    table, offsets := [0], map[];
    var previous: nat, previousOffset: nat := 0, 0;
    for k := 0 to |s|
      invariant Laid(table, offsets, s, k) && (k > 0 ==> Previous(offsets, s, k, previous, previousOffset))
    {
      if k > 0 && Suffix(s[k], s[previous]) {
        MergeStep(table, offsets, s, k, previous, previousOffset);
        offsets := offsets[s[k] := previousOffset + |s[previous]| - |s[k]|];
      } else {
        if k > 0 { MergesIffNotRoot(offsets, s, k, previous, previousOffset); } else { RootOrFollows(s, k); }
        AppendStep(table, offsets, s, k);
        previous, previousOffset := k, |table|;
        offsets := offsets[s[k] := previousOffset];
        table := table + s[k] + [0];
      }
    }
  }

  // ----- No shorter table

  ghost predicate Contains(table: seq<Byte>, v: Text) { exists offset: nat :: StringAt(table, offset, v) }

  /** A table that starts with a zero byte and holds all values. */
  ghost predicate HoldsAll(table: seq<Byte>, values: seq<Text>) {
    table != [] && table[0] == 0 && forall v <- values :: Contains(table, v)
  }

  ghost predicate Terminated(values: seq<Text>) { forall v <- values :: 0 !in v }

  ghost function Place(table: seq<Byte>, v: Text): nat
    requires Contains(table, v)
  {
    var offset: nat :| StringAt(table, offset, v); offset
  }

  /** The positions of a string and its NUL. */
  ghost function Span(offset: nat, length: nat): set<nat> {
    set x: nat | x <= offset + length && Spans(offset, length, x)
  }

  ghost predicate Spans(offset: nat, length: nat, x: nat) { offset <= x <= offset + length }

  lemma {:induction false} SpanCount(offset: nat, length: nat)
    ensures |Span(offset, length)| == length + 1
    decreases length
  {
    if length == 0 {
      assert Span(offset, 0) == {offset};
    } else {
      SpanCount(offset, length - 1);
      assert Span(offset, length) == Span(offset, length - 1) + {offset + length};
    }
  }

  /** Two strings of which neither ends in the other cannot overlap. */
  lemma Apart(table: seq<Byte>, a: nat, v: Text, b: nat, w: Text)
    requires StringAt(table, a, v) && StringAt(table, b, w) && 0 !in v && 0 !in w && !Suffix(v, w) && !Suffix(w, v)
    ensures a + |v| < b || b + |w| < a
  {
    if a + |v| == b + |w| {
      if |v| <= |w| { SameEnd(table, b, w, v); } else { SameEnd(table, a, v, w); }
    } else if b <= a + |v| < b + |w| {
      NulInside(table, b, w, a + |v|);
    } else if a <= b + |w| < a + |v| {
      NulInside(table, a, v, b + |w|);
    }
  }

  lemma NulInside(table: seq<Byte>, b: nat, w: Text, x: nat)
    requires StringAt(table, b, w) && b <= x < b + |w| && table[x] == 0
    ensures 0 in w
  {
    assert table[b + (x - b)] == w[x - b];
  }

  lemma SameEnd(table: seq<Byte>, b: nat, w: Text, v: Text)
    requires StringAt(table, b, w) && |v| <= |w| && StringAt(table, b + |w| - |v|, v)
    ensures Suffix(v, w)
  {
    var d := |w| - |v|;
    forall i | 0 <= i < |v| ensures w[d..][i] == v[i] {
      assert table[b + (d + i)] == w[d + i] && table[b + d + i] == v[i];
    }
  }

  ghost predicate SomeText(values: seq<Text>) { exists i :: 0 <= i < |values| && values[i] != [] }

  /** The positions that value `i` takes when it is a root. */
  ghost function RootSpan(table: seq<Byte>, s: seq<Text>, i: nat): (span: set<nat>)
    requires i < |s| && Contains(table, s[i])
  {
    if Root(s, i) then Span(Place(table, s[i]), |s[i]|) else {}
  }

  ghost predicate AllIn(table: seq<Byte>, s: seq<Text>) { forall i :: 0 <= i < |s| ==> Contains(table, s[i]) }

  /** The positions that the zero byte and the roots among the first `k` values take. */
  ghost function Taken(table: seq<Byte>, s: seq<Text>, k: nat): set<nat>
    requires k <= |s| && AllIn(table, s)
  {
    if k == 0 then {0} else Taken(table, s, k - 1) + RootSpan(table, s, k - 1)
  }

  /** A table in which `s` can be counted out. */
  ghost predicate Counts(table: seq<Byte>, s: seq<Text>) {
    HoldsAll(table, s) && AllIn(table, s) && Terminated(s) && SomeText(s)
  }

  lemma {:induction false} TakenBelongs(table: seq<Byte>, s: seq<Text>, k: nat, x: nat)
    requires k <= |s| && AllIn(table, s) && x in Taken(table, s, k) && x != 0
    ensures exists i: nat :: i < k && x in RootSpan(table, s, i)
  {
    if x in Taken(table, s, k - 1) {
      TakenBelongs(table, s, k - 1, x);
    } else {
      assert x in RootSpan(table, s, k - 1);
    }
  }

  lemma SpansApart(table: seq<Byte>, s: seq<Text>, i: nat, k: nat)
    requires Counts(table, s) && i < k < |s|
    ensures RootSpan(table, s, i) !! RootSpan(table, s, k)
  {
    if Root(s, i) && Root(s, k) {
      assert s[i] in s && s[k] in s && !Suffix(s[i], s[k]) && !Suffix(s[k], s[i]);
      Apart(table, Place(table, s[i]), s[i], Place(table, s[k]), s[k]);
    }
  }

  lemma TakenApart(table: seq<Byte>, s: seq<Text>, k: nat)
    requires Counts(table, s) && k < |s|
    ensures Taken(table, s, k) !! RootSpan(table, s, k)
  {
    forall x | x in Taken(table, s, k) ensures x !in RootSpan(table, s, k) {
      if x == 0 {
        NotAtZero(table, s, k);
      } else {
        TakenBelongs(table, s, k, x);
        var i: nat :| i < k && x in RootSpan(table, s, i);
        SpansApart(table, s, i, k);
      }
    }
  }

  lemma {:induction false} TakenCount(table: seq<Byte>, s: seq<Text>, k: nat)
    requires k <= |s| && Counts(table, s)
    ensures |Taken(table, s, k)| == 1 + RootBytes(s, k)
  {
    if k > 0 {
      TakenCount(table, s, k - 1);
      TakenApart(table, s, k - 1);
      SpanWithin(table, s, k - 1);
      UnionCount(Taken(table, s, k - 1), RootSpan(table, s, k - 1));
    }
  }

  lemma TakenWithin(table: seq<Byte>, s: seq<Text>)
    requires Counts(table, s)
    ensures forall x <- Taken(table, s, |s|) :: x < |table|
  {
    forall x <- Taken(table, s, |s|) ensures x < |table| {
      if x != 0 {
        TakenBelongs(table, s, |s|, x);
        var i: nat :| i < |s| && x in RootSpan(table, s, i);
        SpanWithin(table, s, i);
      }
    }
  }

  lemma UnionCount(a: set<nat>, b: set<nat>)
    requires a !! b
    ensures |a + b| == |a| + |b|
  {
  }

  lemma SpanWithin(table: seq<Byte>, s: seq<Text>, i: nat)
    requires i < |s| && Contains(table, s[i])
    ensures forall x <- RootSpan(table, s, i) :: x < |table|
    ensures |RootSpan(table, s, i)| == if Root(s, i) then |s[i]| + 1 else 0
  {
    assert StringAt(table, Place(table, s[i]), s[i]);
    SpanCount(Place(table, s[i]), |s[i]|);
  }

  /** A root is not empty, so it does not start at the zero byte. */
  lemma NotAtZero(table: seq<Byte>, s: seq<Text>, i: nat)
    requires i < |s| && Counts(table, s)
    ensures Root(s, i) ==> Place(table, s[i]) > 0
  {
    var j :| 0 <= j < |s| && s[j] != [];
    assert s[i] in s && Suffix([], s[j]);
    if s[i] != [] && Place(table, s[i]) == 0 { NulInside(table, 0, s[i], 0); }
  }

  /** No table that holds all values is shorter, provided one of them is not empty. */
  lemma NoneShorter(values: seq<Text>, table: seq<Byte>)
    requires HoldsAll(table, values) && Terminated(values) && SomeText(values)
    ensures |table| >= 1 + RootBytes(Sorted(values), |Sorted(values)|)
  {
    var s := Sorted(values);
    forall i | 0 <= i < |s| ensures Contains(table, s[i]) { assert s[i] in values; }
    var i :| 0 <= i < |values| && values[i] != [];
    assert values[i] in s;
    TakenCount(table, s, |s|);
    TakenWithin(table, s);
    Within(Taken(table, s, |s|), |table|);
  }

  lemma {:induction false} Within(numbers: set<nat>, end: nat)
    requires forall x <- numbers :: x < end
    ensures |numbers| <= end
  {
    if end > 0 {
      var last: nat := end - 1;
      Within(numbers - {last}, last);
    }
  }

  // ----- The rebuilt section

  /** What the section ends up as: every value reads back at its 32-bit offset, and the table is padded to the old
      size. */
  ghost predicate Rebuilt(section: seq<Byte>, offsets: map<Text, nat>, values: seq<Text>, size: nat) {
    |section| == size && section != [] && section[0] == 0 && forall v <- values ::
      v in offsets
      && ReadCStr(section, offsets[v]) == v
  }

  /** Rebuilding in place fails only when the section is too small, and then no table of these values fits it
      (only the single empty value costs a byte more than it needs). */
  method Rebuild(values: seq<Text>, size: nat) returns (section: Result<seq<Byte>>, offsets: map<Text, nat>)
    requires Terminated(values) && size < WORD32
    ensures section.Ok? ==> Rebuilt(section.value, offsets, values, size)
    ensures section.Err? && SomeText(values) ==> forall table :: HoldsAll(table, values) ==> |table| > size
  {
    var table;
    table, offsets := BuildTable(values);
    if |table| > size {
      forall other | HoldsAll(other, values) && SomeText(values) ensures |other| > size { NoneShorter(values, other); }
      return Err(OutOfBounds), offsets;
    }
    section := Ok(table + seq(size - |table|, _ => 0));
    forall v <- values ensures v in offsets && ReadCStr(section.value, offsets[v]) == v {
      var i: nat :| i < |Sorted(values)| && Sorted(values)[i] == v;
      assert LaidAt(table, offsets, Sorted(values), i);
      StringReads(section.value, offsets[v], v);
    }
  }

  lemma FirstNotEmpty(s: seq<Text>)
    requires Descending(s) && |s| > 1
    ensures s[0] != []
  {
    assert Above(s[0], s[1]);
  }

  /** The built table is as short as any exactly when not all values are empty, or there are none. */
  lemma ShortestUnlessOnlyEmpty(values: seq<Text>, table: seq<Byte>, offsets: map<Text, nat>)
    requires Terminated(values) && Laid(table, offsets, Sorted(values), |Sorted(values)|)
    ensures (forall other :: HoldsAll(other, values) ==> |other| >= |table|) <==> values == [] || SomeText(values)
  {
    if SomeText(values) {
      forall other | HoldsAll(other, values) ensures |other| >= |table| { NoneShorter(values, other); }
    } else if values != [] {
      var s := Sorted(values);
      forall v <- values ensures v == [] { var i :| 0 <= i < |values| && values[i] == v; }
      assert values[0] in s;
      assert s[0] in values;
      if |s| > 1 { FirstNotEmpty(s); }
      assert Root(s, 0) && RootBytes(s, 1) == 1;
      var zero: seq<Byte> := [0];
      forall v <- values ensures Contains(zero, v) {
        assert StringAt(zero, 0, v);
      }
      assert zero[0] == 0 && HoldsAll(zero, values);
      assert |table| == 2 && |zero| == 1;
    }
  }
}
