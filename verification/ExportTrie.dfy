/** The radix trie of Mach-O exports: what inserting a name does to it. */
module ExportTrie {
  import opened Wrappers
  import opened Uleb128

  datatype Export = Export(name: seq<Byte>, flags: nat, address: nat, other: nat, importName: seq<Byte>)

  datatype Trie = Trie(entry: Option<Export>, branches: seq<Branch>)
  datatype Branch = Branch(text: seq<Byte>, child: Trie)

  const LEAF := Trie(None, [])

  /** How many leading bytes two names share. */
  function Common(a: seq<Byte>, b: seq<Byte>): (n: nat)
    ensures n <= |a| && n <= |b| && a[..n] == b[..n]
    ensures n < |a| && n < |b| ==> a[n] != b[n]
  {
    if a == [] || b == [] || a[0] != b[0] then 0 else 1 + Common(a[1..], b[1..])
  }

  /** The first branch from `k` on that shares a byte with `rest`, or the number of branches. */
  function Follow(branches: seq<Branch>, rest: seq<Byte>, k: nat := 0): (i: nat)
    requires k <= |branches|
    ensures k <= i <= |branches|
    ensures i < |branches| ==> Common(branches[i].text, rest) > 0
    ensures forall j :: k <= j < i ==> Common(branches[j].text, rest) == 0
    decreases |branches| - k
  {
    if k == |branches| || Common(branches[k].text, rest) > 0 then k else Follow(branches, rest, k + 1)
  }

  /** A branch cut after its first `n` bytes. */
  function Split(b: Branch, n: nat): Branch
    requires n <= |b.text|
  {
    if n < |b.text| then Branch(b.text[..n], Trie(None, [Branch(b.text[n..], b.child)])) else b
  }

  function Insert(t: Trie, rest: seq<Byte>, e: Export): Result<Trie>
    decreases |rest|
  {
    if rest == [] then
      if t.entry.Some? then Err(Duplicate) else Ok(Trie(Some(e), t.branches))
    else
      var i := Follow(t.branches, rest);
      if i == |t.branches| then Ok(Trie(t.entry, t.branches + [Branch(rest, Trie(Some(e), []))]))
      else
        var n := Common(t.branches[i].text, rest);
        var cut := Split(t.branches[i], n);
        match Insert(cut.child, rest[n..], e)
        case Ok(grown) => Ok(Trie(t.entry, t.branches[i := Branch(cut.text, grown)]))
        case Err(error) => Err(error)
  }

  // ----- What a trie holds

  /** Labels are non-empty and NUL-free, and siblings differ in their first byte. */
  ghost predicate WellFormed(t: Trie)
  {
    && (forall i :: 0 <= i < |t.branches| ==> |t.branches[i].text| > 0 && 0 !in t.branches[i].text
                                              && WellFormed(t.branches[i].child))
    && (forall i, j :: 0 <= i < j < |t.branches| ==> t.branches[i].text[0] != t.branches[j].text[0])
  }

  /** The entry found by walking down `rest`. */
  ghost predicate Holds(t: Trie, rest: seq<Byte>, e: Export)
    decreases t
  {
    if rest == [] then t.entry == Some(e)
    else exists i :: 0 <= i < |t.branches| && Under(t.branches[i], rest, e)
  }

  ghost predicate Under(b: Branch, rest: seq<Byte>, e: Export)
    decreases b
  {
    0 < |b.text| <= |rest| && rest[..|b.text|] == b.text && Holds(b.child, rest[|b.text|..], e)
  }

  lemma UnderSharesFirst(b: Branch, rest: seq<Byte>, e: Export)
    requires Under(b, rest, e)
    ensures rest != [] && b.text[0] == rest[0] && Common(b.text, rest) > 0
  {
    assert b.text[0] == rest[..|b.text|][0];
  }

  /** Only the branch with the right first byte can lead anywhere. */
  lemma OneWayDown(t: Trie, rest: seq<Byte>, e: Export, i: nat)
    requires WellFormed(t) && rest != [] && i < |t.branches| && t.branches[i].text[0] == rest[0]
    ensures Holds(t, rest, e) <==> Under(t.branches[i], rest, e)
  {
    if Holds(t, rest, e) {
      var j :| 0 <= j < |t.branches| && Under(t.branches[j], rest, e);
      assert t.branches[j].text[0] == rest[..|t.branches[j].text|][0];
    }
  }

  lemma NoWayDown(t: Trie, rest: seq<Byte>, e: Export)
    requires rest != [] && forall j :: 0 <= j < |t.branches| ==> Common(t.branches[j].text, rest) == 0
    ensures !Holds(t, rest, e)
  {
    if Holds(t, rest, e) {
      var j :| 0 <= j < |t.branches| && Under(t.branches[j], rest, e);
      UnderSharesFirst(t.branches[j], rest, e);
    }
  }

  lemma SplitKeeps(b: Branch, n: nat, rest: seq<Byte>, e: Export)
    requires 0 < n <= |b.text|
    ensures Under(Split(b, n), rest, e) <==> Under(b, rest, e)
  {
    if n < |b.text| {
      var low, m := b.text[n..], |b.text|;
      var middle := Trie(None, [Branch(low, b.child)]);
      if Under(b, rest, e) {
        assert rest[..n] == b.text[..n];
        assert rest[n..][..|low|] == low && rest[n..][|low|..] == rest[m..];
        assert Under(middle.branches[0], rest[n..], e);
      }
      if Under(Split(b, n), rest, e) {
        var r := rest[n..];
        assert Holds(middle, r, e);
        assert r != [];
        var i :| 0 <= i < |middle.branches| && Under(middle.branches[i], r, e);
        assert rest[..m] == rest[..n] + r[..|low|] && b.text == b.text[..n] + low;
        assert r[|low|..] == rest[m..];
      }
    }
  }

  lemma SplitWellFormed(b: Branch, n: nat)
    requires 0 < n <= |b.text| && 0 !in b.text && WellFormed(b.child)
    ensures WellFormed(Split(b, n).child) && 0 !in Split(b, n).text && Split(b, n).text == b.text[..n]
  {
  }

  ghost predicate Taken(t: Trie, rest: seq<Byte>) { exists x :: Holds(t, rest, x) }

  /** `grown` holds what `t` holds, and `e` at the end of `rest`. */
  ghost predicate Adds(t: Trie, grown: Trie, rest: seq<Byte>, e: Export) {
    WellFormed(grown) && forall r, x :: Holds(grown, r, x) <==> Holds(t, r, x) || (r == rest && x == e)
  }

  /** Inserting fails exactly when the name is taken; otherwise it adds that one entry and keeps the trie well
      formed. */
  lemma {:induction false} InsertAdds(t: Trie, rest: seq<Byte>, e: Export)
    requires WellFormed(t) && 0 !in rest
    ensures Insert(t, rest, e).Err? <==> Taken(t, rest)
    ensures Insert(t, rest, e).Ok? ==> Adds(t, Insert(t, rest, e).value, rest, e)
    decreases |rest|
  {
    if rest == [] {
      assert t.entry.Some? ==> Holds(t, rest, t.entry.value);
    } else {
      var i := Follow(t.branches, rest);
      if i == |t.branches| {
        InsertNew(t, rest, e);
      } else {
        var n := Common(t.branches[i].text, rest);
        var cut := Split(t.branches[i], n);
        SplitWellFormed(t.branches[i], n);
        InsertAdds(cut.child, rest[n..], e);
        TakenBelow(t, rest, i);
        if Insert(cut.child, rest[n..], e).Ok? { AddsBelow(t, rest, e, i, Insert(cut.child, rest[n..], e).value); }
      }
    }
  }

  lemma InsertNew(t: Trie, rest: seq<Byte>, e: Export)
    requires WellFormed(t) && 0 !in rest && rest != [] && Follow(t.branches, rest) == |t.branches|
    ensures !Taken(t, rest)
    ensures Adds(t, Trie(t.entry, t.branches + [Branch(rest, Trie(Some(e), []))]), rest, e)
  {
    forall x ensures !Holds(t, rest, x) { NoWayDown(t, rest, x); }
    var added := Branch(rest, Trie(Some(e), []));
    var grown := Trie(t.entry, t.branches + [added]);
    forall i, j | 0 <= i < j < |grown.branches| ensures grown.branches[i].text[0] != grown.branches[j].text[0] {
      if j == |t.branches| { assert Common(t.branches[i].text, rest) == 0; }
    }
    forall r, x ensures Holds(grown, r, x) <==> Holds(t, r, x) || (r == rest && x == e) {
      if r != [] {
        NewBranchHolds(rest, e, r, x);
        if Holds(t, r, x) {
          var i :| 0 <= i < |t.branches| && Under(t.branches[i], r, x);
          assert Under(grown.branches[i], r, x);
        }
        if r == rest && x == e { assert Under(grown.branches[|t.branches|], r, x); }
        if Holds(grown, r, x) {
          var i :| 0 <= i < |grown.branches| && Under(grown.branches[i], r, x);
          if i < |t.branches| { assert Under(t.branches[i], r, x); }
        }
      }
    }
  }

  lemma NewBranchHolds(rest: seq<Byte>, e: Export, r: seq<Byte>, x: Export)
    requires rest != []
    ensures Under(Branch(rest, Trie(Some(e), [])), r, x) <==> r == rest && x == e
  {
    if |r| >= |rest| && r[..|rest|] == rest { assert r == rest + r[|rest|..]; }
  }

  lemma TakenBelow(t: Trie, rest: seq<Byte>, i: nat)
    requires WellFormed(t) && rest != [] && i == Follow(t.branches, rest) && i < |t.branches|
    ensures var n := Common(t.branches[i].text, rest);
            Taken(t, rest) <==> Taken(Split(t.branches[i], n).child, rest[n..])
  {
    var b := t.branches[i];
    var n := Common(b.text, rest);
    var cut := Split(b, n);
    assert cut.text == rest[..n] && b.text[0] == b.text[..n][0] == rest[0];
    forall x ensures Holds(t, rest, x) <==> Holds(cut.child, rest[n..], x) {
      OneWayDown(t, rest, x, i);
      SplitKeeps(b, n, rest, x);
    }
  }

  lemma AddsBelow(t: Trie, rest: seq<Byte>, e: Export, i: nat, below: Trie)
    requires WellFormed(t) && rest != [] && i == Follow(t.branches, rest) && i < |t.branches|
    requires var n := Common(t.branches[i].text, rest); Adds(Split(t.branches[i], n).child, below, rest[n..], e)
    ensures var cut := Split(t.branches[i], Common(t.branches[i].text, rest));
            Adds(t, Trie(t.entry, t.branches[i := Branch(cut.text, below)]), rest, e)
  {
    var b := t.branches[i];
    var n := Common(b.text, rest);
    var cut := Split(b, n);
    SplitWellFormed(b, n);
    var grown := Trie(t.entry, t.branches[i := Branch(cut.text, below)]);
    assert forall j :: 0 <= j < |t.branches| ==> grown.branches[j].text[0] == t.branches[j].text[0];
    forall r, x ensures Holds(grown, r, x) <==> Holds(t, r, x) || (r == rest && x == e) {
      GrownBelow(t, grown, rest, e, i, r, x);
    }
  }

  lemma GrownBelow(t: Trie, grown: Trie, rest: seq<Byte>, e: Export, i: nat, r: seq<Byte>, x: Export)
    requires WellFormed(t) && WellFormed(grown) && rest != [] && i < |t.branches| && |grown.branches| == |t.branches|
             && grown.entry == t.entry
    requires var n := Common(t.branches[i].text, rest);
             var cut := Split(t.branches[i], n);
             && n > 0 && grown.branches[i].text == cut.text
             && (forall s :: Holds(grown.branches[i].child, s, x) <==>
                 Holds(cut.child, s, x) || (s == rest[n..] && x == e))
    requires forall j :: 0 <= j < |t.branches| && j != i ==> grown.branches[j] == t.branches[j]
    ensures Holds(grown, r, x) <==> Holds(t, r, x) || (r == rest && x == e)
  {
    var b := t.branches[i];
    var n := Common(b.text, rest);
    var cut := Split(b, n);
    assert cut.text == rest[..n] == b.text[..n] && |cut.text| == n;
    if r != [] {
      if r[0] == rest[0] {
        OneWayDown(t, r, x, i);
        OneWayDown(grown, r, x, i);
        SplitKeeps(b, n, r, x);
        assert rest == rest[..n] + rest[n..];
        if |r| >= n && r[..n] == rest[..n] {
          assert r == r[..n] + r[n..];
          assert Under(cut, r, x) <==> Holds(cut.child, r[n..], x);
          assert Under(grown.branches[i], r, x) <==> Holds(grown.branches[i].child, r[n..], x);
        } else {
          assert r != rest && !Under(cut, r, x) && !Under(grown.branches[i], r, x);
        }
      } else {
        forall j | 0 <= j < |t.branches| ensures Under(t.branches[j], r, x) <==> Under(grown.branches[j], r, x) {
          if j == i {
            assert b.text[0] == rest[0] == cut.text[0];
            if Under(b, r, x) { UnderSharesFirst(b, r, x); }
            if Under(grown.branches[i], r, x) { UnderSharesFirst(grown.branches[i], r, x); }
          }
        }
      }
    }
  }
}
