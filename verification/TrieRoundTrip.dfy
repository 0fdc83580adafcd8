/** Building a trie from exports and reading it back. */
module TrieRoundTrip {
  import opened Wrappers
  import opened Uleb128
  import opened ExportTrie
  import opened TrieLayout
  import opened TrieParser

  // ----- Inserting all exports

  function InsertAll(t: Trie, exports: seq<Export>): Result<Trie>
    decreases |exports|
  {
    if exports == [] then Ok(t)
    else
      match Insert(t, exports[0].name, exports[0])
      case Ok(grown) => InsertAll(grown, exports[1..])
      case Err(e) => Err(e)
  }

  /** What an export reads back as, under its own name. */
  function KeptAll(exports: seq<Export>): (kept: seq<Export>)
    ensures |kept| == |exports| && forall i :: 0 <= i < |exports| ==> kept[i] == Kept(exports[i], exports[i].name)
  {
    if exports == [] then [] else [Kept(exports[0], exports[0].name)] + KeptAll(exports[1..])
  }

  /** The branches before and after one of them are read around it. */
  lemma {:induction false} ReadAllSplits(a: seq<Branch>, b: seq<Branch>, prefix: seq<Byte>)
    ensures ReadAll(a + b, prefix) == ReadAll(a, prefix) + ReadAll(b, prefix)
  {
    if a == [] {
      assert a + b == b;
    } else {
      assert (a + b)[1..] == a[1..] + b;
      ReadAllSplits(a[1..], b, prefix);
    }
  }

  lemma ReadAllOne(b: Branch, prefix: seq<Byte>)
    ensures ReadAll([b], prefix) == Read(b.child, prefix + b.text)
  {
    assert [b][1..] == [];
  }

  lemma ReadAllAround(branches: seq<Branch>, i: nat, b: Branch, prefix: seq<Byte>)
    requires i < |branches|
    ensures ReadAll(branches[i := b], prefix) == ReadAll(branches[..i], prefix) + Read(b.child, prefix + b.text)
            + ReadAll(branches[i + 1..], prefix)
  {
    assert branches[i := b] == branches[..i] + ([b] + branches[i + 1..]);
    ReadAllSplits(branches[..i], [b] + branches[i + 1..], prefix);
    ReadAllSplits([b], branches[i + 1..], prefix);
    ReadAllOne(b, prefix);
  }

  lemma SplitReads(b: Branch, n: nat, prefix: seq<Byte>)
    requires n <= |b.text|
    ensures Read(Split(b, n).child, prefix + Split(b, n).text) == Read(b.child, prefix + b.text)
  {
    if n < |b.text| {
      var low := Branch(b.text[n..], b.child);
      ReadAllOne(low, prefix + b.text[..n]);
      assert prefix + b.text[..n] + low.text == prefix + b.text;
    }
  }

  /** `after` is `before` with one more export somewhere. */
  ghost predicate OneMore(before: seq<Export>, after: seq<Export>, e: Export) {
    multiset(after) == multiset(before) + multiset{e}
  }

  lemma OneMoreBetween(a: seq<Export>, before: seq<Export>, after: seq<Export>, b: seq<Export>, e: Export)
    requires OneMore(before, after, e)
    ensures OneMore(a + before + b, a + after + b, e)
  {
  }

  /** Inserting adds the new export to what is read, and nothing else. */
  lemma {:induction false} InsertReads(t: Trie, rest: seq<Byte>, e: Export, prefix: seq<Byte>)
    requires Insert(t, rest, e).Ok?
    ensures OneMore(Read(t, prefix), Read(Insert(t, rest, e).value, prefix), Kept(e, prefix + rest))
    decreases |rest|
  {
    if rest == [] {
      assert prefix + rest == prefix
          && Found(None, prefix) + ReadAll(t.branches, prefix) == ReadAll(t.branches, prefix);
    } else {
      var i := Follow(t.branches, rest);
      if i == |t.branches| {
        LeafReads(t, rest, e, prefix);
      } else {
        var n := Common(t.branches[i].text, rest);
        var cut := Split(t.branches[i], n);
        InsertReads(cut.child, rest[n..], e, prefix + cut.text);
        assert prefix + cut.text + rest[n..] == prefix + rest;
        BranchReads(t, i, n, Insert(cut.child, rest[n..], e).value, prefix, Kept(e, prefix + rest));
      }
    }
  }

  lemma LeafReads(t: Trie, rest: seq<Byte>, e: Export, prefix: seq<Byte>)
    ensures OneMore(Read(t, prefix), Read(Trie(t.entry, t.branches + [Branch(rest, Trie(Some(e), []))]), prefix),
                    Kept(e, prefix + rest))
  {
    var leaf := Branch(rest, Trie(Some(e), []));
    ReadAllSplits(t.branches, [leaf], prefix);
    ReadAllOne(leaf, prefix);
    assert Read(leaf.child, prefix + rest) == [Kept(e, prefix + rest)];
  }

  /** One more export below branch `i`, cut after `n` bytes, is one more export of the trie. */
  lemma BranchReads(t: Trie, i: nat, n: nat, grown: Trie, prefix: seq<Byte>, e: Export)
    requires i < |t.branches| && n <= |t.branches[i].text|
    requires var cut := Split(t.branches[i], n);
             OneMore(Read(cut.child, prefix + cut.text), Read(grown, prefix + cut.text), e)
    ensures OneMore(Read(t, prefix),
                    Read(Trie(t.entry, t.branches[i := Branch(Split(t.branches[i], n).text, grown)]), prefix), e)
  {
    var cut := Split(t.branches[i], n);
    var before := BranchAround(t, i, t.branches[i], prefix);
    var after := BranchAround(t, i, Branch(cut.text, grown), prefix);
    assert t.branches[i := t.branches[i]] == t.branches;
    SplitReads(t.branches[i], n, prefix);
    OneMoreBetween(before.0, Read(cut.child, prefix + cut.text), Read(grown, prefix + cut.text), before.1, e);
  }

  /** What is read around branch `i`, whatever that branch is. */
  lemma BranchAround(t: Trie, i: nat, b: Branch, prefix: seq<Byte>) returns (around: (seq<Export>, seq<Export>))
    requires i < |t.branches|
    ensures around == (Found(t.entry, prefix) + ReadAll(t.branches[..i], prefix), ReadAll(t.branches[i + 1..], prefix))
    ensures Read(Trie(t.entry, t.branches[i := b]), prefix) == around.0 + Read(b.child, prefix + b.text) + around.1
  {
    ReadAllAround(t.branches, i, b, prefix);
    around := (Found(t.entry, prefix) + ReadAll(t.branches[..i], prefix), ReadAll(t.branches[i + 1..], prefix));
  }

  lemma {:induction false} InsertAllReads(t: Trie, exports: seq<Export>)
    requires InsertAll(t, exports).Ok?
    ensures multiset(Read(InsertAll(t, exports).value, [])) == multiset(Read(t, [])) + multiset(KeptAll(exports))
    decreases |exports|
  {
    if exports != [] {
      var e := exports[0];
      InsertReads(t, e.name, e, []);
      assert [] + e.name == e.name;
      InsertAllReads(Insert(t, e.name, e).value, exports[1..]);
    }
  }

  // ----- Which lists can be built

  ghost predicate NamesTerminated(exports: seq<Export>) { forall e <- exports :: 0 !in e.name }

  ghost predicate DistinctNames(exports: seq<Export>) {
    forall i, j :: 0 <= i < j < |exports| ==> exports[i].name != exports[j].name
  }

  ghost predicate NoneTaken(t: Trie, exports: seq<Export>) {
    forall i :: 0 <= i < |exports| ==> !Taken(t, exports[i].name)
  }

  /** Inserting a list succeeds exactly when its names are new and pairwise distinct. */
  lemma {:induction false} InsertAllSucceeds(t: Trie, exports: seq<Export>)
    requires WellFormed(t) && NamesTerminated(exports)
    ensures InsertAll(t, exports).Ok? <==> NoneTaken(t, exports) && DistinctNames(exports)
    ensures InsertAll(t, exports).Ok? ==> WellFormed(InsertAll(t, exports).value)
    ensures InsertAll(t, exports).Err? ==> InsertAll(t, exports).error == Duplicate
    decreases |exports|
  {
    if exports != [] {
      var e, rest := exports[0], exports[1..];
      InsertAdds(t, e.name, e);
      InsertOnlyDuplicate(t, e.name, e);
      var first := Insert(t, e.name, e);
      if first.Ok? {
        InsertAllSucceeds(first.value, rest);
        FirstOfDistinct(t, first.value, exports);
      }
    }
  }

  lemma FirstOfDistinct(t: Trie, grown: Trie, exports: seq<Export>)
    requires exports != [] && Adds(t, grown, exports[0].name, exports[0]) && !Taken(t, exports[0].name)
    ensures NoneTaken(t, exports) && DistinctNames(exports) <==>
            NoneTaken(grown, exports[1..]) && DistinctNames(exports[1..])
  {
    var e, rest := exports[0], exports[1..];
    assert Holds(grown, e.name, e);
    forall i | 0 <= i < |rest| ensures Taken(grown, rest[i].name) <==>
        Taken(t, exports[i + 1].name) || rest[i].name == e.name {
      assert rest[i] == exports[i + 1];
    }
    if NoneTaken(grown, rest) && DistinctNames(rest) {
      forall i, j | 0 <= i < j < |exports| ensures exports[i].name != exports[j].name {
        assert exports[j] == rest[j - 1];
        if i > 0 { assert exports[i] == rest[i - 1]; }
      }
    }
  }

  lemma {:induction false} InsertOnlyDuplicate(t: Trie, rest: seq<Byte>, e: Export)
    ensures Insert(t, rest, e).Err? ==> Insert(t, rest, e).error == Duplicate
    decreases |rest|
  {
    if rest != [] {
      var i := Follow(t.branches, rest);
      if i < |t.branches| {
        var n := Common(t.branches[i].text, rest);
        InsertOnlyDuplicate(Split(t.branches[i], n).child, rest[n..], e);
      }
    }
  }

  /** Reading back gives the very export exactly when it has nothing its flags do not call for and its import name has
      no NUL. */
  lemma KeptIsSame(e: Export)
    ensures Kept(e, e.name) == e <==>
            if IsReexport(e.flags) then e.address == 0 && 0 !in e.importName
            else e.importName == [] && (HasResolver(e.flags) || e.other == 0)
  {
    CutSame(e.importName);
  }

  lemma {:induction false} CutSame(text: seq<Byte>)
    ensures CutAtNul(text) == text <==> 0 !in text
  {
    if text != [] && text[0] != 0 {
      CutSame(text[1..]);
      assert text == [text[0]] + text[1..];
      assert 0 in text <==> 0 in text[1..];
    }
  }

  // ----- How large a trie can get

  /** What an entry takes in its node. */
  function EntrySize(entry: Option<Export>): nat { HeadSize(Listed(entry, [])) }

  /** The most a trie can take, ten bytes to an offset, when `size` measures entries. */
  function Weight(size: Option<Export> -> nat, t: Trie): nat
    decreases t
  {
    size(t.entry) + WeightAll(size, t.branches)
  }

  function WeightAll(size: Option<Export> -> nat, branches: seq<Branch>): nat
    decreases branches
  {
    if branches == [] then 0 else |branches[0].text| + 11 + Weight(size, branches[0].child)
                                  + WeightAll(size, branches[1..])
  }

  /** A bound on the bytes of the trie of these exports. */
  function ListWeight(size: Option<Export> -> nat, exports: seq<Export>): nat
    decreases |exports|
  {
    if exports == [] then 0
    else 14 * |exports[0].name| + size(Some(exports[0])) + 11 + ListWeight(size, exports[1..])
  }

  lemma {:induction false} WeightAround(size: Option<Export> -> nat, branches: seq<Branch>, i: nat, b: Branch)
    requires i < |branches|
    ensures WeightAll(size, branches[i := b]) + |branches[i].text| + Weight(size, branches[i].child)
         == WeightAll(size, branches) + |b.text| + Weight(size, b.child)
    decreases i
  {
    if i > 0 {
      assert branches[i := b][1..] == branches[1..][i - 1 := b];
      WeightAround(size, branches[1..], i - 1, b);
    } else {
      assert branches[i := b][1..] == branches[1..];
    }
  }

  lemma {:induction false} WeightAppended(size: Option<Export> -> nat, branches: seq<Branch>, b: Branch)
    ensures WeightAll(size, branches + [b]) == WeightAll(size, branches) + |b.text| + 11 + Weight(size, b.child)
    decreases |branches|
  {
    if branches == [] {
      assert ([b])[1..] == [];
    } else {
      assert (branches + [b])[1..] == branches[1..] + [b];
      WeightAppended(size, branches[1..], b);
    }
  }

  lemma SplitWeight(size: Option<Export> -> nat, b: Branch, n: nat)
    requires n <= |b.text|
    ensures |Split(b, n).text| + Weight(size, Split(b, n).child) <= |b.text| + Weight(size, b.child) + size(None) + 11
  {
    if n < |b.text| {
      var low := [Branch(b.text[n..], b.child)];
      assert low[1..] == [];
      assert WeightAll(size, low) == |b.text| - n + 11 + Weight(size, b.child);
    }
  }

  lemma {:induction false} InsertWeight(size: Option<Export> -> nat, t: Trie, rest: seq<Byte>, e: Export)
    requires size(None) == 2 && Insert(t, rest, e).Ok?
    ensures Weight(size, Insert(t, rest, e).value) <= Weight(size, t) + 14 * |rest| + size(Some(e)) + 11
    decreases |rest|
  {
    if rest != [] {
      var i := Follow(t.branches, rest);
      if i == |t.branches| {
        WeightAppended(size, t.branches, Branch(rest, Trie(Some(e), [])));
      } else {
        var n := Common(t.branches[i].text, rest);
        var cut := Split(t.branches[i], n);
        SplitWeight(size, t.branches[i], n);
        InsertWeight(size, cut.child, rest[n..], e);
        WeightAround(size, t.branches, i, Branch(cut.text, Insert(cut.child, rest[n..], e).value));
      }
    }
  }

  lemma {:induction false} InsertAllWeight(size: Option<Export> -> nat, t: Trie, exports: seq<Export>)
    requires size(None) == 2 && InsertAll(t, exports).Ok?
    ensures Weight(size, InsertAll(t, exports).value) <= Weight(size, t) + ListWeight(size, exports)
    decreases |exports|
  {
    if exports != [] {
      InsertWeight(size, t, exports[0].name, exports[0]);
      InsertAllWeight(size, Insert(t, exports[0].name, exports[0]).value, exports[1..]);
    }
  }

  /** The cap of a list of nodes. */
  function ListCap(size: Option<Export> -> nat, order: seq<Listed>): nat
    decreases |order|
  {
    if order == [] then 0
    else
      var last := order[|order| - 1];
      ListCap(size, order[..|order| - 1]) + size(last.entry) + EdgesCap(last.edges)
  }

  lemma {:induction false} CapIsListCap(order: seq<Listed>, i: nat)
    requires i <= |order|
    ensures Cap(order, i) == ListCap(EntrySize, order[..i])
  {
    if i > 0 {
      CapIsListCap(order, i - 1);
      var front := order[..i];
      assert front[..i - 1] == order[..i - 1] && front[i - 1] == order[i - 1];
      assert MaxSizes(order)[i - 1] == EntrySize(order[i - 1].entry) + EdgesCap(order[i - 1].edges);
    }
  }

  lemma {:induction false} CapSplits(size: Option<Export> -> nat, a: seq<Listed>, b: seq<Listed>)
    ensures ListCap(size, a + b) == ListCap(size, a) + ListCap(size, b)
    decreases |b|
  {
    if b == [] {
      assert a + b == a;
    } else {
      var c := b[..|b| - 1];
      CapSplits(size, a, c);
      assert (a + b)[..|a + b| - 1] == a + c;
    }
  }

  function TextsCap(branches: seq<Branch>): nat {
    if branches == [] then 0 else |branches[0].text| + 11 + TextsCap(branches[1..])
  }

  lemma {:induction false} ChildrenCap(branches: seq<Branch>, at: nat)
    ensures EdgesCap(Children(branches, at)) == TextsCap(branches)
  {
    if branches != [] {
      var next := at + Size(branches[0].child);
      ChildrenCap(branches[1..], next);
      assert Children(branches, at)[1..] == Children(branches[1..], next);
    }
  }

  lemma {:induction false} CollectCap(size: Option<Export> -> nat, t: Trie, base: nat)
    ensures ListCap(size, Collect(t, base)) == Weight(size, t)
    decreases t
  {
    var node, below := Listed(t.entry, Children(t.branches, base + 1)), CollectAll(t.branches, base + 1);
    CapSplits(size, [node], below);
    assert [node][..0] == [];
    ChildrenCap(t.branches, base + 1);
    CollectAllCap(size, t.branches, base + 1);
  }

  lemma {:induction false} CollectAllCap(size: Option<Export> -> nat, branches: seq<Branch>, at: nat)
    ensures ListCap(size, CollectAll(branches, at)) + TextsCap(branches) == WeightAll(size, branches)
    decreases branches
  {
    if branches != [] {
      var next := at + Size(branches[0].child);
      CollectCap(size, branches[0].child, at);
      CollectAllCap(size, branches[1..], next);
      CapSplits(size, Collect(branches[0].child, at), CollectAll(branches[1..], next));
    }
  }
}
