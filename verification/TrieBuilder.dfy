/** Building the bytes of an export trie, and the round trip through the parser. */
module TrieBuilder {
  import opened Wrappers
  import opened Uleb128
  import opened ExportTrie
  import opened TrieLayout
  import opened TrieParser
  import opened TrieRoundTrip
  import opened TrieNodes

  // ----- Listed nodes can be written and read back

  ghost predicate EntriesFit(t: Trie)
    decreases t
  {
    Fits(t.entry) && forall i :: 0 <= i < |t.branches| ==> EntriesFit(t.branches[i].child)
  }

  ghost predicate AllFit(exports: seq<Export>) { forall i :: 0 <= i < |exports| ==> Fits(Some(exports[i])) }

  lemma {:induction false} InsertFits(t: Trie, rest: seq<Byte>, e: Export)
    requires EntriesFit(t) && Fits(Some(e)) && Insert(t, rest, e).Ok?
    ensures EntriesFit(Insert(t, rest, e).value)
    decreases |rest|
  {
    if rest != [] {
      var i := Follow(t.branches, rest);
      if i < |t.branches| {
        var n := Common(t.branches[i].text, rest);
        InsertFits(Split(t.branches[i], n).child, rest[n..], e);
      }
    }
  }

  lemma {:induction false} InsertAllFits(t: Trie, exports: seq<Export>)
    requires EntriesFit(t) && AllFit(exports) && InsertAll(t, exports).Ok?
    ensures EntriesFit(InsertAll(t, exports).value)
    decreases |exports|
  {
    if exports != [] {
      assert Fits(Some(exports[0]));
      InsertFits(t, exports[0].name, exports[0]);
      InsertAllFits(Insert(t, exports[0].name, exports[0]).value, exports[1..]);
    }
  }

  ghost function FirstBytes(branches: seq<Branch>, n: nat): (firsts: set<nat>)
    requires n <= |branches| && forall i :: 0 <= i < n ==> |branches[i].text| > 0
  {
    set i | 0 <= i < n :: branches[i].text[0]
  }

  lemma {:induction false} FirstBytesCount(branches: seq<Branch>, n: nat)
    requires n <= |branches| && forall i :: 0 <= i < |branches| ==> |branches[i].text| > 0
    requires forall i, j :: 0 <= i < j < |branches| ==> branches[i].text[0] != branches[j].text[0]
    ensures |FirstBytes(branches, n)| == n
  {
    if n > 0 {
      FirstBytesCount(branches, n - 1);
      assert FirstBytes(branches, n) == FirstBytes(branches, n - 1) + {branches[n - 1].text[0]};
    }
  }

  /** Siblings differ in a non-zero first byte, so no node has more than 255 children. */
  lemma FewBranches(t: Trie)
    requires WellFormed(t)
    ensures |t.branches| <= 255
  {
    var firsts := FirstBytes(t.branches, |t.branches|);
    FirstBytesCount(t.branches, |t.branches|);
    forall b: nat | b in firsts ensures 0 < b < 256 {
      var i :| 0 <= i < |t.branches| && b == t.branches[i].text[0];
      assert b in t.branches[i].text;
      assert b != 0;
    }
    Pigeonhole(firsts, 256);
  }

  lemma Pigeonhole(numbers: set<nat>, end: nat)
    requires end > 0 && forall x: nat :: x in numbers ==> 0 < x < end
    ensures |numbers| < end
  {
    PositionsCount(end);
    var zero: nat := 0;
    assert zero in Positions(end) && zero !in numbers;
    SubsetSmaller(numbers, Positions(end));
  }

  lemma {:induction false} PositionsCount(end: nat)
    ensures |Positions(end)| == end
  {
    if end > 0 { PositionsCount(end - 1); }
  }

  /** A node the writer can write and the parser can read. */
  ghost predicate Sound(node: Listed) {
    |node.edges| <= 255 && Fits(node.entry) && forall k :: 0 <= k < |node.edges| ==> 0 !in node.edges[k].text
  }

  lemma {:induction false} CollectSound(t: Trie, base: nat)
    requires WellFormed(t) && EntriesFit(t)
    ensures forall node <- Collect(t, base) :: Sound(node)
    decreases t
  {
    FewBranches(t);
    ChildrenAt(t.branches, base + 1);
    CollectAllSound(t.branches, base + 1);
  }

  lemma {:induction false} CollectAllSound(branches: seq<Branch>, at: nat)
    requires forall i :: 0 <= i < |branches| ==> WellFormed(branches[i].child) && EntriesFit(branches[i].child)
    ensures forall node <- CollectAll(branches, at) :: Sound(node)
    decreases branches
  {
    if branches != [] {
      CollectSound(branches[0].child, at);
      CollectAllSound(branches[1..], at + Size(branches[0].child));
    }
  }

  /** A list that can be laid out and written. */
  ghost predicate Ready(order: seq<Listed>) { Forward(order, 0, |order|) && AllPlaced(order) && FewEdges(order) }

  lemma CollectReady(t: Trie)
    requires WellFormed(t) && EntriesFit(t)
    ensures Ready(Collect(t, 0))
  {
    CollectForward(t, 0);
    CollectSound(t, 0);
    var order := Collect(t, 0);
    forall i | 0 <= i < |order| ensures |order[i].edges| <= 255 { assert Sound(order[i]); }
  }

  // ----- From a consistent layout to an image

  lemma {:induction false} ConcatAt(parts: seq<seq<Byte>>, n: nat, i: nat)
    requires i < n <= |parts|
    ensures At(Concat(parts, n), |Concat(parts, i)|, parts[i])
  {
    if i < n - 1 {
      ConcatAt(parts, n - 1, i);
      AtExtends(Concat(parts, n - 1), parts[n - 1], |Concat(parts, i)|, parts[i]);
    } else {
      AtEnd(Concat(parts, i), parts[i]);
    }
  }

  lemma EmitAt(order: seq<Listed>, offsets: seq<nat>, i: nat)
    requires AllPlaced(order) && FewEdges(order) && |offsets| == |order| && i < |order|
    ensures At(Emit(order, offsets, |order|), |Emit(order, offsets, i)|, Nodes(order, offsets)[i])
  {
    ConcatAt(Nodes(order, offsets), |order|, i);
  }

  lemma AtExtends(data: seq<Byte>, more: seq<Byte>, cursor: nat, bytes: seq<Byte>)
    requires At(data, cursor, bytes)
    ensures At(data + more, cursor, bytes)
  {
  }

  lemma AtEnd(data: seq<Byte>, bytes: seq<Byte>)
    ensures At(data + bytes, |data|, bytes)
  {
  }

  ghost predicate AllSound(order: seq<Listed>) { forall i :: 0 <= i < |order| ==> Sound(order[i]) }

  /** The bytes that `Build` makes of a layout. */
  ghost function Built(order: seq<Listed>, offsets: seq<nat>): seq<Byte>
    requires AllPlaced(order) && FewEdges(order) && |offsets| == |order|
  {
    Emit(order, offsets, |order|) + Padding(|Emit(order, offsets, |order|)|)
  }

  lemma PaddedFits(n: nat)
    requires n < WORD_LIMIT
    ensures n + |Padding(n)| <= WORD_LIMIT
  {
  }

  /** Written at consistent offsets, every node reads back. */
  lemma BuiltReads(order: seq<Listed>, offsets: seq<nat>)
    requires AllPlaced(order) && FewEdges(order) && ConsistentLayout(order, offsets) && AllSound(order)
    requires Start(order, offsets, |order|) < WORD_LIMIT
    ensures Image(Built(order, offsets), order, offsets)
  {
    var data := Built(order, offsets);
    var written := Emit(order, offsets, |order|);
    PaddedFits(|written|);
    forall i: nat | i < |order| ensures offsets[i] < WORD_LIMIT { OffsetsRise(order, offsets, i); }
    forall i: nat | i < |order| ensures NodeRead(data, order, offsets, i) {
      OffsetsRise(order, offsets, i);
      EmitAt(order, offsets, i);
      AtExtends(written, Padding(|written|), offsets[i], NodeBytes(order[i], offsets));
      assert Sound(order[i]);
      NodeReadsBack(data, offsets[i], order[i], offsets);
    }
  }

  lemma OffsetsRise(order: seq<Listed>, offsets: seq<nat>, i: nat)
    requires AllPlaced(order) && ConsistentLayout(order, offsets) && i < |order|
    ensures offsets[i] < Mark(offsets, Start(order, offsets, |order|), i + 1) <= Start(order, offsets, |order|)
  {
    SumGrows(Sizes(order, offsets), i + 1, |order|);
    assert Start(order, offsets, i + 1) == Start(order, offsets, i) + NodeSize(order[i], offsets);
  }

  /** A trie laid out consistently parses to its exports, wherever its bytes stand. */
  lemma BuiltParses(t: Trie, offsets: seq<nat>, binary: seq<Byte>, at: nat)
    requires WellFormed(t) && EntriesFit(t)
    requires var order := Collect(t, 0);
             && AllPlaced(order) && FewEdges(order) && ConsistentLayout(order, offsets)
             && Start(order, offsets, |order|) < WORD_LIMIT
             && at + |Built(order, offsets)| <= |binary|
             && binary[at..at + |Built(order, offsets)|] == Built(order, offsets)
    ensures ParseTrie(binary, at, |Built(Collect(t, 0), offsets)|) == Ok(Read(t, []))
  {
    var order := Collect(t, 0);
    CollectSound(t, 0);
    BuiltReads(order, offsets);
    assert Stands(order, 0, order);
    var seen := ParsesNode(Built(order, offsets), order, offsets, t, 0, [], {});
  }

  // ----- The builder

  method InsertExports(exports: seq<Export>) returns (ok: bool, root: Node)
    ensures ok <==> InsertAll(LEAF, exports).Ok?
    ensures ok ==> root.Valid() && root.trie == InsertAll(LEAF, exports).value
  {
    root := new Node(None);
    for i := 0 to |exports|
      invariant root.Valid() && fresh(root.repr) && InsertAll(root.trie, exports[i..]) == InsertAll(LEAF, exports)
    {
      assert exports[i..][1..] == exports[i + 1..];
      ok := root.Insert(exports[i].name, exports[i]);
      if !ok { return false, root; }
    }
    ok := true;
  }

  /** The bytes of a trie. Neither the layout check nor the child count ever refuses. */
  method Build(root: Node) returns (result: Result<seq<Byte>>, ghost offsets: seq<nat>)
    requires root.Valid() && WellFormed(root.trie) && EntriesFit(root.trie) && Roomy(root.trie)
    ensures LeastLayout(root.trie, offsets) && result == Ok(Built(Collect(root.trie, 0), offsets))
  {
    CollectReady(root.trie);
    var order := root.Preorder(0);
    var layout := Layout(order);
    offsets := layout[..];
    LayoutIsLeast(root.trie, offsets);
    var nodes := WriteNodes(order, layout);
    if nodes.Err? { return nodes, offsets; }
    var out := Pad(nodes.value);
    result := Ok(out);
  }

  /** No layout of this trie comes near 2^64 bytes. */
  ghost predicate Roomy(t: Trie) { Cap(Collect(t, 0), |Collect(t, 0)|) < WORD_LIMIT }

  /** The least layout consistent with itself. */
  ghost predicate LeastLayout(t: Trie, offsets: seq<nat>) {
    var order := Collect(t, 0);
    && Ready(order) && ConsistentLayout(order, offsets) && Start(order, offsets, |order|) < WORD_LIMIT
    && (forall other :: ConsistentLayout(order, other) ==> Below(offsets, other))
  }

  lemma LayoutIsLeast(t: Trie, offsets: seq<nat>)
    requires Roomy(t) && Ready(Collect(t, 0)) && ConsistentLayout(Collect(t, 0), offsets)
    requires forall other :: ConsistentLayout(Collect(t, 0), other) ==> Below(offsets, other)
    requires forall i :: 0 <= i < |offsets| ==> offsets[i] < WORD_LIMIT
    ensures LeastLayout(t, offsets)
  {
    StartWithinCap(Collect(t, 0), offsets, |offsets|);
  }

  method WriteNodes(order: seq<Listed>, layout: array<nat>) returns (result: Result<seq<Byte>>)
    requires Ready(order) && ConsistentLayout(order, layout[..])
    ensures result == Ok(Emit(order, layout[..], |order|))
  {
    var out: seq<Byte> := [];
    ghost var offsets := layout[..];
    ghost var nodes := Nodes(order, offsets);
    for i := 0 to |order|
      invariant out == Concat(nodes, i)
    {
      PartStep(order, offsets, nodes, i);
      if |out| != layout[i] { return Err(LayoutMismatch); }
      if |order[i].edges| > 255 { return Err(TooManyChildren); }
      var node := WriteListed(order, i, layout, nodes);
      out := out + node;
    }
    result := Ok(out);
  }

  lemma PartStep(order: seq<Listed>, offsets: seq<nat>, nodes: seq<seq<Byte>>, i: nat)
    requires Ready(order) && ConsistentLayout(order, offsets) && i < |order| && nodes == Nodes(order, offsets)
    ensures |Concat(nodes, i)| == offsets[i] && |order[i].edges| <= 255
    ensures Concat(nodes, i + 1) == Concat(nodes, i) + nodes[i]
  {
    assert |Emit(order, offsets, i)| == offsets[i];
  }

  method WriteListed(order: seq<Listed>, i: nat, layout: array<nat>, ghost nodes: seq<seq<Byte>>)
    returns (out: seq<Byte>)
    requires Ready(order) && layout.Length == |order| && i < |order| && nodes == Nodes(order, layout[..])
    ensures out == nodes[i]
  {
    out := WriteNode(order[i], layout);
  }

  method Pad(bytes: seq<Byte>) returns (out: seq<Byte>)
    ensures out == bytes + Padding(|bytes|)
  {
    out := bytes;
    ghost var padding := Padding(|bytes|);
    while |out| % 8 != 0
      invariant |bytes| <= |out| <= |bytes| + |padding| && out == bytes + padding[..|out| - |bytes|]
      decreases |bytes| + |padding| - |out|
    {
      assert |out| < |bytes| + |padding|;
      out := out + [0];
    }
    assert padding[..|out| - |bytes|] == padding;
  }

  method WriteNode(node: Listed, layout: array<nat>) returns (out: seq<Byte>)
    requires Places(node.edges, layout.Length) && |node.edges| <= 255
    ensures out == NodeBytes(node, layout[..])
  {
    var terminal := Terminal(node.entry);
    var head := WriteUleb([], |terminal|);
    var edges := WriteEdges(node.edges, layout);
    out := head + terminal + [|node.edges|] + edges;
  }

  method WriteEdges(edges: seq<Child>, layout: array<nat>) returns (out: seq<Byte>)
    requires Places(edges, layout.Length)
    ensures out == EdgeBytes(edges, layout[..])
  {
    out := [];
    for k := 0 to |edges|
      invariant EdgesWritten(edges, layout[..], k, out)
    {
      EdgesWrittenStep(edges, layout[..], k, out);
      out := WriteUleb(out + (edges[k].text + [0]), layout[edges[k].place]);
    }
  }

  /** The first `k` edges are written; the other ones would complete the bytes. */
  ghost predicate EdgesWritten(edges: seq<Child>, offsets: seq<nat>, k: nat, out: seq<Byte>)
    requires Places(edges, |offsets|) && k <= |edges|
  {
    out + EdgeBytes(edges[k..], offsets) == EdgeBytes(edges, offsets)
  }

  lemma EdgesWrittenStep(edges: seq<Child>, offsets: seq<nat>, k: nat, out: seq<Byte>)
    requires Places(edges, |offsets|) && k < |edges| && EdgesWritten(edges, offsets, k, out)
    ensures EdgesWritten(edges, offsets, k + 1, out + (edges[k].text + [0]) + Encode(offsets[edges[k].place]))
  {
    assert edges[k..][1..] == edges[k + 1..];
    Regroup(out, edges[k].text + [0], Encode(offsets[edges[k].place]), EdgeBytes(edges[k + 1..], offsets));
  }

  lemma Regroup(a: seq<Byte>, b: seq<Byte>, c: seq<Byte>, d: seq<Byte>)
    ensures a + (b + c + d) == a + b + c + d
  {
  }

  // ----- The round trip

  /** The trie of these exports stays below 2^64 bytes even with ten bytes to every offset. */
  predicate FitsIn64Bits(exports: seq<Export>) { 2 + ListWeight(EntrySize, exports) < WORD_LIMIT }

  lemma ExportsRoomy(exports: seq<Export>)
    requires FitsIn64Bits(exports) && InsertAll(LEAF, exports).Ok?
    ensures Roomy(InsertAll(LEAF, exports).value)
  {
    assert Weight(EntrySize, LEAF) == 2;
    InsertAllWeight(EntrySize, LEAF, exports);
    var order := Collect(InsertAll(LEAF, exports).value, 0);
    CollectCap(EntrySize, InsertAll(LEAF, exports).value, 0);
    CapIsListCap(order, |order|);
    assert order[..|order|] == order;
  }

  /** Wherever these bytes stand in an image, the parser finds exactly these exports there, in some order. */
  ghost predicate ReadsBackAs(bytes: seq<Byte>, exports: seq<Export>) {
    forall binary: seq<Byte>, at: nat :: at + |bytes| <= |binary| && binary[at..at + |bytes|] == bytes ==>
        ParsesTo(ParseTrie(binary, at, |bytes|), exports)
  }

  ghost predicate ParsesTo(parsed: Result<seq<Export>>, exports: seq<Export>) {
    parsed.Ok? && multiset(parsed.value) == multiset(KeptAll(exports))
  }

  lemma RoundTrip(exports: seq<Export>, offsets: seq<nat>)
    requires NamesTerminated(exports) && AllFit(exports) && InsertAll(LEAF, exports).Ok?
             && LeastLayout(InsertAll(LEAF, exports).value, offsets)
    requires WellFormed(InsertAll(LEAF, exports).value)
    ensures ReadsBackAs(Built(Collect(InsertAll(LEAF, exports).value, 0), offsets), exports)
  {
    var t := InsertAll(LEAF, exports).value;
    InsertAllFits(LEAF, exports);
    InsertAllReads(LEAF, exports);
    assert multiset(Read(LEAF, [])) == multiset{};
    BuiltReadsBack(t, offsets, exports);
  }

  lemma BuiltReadsBack(t: Trie, offsets: seq<nat>, exports: seq<Export>)
    requires WellFormed(t) && EntriesFit(t) && LeastLayout(t, offsets)
             && multiset(Read(t, [])) == multiset(KeptAll(exports))
    ensures ReadsBackAs(Built(Collect(t, 0), offsets), exports)
  {
    var order := Collect(t, 0);
    var bytes := Built(order, offsets);
    forall binary: seq<Byte>, at: nat | at + |bytes| <= |binary| && binary[at..at + |bytes|] == bytes
      ensures ParsesTo(ParseTrie(binary, at, |bytes|), exports)
    {
      BuiltParses(t, offsets, binary, at);
    }
  }

  lemma ExportsInsert(exports: seq<Export>)
    requires NamesTerminated(exports)
    ensures InsertAll(LEAF, exports).Ok? <==> DistinctNames(exports)
    ensures InsertAll(LEAF, exports).Ok? ==> WellFormed(InsertAll(LEAF, exports).value)
  {
    InsertAllSucceeds(LEAF, exports);
    assert NoneTaken(LEAF, exports);
  }

  /** Building refuses duplicate names and nothing else, and what it builds reads back. */
  method BuildExports(exports: seq<Export>) returns (result: Result<seq<Byte>>)
    requires NamesTerminated(exports) && AllFit(exports) && FitsIn64Bits(exports)
    ensures !DistinctNames(exports) ==> result == Err(Duplicate)
    ensures DistinctNames(exports) ==> result.Ok? && |result.value| % 8 == 0 && ReadsBackAs(result.value, exports)
  {
    ExportsInsert(exports);
    var ok, root := InsertExports(exports);
    if !ok { return Err(Duplicate); }
    InsertAllFits(LEAF, exports);
    ExportsRoomy(exports);
    ghost var offsets;
    result, offsets := Build(root);
    RoundTrip(exports, offsets);
    BuiltPadded(Collect(root.trie, 0), offsets);
  }

  lemma BuiltPadded(order: seq<Listed>, offsets: seq<nat>)
    requires AllPlaced(order) && FewEdges(order) && |offsets| == |order|
    ensures |Built(order, offsets)| % 8 == 0
  {
  }
}
