/** The bytes of a laid-out trie, and reading them back. */
module TrieParser {
  import opened Wrappers
  import opened Uleb128
  import opened ExportTrie
  import opened TrieLayout

  // ----- Writing

  function EdgeBytes(edges: seq<Child>, offsets: seq<nat>): (bytes: seq<Byte>)
    requires Places(edges, |offsets|)
    ensures |bytes| == EdgesSize(edges, offsets)
  {
    if edges == [] then []
    else edges[0].text + [0] + Encode(offsets[edges[0].place]) + EdgeBytes(edges[1..], offsets)
  }

  function NodeBytes(node: Listed, offsets: seq<nat>): (bytes: seq<Byte>)
    requires Places(node.edges, |offsets|) && |node.edges| <= 255
    ensures |bytes| == NodeSize(node, offsets)
  {
    Encode(|Terminal(node.entry)|) + Terminal(node.entry) + [|node.edges|] + EdgeBytes(node.edges, offsets)
  }

  predicate FewEdges(order: seq<Listed>) { forall i :: 0 <= i < |order| ==> |order[i].edges| <= 255 }

  function Concat(parts: seq<seq<Byte>>, n: nat): seq<Byte>
    requires n <= |parts|
  {
    if n == 0 then [] else Concat(parts, n - 1) + parts[n - 1]
  }

  function Nodes(order: seq<Listed>, offsets: seq<nat>): (nodes: seq<seq<Byte>>)
    requires AllPlaced(order) && FewEdges(order) && |offsets| == |order|
    ensures |nodes| == |order| && forall i :: 0 <= i < |order| ==> nodes[i] == NodeBytes(order[i], offsets)
  {
    seq(|order|, i requires 0 <= i < |order| => NodeBytes(order[i], offsets))
  }

  /** The first `n` nodes, one after another. */
  function Emit(order: seq<Listed>, offsets: seq<nat>, n: nat): (bytes: seq<Byte>)
    requires AllPlaced(order) && FewEdges(order) && |offsets| == |order| && n <= |order|
    ensures |bytes| == Start(order, offsets, n)
  {
    ConcatLength(Nodes(order, offsets), Sizes(order, offsets), n);
    Concat(Nodes(order, offsets), n)
  }

  lemma {:induction false} ConcatLength(parts: seq<seq<Byte>>, sizes: seq<nat>, n: nat)
    requires n <= |parts| == |sizes| && forall i :: 0 <= i < |parts| ==> |parts[i]| == sizes[i]
    ensures |Concat(parts, n)| == Sum(sizes, n)
  {
    if n > 0 { ConcatLength(parts, sizes, n - 1); }
  }

  function Padding(n: nat): (bytes: seq<Byte>)
    ensures (n + |bytes|) % 8 == 0 && |bytes| < 8 && forall i :: 0 <= i < |bytes| ==> bytes[i] == 0
  {
    seq((8 - n % 8) % 8, _ => 0)
  }

  // ----- Reading

  /** A string that was read, and the cursor after its NUL. */
  datatype Text = Text(text: seq<Byte>, next: nat) | BadText(why: Error)

  function ReadString(data: seq<Byte>, cursor: nat, end: nat): Text
    requires end <= |data|
    decreases end - cursor
  {
    if cursor >= end then BadText(Unterminated)
    else if data[cursor] == 0 then Text([], cursor + 1)
    else
      match ReadString(data, cursor + 1, end)
      case Text(text, next) => Text([data[cursor]] + text, next)
      case BadText(e) => BadText(e)
  }

  lemma ReadStringAdvances(data: seq<Byte>, cursor: nat, end: nat)
    requires end <= |data|
    ensures ReadString(data, cursor, end).Text? ==> cursor < ReadString(data, cursor, end).next <= end
    decreases end - cursor
  {
  }

  /** The export stored in the terminal bytes `data[cursor..end]`. */
  function ReadEntry(data: seq<Byte>, cursor: nat, end: nat, name: seq<Byte>): Result<Export>
    requires cursor <= end <= |data|
  {
    DecodeAdvances(data, cursor, end, 0);
    var flags := Decode(data, cursor, end);
    if flags.BadNumber? then Err(flags.why)
    else
      DecodeAdvances(data, flags.next, end, 0);
      var second := Decode(data, flags.next, end);
      if second.BadNumber? then Err(second.why)
      else if IsReexport(flags.value) then
        var text := ReadString(data, second.next, end);
        if text.BadText? then Err(text.why) else Ok(Export(name, flags.value, 0, second.value, text.text))
      else if HasResolver(flags.value) then
        var third := Decode(data, second.next, end);
        if third.BadNumber? then Err(third.why) else Ok(Export(name, flags.value, second.value, third.value, []))
      else Ok(Export(name, flags.value, second.value, 0, []))
  }

  /** The exports below a node and the nodes visited by then. */
  datatype Parsed = Parsed(exports: seq<Export>, visited: set<nat>) | Refused(why: Error)

  ghost function Positions(end: nat): (all: set<nat>)
    ensures forall x: nat :: x in all <==> x < end
  {
    if end == 0 then {} else Positions(end - 1) + {end - 1}
  }

  ghost function Unvisited(end: nat, visited: set<nat>): nat { |Positions(end) - visited| }

  lemma VisitingShrinks(end: nat, visited: set<nat>, node: nat)
    requires node < end && node !in visited
    ensures Unvisited(end, visited + {node}) < Unvisited(end, visited)
  {
    var all := Positions(end);
    assert all - (visited + {node}) < all - visited;
    SubsetSmaller(all - (visited + {node}), all - visited);
  }

  lemma VisitedMore(end: nat, less: set<nat>, more: set<nat>)
    requires less <= more
    ensures Unvisited(end, more) <= Unvisited(end, less)
  {
    var all := Positions(end);
    if all - more != all - less { SubsetSmaller(all - more, all - less); }
  }

  lemma SubsetSmaller(a: set<nat>, b: set<nat>)
    requires a < b
    ensures |a| < |b|
  {
    assert |b - a| == |b| - |a| && b - a != {};
  }

  /** The export a node stores, if any, as a list. */
  function ReadTerminal(data: seq<Byte>, cursor: nat, size: nat, name: seq<Byte>): Result<seq<Export>>
    requires cursor + size <= |data|
  {
    if size == 0 then Ok([])
    else
      match ReadEntry(data, cursor, cursor + size, name)
      case Ok(e) => Ok([e])
      case Err(e) => Err(e)
  }

  function ParseNode(data: seq<Byte>, end: nat, node: nat, prefix: seq<Byte>, visited: set<nat>): (r: Parsed)
    requires end <= |data|
    ensures r.Parsed? ==> visited <= r.visited
    decreases Unvisited(end, visited), 0
  {
    if node >= end then Refused(OutOfBounds)
    else if node in visited then Refused(Cycle)
    else
      DecodeAdvances(data, node, end, 0);
      var size := Decode(data, node, end);
      if size.BadNumber? then Refused(size.why)
      else if size.value > end - size.next then Refused(OutOfBounds)
      else
        var children := size.next + size.value;
        var entry := ReadTerminal(data, size.next, size.value, prefix);
        if entry.Err? then Refused(entry.error)
        else if children >= end then Refused(OutOfBounds)
        else
          VisitingShrinks(end, visited, node);
          var below := ParseEdges(data, end, children + 1, data[children], prefix, visited + {node});
          if below.Refused? then below else Parsed(entry.value + below.exports, below.visited)
  }

  function ParseEdges(data: seq<Byte>, end: nat, cursor: nat, count: nat, prefix: seq<Byte>,
                      visited: set<nat>): (r: Parsed)
    requires end <= |data|
    ensures r.Parsed? ==> visited <= r.visited
    decreases Unvisited(end, visited), count + 1
  {
    if count == 0 then Parsed([], visited)
    else
      ReadStringAdvances(data, cursor, end);
      var text := ReadString(data, cursor, end);
      if text.BadText? then Refused(text.why)
      else
        var child := Decode(data, text.next, end);
        if child.BadNumber? then Refused(child.why)
        else
          var first := ParseNode(data, end, child.value, prefix + text.text, visited);
          if first.Refused? then first
          else
            VisitedMore(end, visited, first.visited);
            var more := ParseEdges(data, end, child.next, count - 1, prefix, first.visited);
            if more.Refused? then more else Parsed(first.exports + more.exports, more.visited)
  }

  function ParseTrie(binary: seq<Byte>, offset: nat, size: nat): Result<seq<Export>> {
    if offset > |binary| || size > |binary| - offset then Err(OutOfBounds)
    else if size == 0 then Ok([])
    else
      match ParseNode(binary[offset..offset + size], size, 0, [], {})
      case Parsed(exports, _) => Ok(exports)
      case Refused(e) => Err(e)
  }

  // ----- Reading what was written

  lemma ReadBack(data: seq<Byte>, cursor: nat, end: nat, value: nat)
    requires At(data, cursor, Encode(value)) && cursor + |Encode(value)| <= end <= |data| && value < WORD_LIMIT
    ensures Decode(data, cursor, end) == Number(value, cursor + |Encode(value)|)
  {
    assert data[cursor..cursor + |Encode(value)|] == Encode(value);
    DecodeEncode(data, cursor, end, value);
  }

  /** The part of a string before its first NUL. */
  function CutAtNul(text: seq<Byte>): (cut: seq<Byte>)
    ensures 0 !in text ==> cut == text
    ensures cut == text ==> 0 !in text
  {
    if text == [] || text[0] == 0 then [] else [text[0]] + CutAtNul(text[1..])
  }

  lemma {:induction false} ReadCutString(data: seq<Byte>, cursor: nat, end: nat, text: seq<Byte>)
    requires At(data, cursor, text + [0]) && cursor + |text| + 1 <= end <= |data|
    ensures ReadString(data, cursor, end).Text? && ReadString(data, cursor, end).text == CutAtNul(text)
    ensures 0 !in text ==> ReadString(data, cursor, end).next == cursor + |text| + 1
    decreases |text|
  {
    assert data[cursor + 0] == (text + [0])[0];
    if text != [] && text[0] != 0 {
      assert text + [0] == [text[0]] + (text[1..] + [0]);
      AtParts(data, cursor, [text[0]], text[1..] + [0]);
      ReadCutString(data, cursor + 1, end, text[1..]);
    }
  }

  /** An export whose numbers are 64-bit. */
  ghost predicate Fits(entry: Option<Export>) {
    entry.Some? ==> entry.value.flags < WORD_LIMIT && entry.value.address < WORD_LIMIT && entry.value.other < WORD_LIMIT
  }

  /** What a stored export reads back as: only the fields its flags call for are stored. */
  function Kept(e: Export, name: seq<Byte>): Export {
    if IsReexport(e.flags) then Export(name, e.flags, 0, e.other, CutAtNul(e.importName))
    else Export(name, e.flags, e.address, if HasResolver(e.flags) then e.other else 0, [])
  }

  lemma TwoNumbers(data: seq<Byte>, cursor: nat, end: nat, a: nat, b: nat, tail: seq<Byte>)
    requires a < WORD_LIMIT && b < WORD_LIMIT && At(data, cursor, Encode(a) + (Encode(b) + tail))
    requires end == cursor + |Encode(a)| + |Encode(b)| + |tail|
    ensures Decode(data, cursor, end) == Number(a, cursor + |Encode(a)|)
    ensures Decode(data, cursor + |Encode(a)|, end) == Number(b, end - |tail|)
    ensures At(data, end - |tail|, tail)
  {
    AtParts(data, cursor, Encode(a), Encode(b) + tail);
    AtParts(data, cursor + |Encode(a)|, Encode(b), tail);
    ReadBack(data, cursor, end, a);
    ReadBack(data, cursor + |Encode(a)|, end, b);
  }

  /** Reading an entry whose first two numbers are known. */
  lemma ReadEntrySteps(data: seq<Byte>, cursor: nat, end: nat, name: seq<Byte>, flags: nat, second: nat, c1: nat,
                       c2: nat)
    requires cursor <= c1 <= c2 <= end <= |data|
    requires Decode(data, cursor, end) == Number(flags, c1) && Decode(data, c1, end) == Number(second, c2)
    ensures IsReexport(flags) && ReadString(data, c2, end).Text? ==>
              ReadEntry(data, cursor, end, name) == Ok(Export(name, flags, 0, second, ReadString(data, c2, end).text))
    ensures !IsReexport(flags) && HasResolver(flags) && Decode(data, c2, end).Number? ==>
              ReadEntry(data, cursor, end, name) == Ok(Export(name, flags, second, Decode(data, c2, end).value, []))
    ensures !IsReexport(flags) && !HasResolver(flags) ==>
            ReadEntry(data, cursor, end, name) == Ok(Export(name, flags, second, 0, []))
  {
  }

  /** A terminal starts with two numbers; `tail` is what follows them. */
  lemma EntryStarts(data: seq<Byte>, cursor: nat, end: nat, flags: nat, second: nat, tail: seq<Byte>, name: seq<Byte>)
    returns (c2: nat)
    requires flags < WORD_LIMIT && second < WORD_LIMIT && At(data, cursor, Encode(flags) + (Encode(second) + tail))
    requires end == cursor + |Encode(flags)| + |Encode(second)| + |tail|
    ensures c2 + |tail| == end <= |data| && cursor <= end && At(data, c2, tail)
    ensures IsReexport(flags) && ReadString(data, c2, end).Text? ==>
              ReadEntry(data, cursor, end, name) == Ok(Export(name, flags, 0, second, ReadString(data, c2, end).text))
    ensures !IsReexport(flags) && HasResolver(flags) && Decode(data, c2, end).Number? ==>
              ReadEntry(data, cursor, end, name) == Ok(Export(name, flags, second, Decode(data, c2, end).value, []))
    ensures !IsReexport(flags) && !HasResolver(flags) ==>
            ReadEntry(data, cursor, end, name) == Ok(Export(name, flags, second, 0, []))
  {
    TwoNumbers(data, cursor, end, flags, second, tail);
    c2 := end - |tail|;
    ReadEntrySteps(data, cursor, end, name, flags, second, cursor + |Encode(flags)|, c2);
  }

  lemma EntryReadsBack(data: seq<Byte>, cursor: nat, e: Export, name: seq<Byte>)
    requires At(data, cursor, Terminal(Some(e))) && Fits(Some(e))
    ensures ReadEntry(data, cursor, cursor + |Terminal(Some(e))|, name) == Ok(Kept(e, name))
  {
    var end := cursor + |Terminal(Some(e))|;
    if IsReexport(e.flags) {
      var c2 := EntryStarts(data, cursor, end, e.flags, e.other, e.importName + [0], name);
      ReadCutString(data, c2, end, e.importName);
    } else if HasResolver(e.flags) {
      var c2 := EntryStarts(data, cursor, end, e.flags, e.address, Encode(e.other), name);
      ReadBack(data, c2, end, e.other);
    } else {
      var c2 := EntryStarts(data, cursor, end, e.flags, e.address, [], name);
    }
  }

  // ----- A laid-out trie in a byte string

  /** Where node `i` starts; past the last node, the end of the data. */
  function Mark(offsets: seq<nat>, end: nat, i: nat): nat { if i < |offsets| then offsets[i] else end }

  /** What a node with this entry adds to the exports. */
  function Found(entry: Option<Export>, prefix: seq<Byte>): seq<Export> {
    if entry.Some? then [Kept(entry.value, prefix)] else []
  }

  /** Reading at `cursor` finds this edge and ends at `next`. */
  ghost predicate EdgeReads(data: seq<Byte>, cursor: nat, edge: Child, offsets: seq<nat>, next: nat) {
    var text := ReadString(data, cursor, |data|);
    && text.Text? && text.text == edge.text && text.next <= |data|
    && edge.place < |offsets| && Decode(data, text.next, |data|) == Number(offsets[edge.place], next)
  }

  ghost predicate EdgesRead(data: seq<Byte>, cursor: nat, edges: seq<Child>, offsets: seq<nat>)
    decreases |edges|
  {
    edges == [] || exists next: nat :: EdgeReads(data, cursor, edges[0], offsets, next)
                                       && EdgesRead(data, next, edges[1..], offsets)
  }

  /** Reading at `start` finds this node: `size` terminal bytes at `cursor`, then its edges. */
  ghost predicate NodeReads(data: seq<Byte>, start: nat, node: Listed, offsets: seq<nat>, cursor: nat, size: nat) {
    && start <= cursor && cursor + size < |data| && Decode(data, start, |data|) == Number(size, cursor)
    && (forall name :: ReadTerminal(data, cursor, size, name) == Ok(Found(node.entry, name)))
    && data[cursor + size] == |node.edges| && EdgesRead(data, cursor + size + 1, node.edges, offsets)
  }

  /** Node `i` reads back where `offsets` says, and the next one lies after it. */
  ghost predicate NodeRead(data: seq<Byte>, order: seq<Listed>, offsets: seq<nat>, i: nat) {
    && i < |order| == |offsets| && offsets[i] < Mark(offsets, |data|, i + 1)
    && exists cursor: nat, size: nat :: NodeReads(data, offsets[i], order[i], offsets, cursor, size)
  }

  /** Every listed node reads back. */
  ghost predicate Image(data: seq<Byte>, order: seq<Listed>, offsets: seq<nat>) {
    forall i: nat :: i < |order| ==> NodeRead(data, order, offsets, i)
  }

  /** The exports of a trie in the order the parser meets them. */
  function Read(t: Trie, prefix: seq<Byte>): seq<Export>
    decreases t
  {
    Found(t.entry, prefix) + ReadAll(t.branches, prefix)
  }

  function ReadAll(branches: seq<Branch>, prefix: seq<Byte>): seq<Export>
    decreases branches
  {
    if branches == [] then [] else Read(branches[0].child, prefix + branches[0].text) + ReadAll(branches[1..], prefix)
  }

  /** Four parts in a row, where they lie. */
  lemma FourParts(data: seq<Byte>, start: nat, bytes: seq<Byte>, head: seq<Byte>, terminal: seq<Byte>, count: Byte,
                  rest: seq<Byte>)
    requires bytes == head + terminal + [count] + rest && At(data, start, bytes)
    ensures At(data, start, head) && At(data, start + |head|, terminal)
    ensures start + |head| + |terminal| < |data| && data[start + |head| + |terminal|] == count
    ensures At(data, start + |head| + |terminal| + 1, rest)
  {
    AtParts(data, start, head + terminal + [count], rest);
    AtParts(data, start, head + terminal, [count]);
    AtParts(data, start, head, terminal);
    assert data[start + |head| + |terminal| + 0] == [count][0];
  }

  /** The parts of a node. */
  lemma NodeParts(data: seq<Byte>, start: nat, node: Listed, offsets: seq<nat>)
    returns (cursor: nat, terminal: seq<Byte>)
    requires Places(node.edges, |offsets|) && |node.edges| <= 255 && At(data, start, NodeBytes(node, offsets))
             && |data| <= WORD_LIMIT
    ensures terminal == Terminal(node.entry) && start <= cursor && cursor + |terminal| < |data|
    ensures Decode(data, start, |data|) == Number(|terminal|, cursor) && At(data, cursor, terminal)
    ensures data[cursor + |terminal|] == |node.edges|
            && At(data, cursor + |terminal| + 1, EdgeBytes(node.edges, offsets))
  {
    terminal := Terminal(node.entry);
    var head := Encode(|terminal|);
    FourParts(data, start, NodeBytes(node, offsets), head, terminal, |node.edges|, EdgeBytes(node.edges, offsets));
    cursor := start + |head|;
    ReadBack(data, start, |data|, |terminal|);
  }

  lemma TerminalReadsBack(data: seq<Byte>, cursor: nat, terminal: seq<Byte>, entry: Option<Export>, name: seq<Byte>)
    requires terminal == Terminal(entry) && At(data, cursor, terminal) && Fits(entry)
    ensures ReadTerminal(data, cursor, |terminal|, name) == Ok(Found(entry, name))
  {
    if entry.Some? {
      EntryReadsBack(data, cursor, entry.value, name);
      assert |terminal| > 0;
    }
  }

  lemma {:induction false} EdgesReadBack(data: seq<Byte>, cursor: nat, edges: seq<Child>, offsets: seq<nat>)
    requires Places(edges, |offsets|) && At(data, cursor, EdgeBytes(edges, offsets))
    requires forall k :: 0 <= k < |edges| ==> 0 !in edges[k].text && offsets[edges[k].place] < WORD_LIMIT
    ensures EdgesRead(data, cursor, edges, offsets)
    decreases |edges|
  {
    if edges != [] {
      var next := EdgeReadsBack(data, cursor, edges, offsets);
      EdgesReadBack(data, next, edges[1..], offsets);
    }
  }

  lemma EdgeReadsBack(data: seq<Byte>, cursor: nat, edges: seq<Child>, offsets: seq<nat>) returns (next: nat)
    requires edges != [] && 0 !in edges[0].text && Places(edges, |offsets|)
    requires At(data, cursor, EdgeBytes(edges, offsets)) && offsets[edges[0].place] < WORD_LIMIT
    ensures EdgeReads(data, cursor, edges[0], offsets, next) && At(data, next, EdgeBytes(edges[1..], offsets))
  {
    var text, link, rest := edges[0].text + [0], Encode(offsets[edges[0].place]), EdgeBytes(edges[1..], offsets);
    next := cursor + |text| + |link|;
    AtParts(data, cursor, text + link, rest);
    AtParts(data, cursor, text, link);
    ReadCutString(data, cursor, |data|, edges[0].text);
    ReadBack(data, cursor + |text|, |data|, offsets[edges[0].place]);
  }

  lemma NodeReadsBack(data: seq<Byte>, start: nat, node: Listed, offsets: seq<nat>)
    requires Places(node.edges, |offsets|) && |node.edges| <= 255 && At(data, start, NodeBytes(node, offsets))
             && |data| <= WORD_LIMIT
    requires Fits(node.entry) && forall k :: 0 <= k < |node.edges| ==>
             0 !in node.edges[k].text
             && offsets[node.edges[k].place] < WORD_LIMIT
    ensures exists cursor: nat, size: nat :: NodeReads(data, start, node, offsets, cursor, size)
  {
    var cursor, terminal := NodeParts(data, start, node, offsets);
    forall name ensures ReadTerminal(data, cursor, |terminal|, name) == Ok(Found(node.entry, name)) {
      TerminalReadsBack(data, cursor, terminal, node.entry, name);
    }
    EdgesReadBack(data, cursor + |terminal| + 1, node.edges, offsets);
    assert NodeReads(data, start, node, offsets, cursor, |terminal|);
  }

  // ----- Parsing what reads back

  /** Parsing a node comes down to parsing its edges. */
  lemma NodeStep(data: seq<Byte>, node: nat, prefix: seq<Byte>, visited: set<nat>, listed: Listed, offsets: seq<nat>,
                 cursor: nat, size: nat, below: Parsed)
    requires node !in visited && NodeReads(data, node, listed, offsets, cursor, size)
    requires below == ParseEdges(data, |data|, cursor + size + 1, |listed.edges|, prefix, visited + {node})
             && below.Parsed?
    ensures ParseNode(data, |data|, node, prefix, visited) ==
            Parsed(Found(listed.entry, prefix) + below.exports, below.visited)
  {
  }

  /** Parsing some edges comes down to parsing the first child and the other edges. */
  lemma EdgeStep(data: seq<Byte>, cursor: nat, count: nat, prefix: seq<Byte>, visited: set<nat>, edge: Child,
                 offsets: seq<nat>, next: nat, found: seq<Export>, first: set<nat>, more: seq<Export>, seen: set<nat>)
    requires count > 0 && EdgeReads(data, cursor, edge, offsets, next)
    requires ParseNode(data, |data|, offsets[edge.place], prefix + edge.text, visited) == Parsed(found, first)
    requires ParseEdges(data, |data|, next, count - 1, prefix, first) == Parsed(more, seen)
    ensures ParseEdges(data, |data|, cursor, count, prefix, visited) == Parsed(found + more, seen)
  {
  }

  /** `part` stands in `order` from place `at` on. */
  ghost predicate Stands(order: seq<Listed>, at: nat, part: seq<Listed>) {
    at + |part| <= |order| && forall k :: 0 <= k < |part| ==> order[at + k] == part[k]
  }

  lemma StandsParts(order: seq<Listed>, at: nat, a: seq<Listed>, b: seq<Listed>)
    requires Stands(order, at, a + b)
    ensures Stands(order, at, a) && Stands(order, at + |a|, b)
  {
    forall k | 0 <= k < |a| ensures order[at + k] == a[k] { assert (a + b)[k] == a[k]; }
    forall k | 0 <= k < |b| ensures order[at + |a| + k] == b[k] { assert (a + b)[|a| + k] == b[k]; }
  }

  lemma NodeStands(order: seq<Listed>, t: Trie, base: nat)
    requires Stands(order, base, Collect(t, base))
    ensures base < |order| && order[base] == Listed(t.entry, Children(t.branches, base + 1))
    ensures Stands(order, base + 1, CollectAll(t.branches, base + 1))
  {
    StandsParts(order, base, [Listed(t.entry, Children(t.branches, base + 1))], CollectAll(t.branches, base + 1));
    assert order[base + 0] == [Listed(t.entry, Children(t.branches, base + 1))][0];
  }

  lemma BranchesStand(order: seq<Listed>, branches: seq<Branch>, at: nat) returns (next: nat)
    requires branches != [] && Stands(order, at, CollectAll(branches, at))
    ensures next == at + Size(branches[0].child) && next <= |order|
    ensures Stands(order, at, Collect(branches[0].child, at)) && Stands(order, next, CollectAll(branches[1..], next))
    ensures Children(branches, at)[0] == Child(branches[0].text, at)
            && Children(branches, at)[1..] == Children(branches[1..], next)
    ensures at + SizeAll(branches) == next + SizeAll(branches[1..])
  {
    next := at + Size(branches[0].child);
    StandsParts(order, at, Collect(branches[0].child, at), CollectAll(branches[1..], next));
  }

  /** A preorder walk that has got as far as `mark` has seen nothing from there on. */
  ghost predicate AllBelow(seen: set<nat>, mark: nat) { forall v <- seen :: v < mark }

  lemma {:induction false} ParsesNode(data: seq<Byte>, order: seq<Listed>, offsets: seq<nat>, t: Trie, base: nat,
                                      prefix: seq<Byte>, visited: set<nat>)
    returns (seen: set<nat>)
    requires Image(data, order, offsets) && Stands(order, base, Collect(t, base))
    requires AllBelow(visited, Mark(offsets, |data|, base))
    ensures base < |offsets| && ParseNode(data, |data|, offsets[base], prefix, visited) == Parsed(Read(t, prefix), seen)
    ensures AllBelow(seen, Mark(offsets, |data|, base + Size(t)))
    decreases t
  {
    NodeStands(order, t, base);
    assert NodeRead(data, order, offsets, base);
    var cursor: nat, size: nat :| NodeReads(data, offsets[base], order[base], offsets, cursor, size);
    seen := ParsesEdges(data, order, offsets, t.branches, base + 1, cursor + size + 1, prefix,
                        visited + {offsets[base]});
    NodeStep(data, offsets[base], prefix, visited, order[base], offsets, cursor, size,
             Parsed(ReadAll(t.branches, prefix), seen));
  }

  lemma {:induction false} ParsesEdges(data: seq<Byte>, order: seq<Listed>, offsets: seq<nat>, branches: seq<Branch>,
                                       at: nat, cursor: nat, prefix: seq<Byte>, visited: set<nat>)
    returns (seen: set<nat>)
    requires Image(data, order, offsets) && Stands(order, at, CollectAll(branches, at))
    requires EdgesRead(data, cursor, Children(branches, at), offsets)
    requires AllBelow(visited, Mark(offsets, |data|, at))
    ensures ParseEdges(data, |data|, cursor, |branches|, prefix, visited) == Parsed(ReadAll(branches, prefix), seen)
    ensures AllBelow(seen, Mark(offsets, |data|, at + SizeAll(branches)))
    decreases branches
  {
    if branches == [] { return visited; }
    var next := BranchesStand(order, branches, at);
    var first := ParsesNode(data, order, offsets, branches[0].child, at, prefix + branches[0].text, visited);
    var c2: nat :| EdgeReads(data, cursor, Children(branches, at)[0], offsets, c2)
        && EdgesRead(data, c2, Children(branches, at)[1..], offsets);
    seen := ParsesEdges(data, order, offsets, branches[1..], next, c2, prefix, first);
    EdgeStep(data, cursor, |branches|, prefix, visited, Child(branches[0].text, at), offsets, c2,
             Read(branches[0].child, prefix + branches[0].text), first, ReadAll(branches[1..], prefix), seen);
  }
}
