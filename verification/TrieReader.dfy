/** The recursive reader of export tries, with its cursor, prefix, visited set and output updated in place. */
module TrieReader {
  import opened Wrappers
  import opened Uleb128
  import opened ExportTrie
  import opened TrieLayout
  import opened TrieParser

  method ReadTrieString(data: seq<Byte>, cursor: nat, end: nat) returns (result: Text)
    requires end <= |data|
    ensures result == ReadString(data, cursor, end)
  {
    var at, text := cursor, [];
    while at < end && data[at] != 0
      invariant ReadString(data, cursor, end) == Longer(text, ReadString(data, at, end))
      decreases end - at
    {
      LongerStep(text, data[at], ReadString(data, at + 1, end));
      text, at := text + [data[at]], at + 1;
    }
    if at >= end { return BadText(Unterminated); }
    assert text + [] == text;
    result := Text(text, at + 1);
  }

  ghost function Longer(text: seq<Byte>, rest: Text): Text {
    if rest.BadText? then rest else Text(text + rest.text, rest.next)
  }

  lemma LongerStep(text: seq<Byte>, byte: Byte, rest: Text)
    ensures Longer(text, Longer([byte], rest)) == Longer(text + [byte], rest)
  {
    if rest.Text? { assert text + ([byte] + rest.text) == text + [byte] + rest.text; }
  }

  method ReadTerminalEntry(data: seq<Byte>, cursor: nat, end: nat, name: seq<Byte>) returns (result: Result<Export>)
    requires cursor <= end <= |data|
    ensures result == ReadEntry(data, cursor, end, name)
  {
    DecodeAdvances(data, cursor, end, 0);
    var flags := ReadUleb(data, cursor, end);
    if flags.BadNumber? { return Err(flags.why); }
    DecodeAdvances(data, flags.next, end, 0);
    var second := ReadUleb(data, flags.next, end);
    if second.BadNumber? { return Err(second.why); }
    if IsReexport(flags.value) {
      var text := ReadTrieString(data, second.next, end);
      if text.BadText? { return Err(text.why); }
      return Ok(Export(name, flags.value, 0, second.value, text.text));
    }
    if HasResolver(flags.value) {
      var other := ReadUleb(data, second.next, end);
      if other.BadNumber? { return Err(other.why); }
      return Ok(Export(name, flags.value, second.value, other.value, []));
    }
    result := Ok(Export(name, flags.value, second.value, 0, []));
  }

  /** `found` put before the exports of a parse. */
  ghost function Before(found: seq<Export>, r: Parsed): Parsed {
    if r.Refused? then r else Parsed(found + r.exports, r.visited)
  }

  lemma BeforeTwice(a: seq<Export>, b: seq<Export>, r: Parsed)
    ensures Before(a, Before(b, r)) == Before(a + b, r)
  {
    if r.Parsed? { assert a + (b + r.exports) == a + b + r.exports; }
  }

  lemma BeforeNothing(r: Parsed)
    ensures Before([], r) == r
  {
    if r.Parsed? { assert [] + r.exports == r.exports; }
  }

  class Reader {
    const data: seq<Byte>
    var prefix: seq<Byte>
    var visited: set<nat>
    var out: seq<Export>

    constructor (data: seq<Byte>)
      ensures this.data == data && prefix == [] && visited == {} && out == []
    {
      this.data, prefix, visited, out := data, [], {}, [];
    }

    /** What the reader has, when nothing was refused. */
    ghost predicate Shows(why: Option<Error>, r: Parsed)
      reads this
    {
      match r
      case Parsed(exports, seen) => why == None && out == exports && visited == seen
      case Refused(error) => why == Some(error)
    }

    /** Reads a node and all below it; the prefix comes back as it was. */
    method Node(node: nat) returns (why: Option<Error>)
      modifies this
      ensures Shows(why, Before(old(out), ParseNode(data, |data|, node, old(prefix), old(visited))))
      ensures why.None? ==> prefix == old(prefix)
      decreases Unvisited(|data|, visited), 0
    {
      var end := |data|;
      if node >= end { return Some(OutOfBounds); }
      if node in visited { return Some(Cycle); }
      VisitingShrinks(end, visited, node);
      visited := visited + {node};
      DecodeAdvances(data, node, end, 0);
      var size := ReadUleb(data, node, end);
      if size.BadNumber? { return Some(size.why); }
      if size.value > end - size.next { return Some(OutOfBounds); }
      var children := size.next + size.value;
      if size.value != 0 {
        var entry := ReadTerminalEntry(data, size.next, children, prefix);
        if entry.Err? { return Some(entry.error); }
        out := out + [entry.value];
      } else {
        assert out + [] == out;
      }
      if children >= end { return Some(OutOfBounds); }
      ghost var found := out[|old(out)|..];
      BeforeTwice(old(out), found, ParseEdges(data, end, children + 1, data[children], prefix, visited));
      why := Edges(children + 1, data[children]);
    }

    method Edges(start: nat, count: nat) returns (why: Option<Error>)
      modifies this
      ensures Shows(why, Before(old(out), ParseEdges(data, |data|, start, count, old(prefix), old(visited))))
      ensures why.None? ==> prefix == old(prefix)
      decreases Unvisited(|data|, visited), count + 1
    {
      var cursor := start;
      for index := 0 to count
        invariant prefix == old(prefix) && old(visited) <= visited
        invariant Before(out, ParseEdges(data, |data|, cursor, count - index, prefix, visited))
               == Before(old(out), ParseEdges(data, |data|, start, count, old(prefix), old(visited)))
      {
        ReadStringAdvances(data, cursor, |data|);
        var text := ReadTrieString(data, cursor, |data|);
        if text.BadText? { return Some(text.why); }
        var child := ReadUleb(data, text.next, |data|);
        if child.BadNumber? { return Some(child.why); }
        var length := |prefix|;
        VisitedMore(|data|, old(visited), visited);
        ghost var before, seen := out, visited;
        prefix := prefix + text.text;
        why := Node(child.value);
        if why.Some? { return; }
        prefix := prefix[..length];
        EdgeShown(data, cursor, count - index, prefix, seen, text.text, child.value, child.next, before);
        cursor := child.next;
      }
      assert out + [] == out;
      why := None;
    }
  }

  /** After the first child, the other edges remain. */
  lemma EdgeShown(data: seq<Byte>, cursor: nat, count: nat, prefix: seq<Byte>, visited: set<nat>, text: seq<Byte>,
                  child: nat, next: nat, before: seq<Export>)
    requires count > 0 && ReadString(data, cursor, |data|).Text? && ReadString(data, cursor, |data|).text == text
    requires ReadString(data, cursor, |data|).next <= |data|
    requires Decode(data, ReadString(data, cursor, |data|).next, |data|) == Number(child, next)
    requires ParseNode(data, |data|, child, prefix + text, visited).Parsed?
    ensures var first := ParseNode(data, |data|, child, prefix + text, visited);
            && Before(before, ParseEdges(data, |data|, cursor, count, prefix, visited))
               == Before(before + first.exports, ParseEdges(data, |data|, next, count - 1, prefix, first.visited))
  {
    var first := ParseNode(data, |data|, child, prefix + text, visited);
    BeforeTwice(before, first.exports, ParseEdges(data, |data|, next, count - 1, prefix, first.visited));
  }

  method Parse(binary: seq<Byte>, offset: nat, size: nat) returns (result: Result<seq<Export>>)
    ensures result == ParseTrie(binary, offset, size)
  {
    if offset > |binary| || size > |binary| - offset { return Err(OutOfBounds); }
    if size == 0 { return Ok([]); }
    var reader := new Reader(binary[offset..offset + size]);
    var why := reader.Node(0);
    BeforeNothing(ParseNode(reader.data, size, 0, [], {}));
    result := if why.Some? then Err(why.value) else Ok(reader.out);
  }
}
