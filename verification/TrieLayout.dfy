/** Laying the trie out: offsets are stored as LEB128, so a node's size depends on where its children end up.
The builder repeats a pass over all nodes until no offset moves. */
module TrieLayout {
  import opened Wrappers
  import opened Uleb128
  import opened ExportTrie

  /** Flag bit 0x08: the export forwards to another library's. */
  predicate IsReexport(flags: nat) { flags / 8 % 2 == 1 }

  /** Flag bit 0x10: the export has a stub and a resolver. */
  predicate HasResolver(flags: nat) { flags / 16 % 2 == 1 }

  /** What a node stores for its own export. */
  function Terminal(entry: Option<Export>): seq<Byte> {
    if entry.None? then []
    else
      var e := entry.value;
      if IsReexport(e.flags) then Encode(e.flags) + (Encode(e.other) + (e.importName + [0]))
      else Encode(e.flags) + (Encode(e.address) + if HasResolver(e.flags) then Encode(e.other) else [])
  }

  lemma FlagBits(flags: nat, low: nat, high: nat)
    requires low < 8
    ensures flags == low + 8 + 16 * high ==> flags / 8 % 2 == 1
    ensures flags == low + 16 + 32 * high ==> flags / 8 % 2 == 0 && flags / 16 % 2 == 1
    ensures flags == low + 32 * high ==> flags / 8 % 2 == 0 && flags / 16 % 2 == 0
  {
    assert flags == low + 8 + 16 * high ==> flags / 8 == 1 + 2 * high;
    assert flags == low + 16 + 32 * high ==> flags / 8 == 2 + 4 * high && flags / 16 == 1 + 2 * high;
    assert flags == low + 32 * high ==> flags / 8 == 4 * high && flags / 16 == 2 * high;
  }

  /** What the bits of the flags make of an export: with bit 3 the other library's ordinal and name follow, without it
      the address, and with bit 4 also the resolver. */
  lemma TerminalForms(e: Export, low: nat, high: nat)
    requires low < 8
    ensures e.flags == low + 8 + 16 * high ==>
            Terminal(Some(e)) == Encode(e.flags) + (Encode(e.other) + (e.importName + [0]))
    ensures e.flags == low + 16 + 32 * high ==>
            Terminal(Some(e)) == Encode(e.flags) + (Encode(e.address) + Encode(e.other))
    ensures e.flags == low + 32 * high ==> Terminal(Some(e)) == Encode(e.flags) + (Encode(e.address) + [])
  {
    FlagBits(e.flags, low, high);
  }

  // ----- Nodes in preorder

  /** A node as the builder lists it: children are named by their place in the list. */
  datatype Listed = Listed(entry: Option<Export>, edges: seq<Child>)
  datatype Child = Child(text: seq<Byte>, place: nat)

  function Size(t: Trie): (n: nat)
    ensures n > 0
  {
    1 + SizeAll(t.branches)
  }

  function SizeAll(branches: seq<Branch>): nat {
    if branches == [] then 0 else Size(branches[0].child) + SizeAll(branches[1..])
  }

  function Collect(t: Trie, base: nat): (order: seq<Listed>)
    ensures |order| == Size(t)
  {
    [Listed(t.entry, Children(t.branches, base + 1))] + CollectAll(t.branches, base + 1)
  }

  function CollectAll(branches: seq<Branch>, at: nat): (order: seq<Listed>)
    ensures |order| == SizeAll(branches)
  {
    if branches == [] then []
    else Collect(branches[0].child, at) + CollectAll(branches[1..], at + Size(branches[0].child))
  }

  function Children(branches: seq<Branch>, at: nat): (edges: seq<Child>)
    ensures |edges| == |branches|
  {
    if branches == [] then []
    else [Child(branches[0].text, at)] + Children(branches[1..], at + Size(branches[0].child))
  }

  lemma {:induction false} ChildrenAt(branches: seq<Branch>, at: nat)
    ensures forall k :: 0 <= k < |branches| ==> var c := Children(branches, at)[k];
            c.text == branches[k].text && at <= c.place < at + SizeAll(branches)
  {
    if branches != [] {
      var next := at + Size(branches[0].child);
      ChildrenAt(branches[1..], next);
      forall k | 0 <= k < |branches| ensures var c := Children(branches, at)[k];
          c.text == branches[k].text && at <= c.place < at + SizeAll(branches) {
        if k > 0 {
          assert Children(branches, at)[k] == Children(branches[1..], next)[k - 1]
              && branches[k] == branches[1..][k - 1];
        }
      }
    }
  }

  /** Children come after their parent in the list. */
  ghost predicate Forward(order: seq<Listed>, base: nat, end: nat) {
    forall i, k :: 0 <= i < |order| && 0 <= k < |order[i].edges| ==> base + i < order[i].edges[k].place < end
  }

  lemma {:induction false} CollectForward(t: Trie, base: nat)
    ensures Forward(Collect(t, base), base, base + Size(t))
    decreases t
  {
    CollectAllForward(t.branches, base + 1);
    ChildrenAt(t.branches, base + 1);
    var order, rest := Collect(t, base), CollectAll(t.branches, base + 1);
    forall i, k | 0 <= i < |order| && 0 <= k < |order[i].edges|
      ensures base + i < order[i].edges[k].place < base + Size(t) {
      if i > 0 { assert order[i] == rest[i - 1]; }
    }
  }

  lemma {:induction false} CollectAllForward(branches: seq<Branch>, at: nat)
    ensures Forward(CollectAll(branches, at), at, at + SizeAll(branches))
    decreases branches
  {
    if branches != [] {
      var first := Collect(branches[0].child, at);
      var rest := CollectAll(branches[1..], at + Size(branches[0].child));
      CollectForward(branches[0].child, at);
      CollectAllForward(branches[1..], at + Size(branches[0].child));
      var order := CollectAll(branches, at);
      forall i, k | 0 <= i < |order| && 0 <= k < |order[i].edges|
        ensures at + i < order[i].edges[k].place < at + SizeAll(branches) {
        if i < |first| { assert order[i] == first[i]; } else { assert order[i] == rest[i - |first|]; }
      }
    }
  }

  // ----- Sizes

  ghost predicate Places(edges: seq<Child>, n: nat) { forall k :: 0 <= k < |edges| ==> edges[k].place < n }

  function EdgesSize(edges: seq<Child>, offsets: seq<nat>): nat
    requires Places(edges, |offsets|)
  {
    if edges == [] then 0
    else |edges[0].text| + 1 + |Encode(offsets[edges[0].place])| + EdgesSize(edges[1..], offsets)
  }

  /** The bytes of a node before its edges. */
  function HeadSize(node: Listed): nat { |Encode(|Terminal(node.entry)|)| + |Terminal(node.entry)| + 1 }

  function NodeSize(node: Listed, offsets: seq<nat>): nat
    requires Places(node.edges, |offsets|)
  {
    HeadSize(node) + EdgesSize(node.edges, offsets)
  }

  ghost predicate AllPlaced(order: seq<Listed>) { forall i :: 0 <= i < |order| ==> Places(order[i].edges, |order|) }

  /** The sum of the first `i` of `sizes`. */
  function Sum(sizes: seq<nat>, i: nat): nat
    requires i <= |sizes|
  {
    if i == 0 then 0 else Sum(sizes, i - 1) + sizes[i - 1]
  }

  function Sizes(order: seq<Listed>, offsets: seq<nat>): (sizes: seq<nat>)
    requires AllPlaced(order) && |offsets| == |order|
    ensures |sizes| == |order| && forall i :: 0 <= i < |order| ==> sizes[i] == NodeSize(order[i], offsets)
  {
    seq(|order|, i requires 0 <= i < |order| => NodeSize(order[i], offsets))
  }

  /** Where node `i` starts when the sizes before it are computed from `offsets`. */
  function Start(order: seq<Listed>, offsets: seq<nat>, i: nat): nat
    requires AllPlaced(order) && |offsets| == |order| && i <= |order|
  {
    Sum(Sizes(order, offsets), i)
  }

  /** A layout whose offsets are the ones its own sizes call for. */
  ghost predicate ConsistentLayout(order: seq<Listed>, offsets: seq<nat>)
    requires AllPlaced(order)
  {
    |offsets| == |order| && forall i :: 0 <= i < |order| ==> offsets[i] == Start(order, offsets, i)
  }

  ghost predicate Below(a: seq<nat>, b: seq<nat>) { |a| == |b| && forall i :: 0 <= i < |a| ==> a[i] <= b[i] }

  lemma {:induction false} EdgesMonotone(edges: seq<Child>, a: seq<nat>, b: seq<nat>)
    requires Below(a, b) && Places(edges, |a|)
    ensures EdgesSize(edges, a) <= EdgesSize(edges, b)
  {
    if edges != [] {
      SizeMonotone(a[edges[0].place], b[edges[0].place]);
      EdgesMonotone(edges[1..], a, b);
    }
  }

  lemma {:induction false} SumMonotone(a: seq<nat>, b: seq<nat>, i: nat)
    requires Below(a, b) && i <= |a|
    ensures Sum(a, i) <= Sum(b, i)
  {
    if i > 0 { SumMonotone(a, b, i - 1); }
  }

  lemma {:induction false} SumGrows(sizes: seq<nat>, i: nat, j: nat)
    requires i <= j <= |sizes|
    ensures Sum(sizes, i) <= Sum(sizes, j)
    decreases j
  {
    if i < j { SumGrows(sizes, i, j - 1); }
  }

  /** One pass is monotone in all offsets. */
  lemma StartMonotone(order: seq<Listed>, a: seq<nat>, b: seq<nat>, i: nat)
    requires AllPlaced(order) && |a| == |order| && Below(a, b) && i <= |order|
    ensures Start(order, a, i) <= Start(order, b, i)
  {
    forall j | 0 <= j < |order| ensures Sizes(order, a)[j] <= Sizes(order, b)[j] {
      EdgesMonotone(order[j].edges, a, b);
    }
    SumMonotone(Sizes(order, a), Sizes(order, b), i);
  }

  /** The most a node can take, ten bytes to an offset. */
  function EdgesCap(edges: seq<Child>): nat {
    if edges == [] then 0 else |edges[0].text| + 11 + EdgesCap(edges[1..])
  }

  function MaxSizes(order: seq<Listed>): (sizes: seq<nat>)
    ensures |sizes| == |order| && forall i :: 0 <= i < |order| ==>
            sizes[i] == HeadSize(order[i]) + EdgesCap(order[i].edges)
  {
    seq(|order|, i requires 0 <= i < |order| => HeadSize(order[i]) + EdgesCap(order[i].edges))
  }

  /** The most the first `i` nodes can take. */
  function Cap(order: seq<Listed>, i: nat): nat
    requires i <= |order|
  {
    Sum(MaxSizes(order), i)
  }

  lemma {:induction false} EdgesWithinCap(edges: seq<Child>, offsets: seq<nat>)
    requires Places(edges, |offsets|) && forall i :: 0 <= i < |offsets| ==> offsets[i] < WORD_LIMIT
    ensures EdgesSize(edges, offsets) <= EdgesCap(edges)
  {
    if edges != [] {
      SizeBounded(offsets[edges[0].place]);
      EdgesWithinCap(edges[1..], offsets);
    }
  }

  lemma StartWithinCap(order: seq<Listed>, offsets: seq<nat>, i: nat)
    requires AllPlaced(order) && |offsets| == |order| && i <= |order|
             && forall i :: 0 <= i < |offsets| ==> offsets[i] < WORD_LIMIT
    ensures Start(order, offsets, i) <= Cap(order, i)
  {
    forall j | 0 <= j < |order| ensures Sizes(order, offsets)[j] <= MaxSizes(order)[j] {
      EdgesWithinCap(order[j].edges, offsets);
    }
    SumMonotone(Sizes(order, offsets), MaxSizes(order), i);
  }

  function Caps(order: seq<Listed>): (caps: seq<nat>)
    ensures |caps| == |order| && forall i :: 0 <= i < |order| ==> caps[i] == Cap(order, i)
  {
    seq(|order|, i requires 0 <= i < |order| => Cap(order, i))
  }

  /** How far the first `i` offsets are from their caps. */
  ghost function Slack(caps: seq<nat>, offsets: seq<nat>, i: nat): int
    requires i <= |caps| == |offsets|
  {
    if i == 0 then 0 else Slack(caps, offsets, i - 1) + caps[i - 1] - offsets[i - 1]
  }

  lemma {:induction false} SlackFalls(caps: seq<nat>, a: seq<nat>, b: seq<nat>, i: nat)
    requires i <= |caps| == |a| && Below(a, b) && Below(b, caps)
    ensures 0 <= Slack(caps, b, i) <= Slack(caps, a, i)
    ensures a[..i] != b[..i] ==> Slack(caps, b, i) < Slack(caps, a, i)
  {
    if i > 0 {
      SlackFalls(caps, a, b, i - 1);
      assert a[..i] == a[..i - 1] + [a[i - 1]] && b[..i] == b[..i - 1] + [b[i - 1]];
    }
  }

  lemma {:induction false} EdgesAgree(edges: seq<Child>, a: seq<nat>, b: seq<nat>)
    requires |a| == |b| && Places(edges, |a|) && forall k :: 0 <= k < |edges| ==> a[edges[k].place] == b[edges[k].place]
    ensures EdgesSize(edges, a) == EdgesSize(edges, b)
  {
    if edges != [] {
      forall k | 0 <= k < |edges[1..]| ensures a[edges[1..][k].place] == b[edges[1..][k].place] {
        assert edges[1..][k] == edges[k + 1];
      }
      EdgesAgree(edges[1..], a, b);
    }
  }

  method MeasureNode(node: Listed, offsets: array<nat>) returns (size: nat)
    requires Places(node.edges, offsets.Length)
    ensures size == NodeSize(node, offsets[..])
  {
    var terminal := Terminal(node.entry);
    var head := UlebSize(|terminal|);
    size := head + |terminal| + 1;
    for k := 0 to |node.edges|
      invariant size + EdgesSize(node.edges[k..], offsets[..]) == NodeSize(node, offsets[..])
    {
      var bytes := UlebSize(offsets[node.edges[k].place]);
      assert node.edges[k..][1..] == node.edges[k + 1..];
      size := size + |node.edges[k].text| + 1 + bytes;
    }
  }

  /** What a pass turns `was` into. */
  ghost predicate Passed(order: seq<Listed>, was: seq<nat>, now: seq<nat>)
    requires AllPlaced(order)
  {
    |was| == |now| == |order| && forall i :: 0 <= i < |order| ==> now[i] == Start(order, was, i)
  }

  ghost predicate PassedTo(order: seq<Listed>, was: seq<nat>, now: seq<nat>, i: nat)
    requires AllPlaced(order) && |was| == |order|
  {
    i <= |now| == |order| && forall j :: 0 <= j < i ==> now[j] == Start(order, was, j)
  }

  lemma PassedMore(order: seq<Listed>, before: seq<nat>, now: seq<nat>, was: seq<nat>, i: nat, offset: nat)
    requires AllPlaced(order) && |was| == |order| && PassedTo(order, was, before, i) && i < |before|
    requires now == before[i := offset] && offset == Start(order, was, i)
    ensures PassedTo(order, was, now, i + 1)
  {
  }

  /** One pass, in place. Offsets ahead of the pass are still the old ones, and sizes only look ahead. */
  method Pass(order: seq<Listed>, offsets: array<nat>) returns (changed: bool)
    requires AllPlaced(order) && Forward(order, 0, |order|) && offsets.Length == |order|
    modifies offsets
    ensures Passed(order, old(offsets[..]), offsets[..])
    ensures changed <==> offsets[..] != old(offsets[..])
  {
    changed := false;
    var offset := 0;
    ghost var was := offsets[..];
    for i := 0 to |order|
      invariant offset == Start(order, was, i)
      invariant PassedTo(order, was, offsets[..], i)
      invariant offsets[i..] == was[i..]
      invariant changed <==> offsets[..i] != was[..i]
    {
      assert offsets[i] == offsets[i..][0] == was[i..][0] == was[i];
      ghost var before := offsets[..];
      if offsets[i] != offset {
        offsets[i] := offset;
        changed := true;
      }
      PassStep(before, offsets[..], was, i, offset);
      PassedMore(order, before, offsets[..], was, i, offset);
      SizesAhead(order, i, offsets[..], was);
      var size := MeasureNode(order[i], offsets);
      offset := offset + size;
    }
    assert offsets[..] == offsets[..|order|] && was == was[..|order|];
  }

  lemma PassStep(before: seq<nat>, now: seq<nat>, was: seq<nat>, i: nat, offset: nat)
    requires |before| == |was| && i < |was| && before[i..] == was[i..] && now == before[i := offset]
    ensures now[i + 1..] == was[i + 1..]
    ensures now[..i + 1] != was[..i + 1] <==> before[..i] != was[..i] || offset != was[i]
  {
    assert now[..i + 1] == before[..i] + [offset] && was[..i + 1] == was[..i] + [was[i]];
    assert now[i + 1..] == before[i..][1..] && was[i + 1..] == was[i..][1..];
  }

  lemma SizesAhead(order: seq<Listed>, i: nat, now: seq<nat>, was: seq<nat>)
    requires AllPlaced(order) && Forward(order, 0, |order|) && i < |order| == |now| == |was|
             && now[i + 1..] == was[i + 1..]
    ensures NodeSize(order[i], now) == NodeSize(order[i], was)
  {
    var edges := order[i].edges;
    forall k | 0 <= k < |edges| ensures now[edges[k].place] == was[edges[k].place] {
      var p := edges[k].place;
      assert now[p] == now[i + 1..][p - i - 1] && was[p] == was[i + 1..][p - i - 1];
    }
    EdgesAgree(edges, now, was);
  }

  /** Offsets on the way up: below what a pass makes of them, below the caps, and below every consistent layout. */
  ghost predicate Climbing(order: seq<Listed>, offsets: seq<nat>)
    requires AllPlaced(order)
  {
    && |offsets| == |order|
    && (forall i :: 0 <= i < |order| ==> offsets[i] <= Start(order, offsets, i))
    && Below(offsets, Caps(order))
    && forall other :: ConsistentLayout(order, other) ==> Below(offsets, other)
  }

  /** The layout loop ends, and ends at the least layout consistent with itself. */
  method Layout(order: seq<Listed>) returns (offsets: array<nat>)
    requires AllPlaced(order) && Forward(order, 0, |order|) && Cap(order, |order|) < WORD_LIMIT
    ensures fresh(offsets) && ConsistentLayout(order, offsets[..])
    ensures forall other :: ConsistentLayout(order, other) ==> Below(offsets[..], other)
    ensures forall i :: 0 <= i < |order| ==> offsets[i] < WORD_LIMIT
  {
    offsets := new nat[|order|](_ => 0);
    var changed := true;
    ghost var caps := Caps(order);
    ClimbStarts(order, offsets[..]);
    while changed
      invariant offsets.Length == |order| && Climbing(order, offsets[..])
      invariant Slack(caps, offsets[..], |order|) >= 0
      invariant !changed ==> ConsistentLayout(order, offsets[..])
      decreases Slack(caps, offsets[..], |order|), changed
    {
      ghost var was := offsets[..];
      changed := Pass(order, offsets);
      PassClimbs(order, was, offsets[..]);
      ClimbEnds(caps, was, offsets[..]);
    }
    CapsFit(order, offsets[..]);
  }

  lemma ClimbStarts(order: seq<Listed>, offsets: seq<nat>)
    requires AllPlaced(order) && |offsets| == |order| && forall i :: 0 <= i < |order| ==> offsets[i] == 0
    ensures Climbing(order, offsets) && Slack(Caps(order), offsets, |order|) >= 0
  {
    SlackFalls(Caps(order), offsets, offsets, |order|);
  }

  lemma ClimbEnds(caps: seq<nat>, was: seq<nat>, now: seq<nat>)
    requires |caps| == |was| && Below(was, now) && Below(now, caps)
    ensures 0 <= Slack(caps, now, |caps|) <= Slack(caps, was, |caps|)
    ensures now != was ==> Slack(caps, now, |caps|) < Slack(caps, was, |caps|)
  {
    SlackFalls(caps, was, now, |caps|);
    assert was[..|caps|] == was && now[..|caps|] == now;
  }

  lemma CapsFit(order: seq<Listed>, offsets: seq<nat>)
    requires Cap(order, |order|) < WORD_LIMIT && Below(offsets, Caps(order))
    ensures forall i :: 0 <= i < |order| ==> offsets[i] < WORD_LIMIT
  {
    forall i | 0 <= i < |order| ensures offsets[i] < WORD_LIMIT { SumGrows(MaxSizes(order), i, |order|); }
  }

  /** A pass moves offsets up, but not past any consistent layout or the caps. */
  lemma PassClimbs(order: seq<Listed>, was: seq<nat>, now: seq<nat>)
    requires AllPlaced(order) && Passed(order, was, now) && Climbing(order, was) && Cap(order, |order|) < WORD_LIMIT
    ensures Below(was, now) && Climbing(order, now)
    ensures was == now ==> ConsistentLayout(order, now)
  {
    CapsFit(order, was);
    forall i | 0 <= i < |order| ensures now[i] <= Start(order, now, i) && now[i] <= Caps(order)[i] {
      StartMonotone(order, was, now, i);
      StartWithinCap(order, was, i);
    }
    forall other | ConsistentLayout(order, other) ensures Below(now, other) {
      forall i | 0 <= i < |order| ensures now[i] <= other[i] { StartMonotone(order, was, other, i); }
    }
  }
}
