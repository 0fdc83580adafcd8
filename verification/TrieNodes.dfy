/** The builder's nodes, grown in place. `trie` is the value a node stands for. */
module TrieNodes {
  import opened Wrappers
  import opened Uleb128
  import opened ExportTrie
  import opened TrieLayout

  datatype Edge = Edge(text: seq<Byte>, node: Node)

  class Node {
    var entry: Option<Export>
    var children: seq<Edge>
    ghost var repr: set<Node>
    ghost var trie: Trie

    ghost predicate Valid()
      reads this, repr
      ensures Valid() ==> this in repr
      decreases repr
    {
      && this in repr
      && trie.entry == entry && |trie.branches| == |children|
      && (forall i :: 0 <= i < |children| ==> Linked(i))
      && (forall i, j :: 0 <= i < j < |children| ==> Apart(i, j))
    }

    ghost predicate Owned(i: nat)
      reads this, repr
    {
      i < |children| && children[i].node in repr && children[i].node.repr < repr && this !in children[i].node.repr
    }

    /** Child `i` is a valid node of its own, and the branch it stands for. */
    ghost predicate Linked(i: nat)
      reads this, repr
      decreases repr, 0
    {
      && Owned(i) && children[i].node.Valid()
      && i < |trie.branches| && trie.branches[i] == Branch(children[i].text, children[i].node.trie)
    }

    ghost predicate Apart(i: nat, j: nat)
      reads this, repr
    {
      Owned(i) && Owned(j) && children[i].node.repr !! children[j].node.repr
    }

    constructor (entry: Option<Export>)
      ensures Valid() && fresh(repr) && trie == Trie(entry, []) && repr == {this}
    {
      this.entry, children, repr, trie := entry, [], {this}, Trie(entry, []);
    }

    /** A node between a parent and `child`, reached from it by `text`. */
    constructor Above(text: seq<Byte>, child: Node)
      requires child.Valid()
      ensures Valid() && trie == Trie(None, [Branch(text, child.trie)]) && repr == child.repr + {this}
    {
      entry, children, trie := None, [Edge(text, child)], Trie(None, [Branch(text, child.trie)]);
      repr := child.repr + {this};
      new;
      assert Linked(0);
    }

    method SetEntry(e: Export)
      requires Valid()
      modifies this
      ensures Valid() && repr == old(repr) && trie == Trie(Some(e), old(trie.branches))
    {
      entry, trie := Some(e), Trie(Some(e), trie.branches);
      forall i | 0 <= i < |children| ensures Linked(i) { assert old(Linked(i)); }
      forall i, j | 0 <= i < j < |children| ensures Apart(i, j) { assert old(Apart(i, j)); }
    }

    method AddLeaf(rest: seq<Byte>, e: Export)
      requires Valid()
      modifies this
      ensures Valid() && fresh(repr - old(repr))
      ensures trie == Trie(old(trie.entry), old(trie.branches) + [Branch(rest, Trie(Some(e), []))])
    {
      var leaf := new Node(Some(e));
      children, repr := children + [Edge(rest, leaf)], repr + leaf.repr;
      trie := Trie(trie.entry, trie.branches + [Branch(rest, leaf.trie)]);
      forall i | 0 <= i < |children| ensures Linked(i) {
        if i < |old(children)| { assert old(Linked(i)); }
      }
      forall i, j | 0 <= i < j < |children| ensures Apart(i, j) {
        assert Linked(i) && Linked(j);
        if j < |old(children)| { assert old(Apart(i, j)); } else { assert old(Linked(i)); }
      }
    }

    /** Puts `child` in place `i`, every other child being in order. */
    method Link(i: nat, text: seq<Byte>, child: Node)
      requires this in repr && trie.entry == entry && |trie.branches| == |children| && i < |children|
      requires forall j :: 0 <= j < |children| && j != i ==> Linked(j)
      requires forall j, k :: 0 <= j < k < |children| && j != i && k != i ==> Apart(j, k)
      requires child.Valid() && this !in child.repr && forall j :: 0 <= j < |children| && j != i ==>
               children[j].node.repr !! child.repr
      modifies this
      ensures Valid() && repr == old(repr) + child.repr
      ensures trie == Trie(old(trie.entry), old(trie.branches)[i := Branch(text, child.trie)])
    {
      children := children[i := Edge(text, child)];
      repr := repr + child.repr;
      trie := Trie(trie.entry, trie.branches[i := Branch(text, child.trie)]);
      forall j | 0 <= j < |children| ensures Linked(j) {
        if j != i { assert old(Linked(j)); }
      }
      forall j, k | 0 <= j < k < |children| ensures Apart(j, k) {
        assert Linked(j) && Linked(k);
        if j != i && k != i { assert old(Apart(j, k)); }
      }
    }

    /** The first edge that shares a byte with `rest`. */
    method FindEdge(rest: seq<Byte>) returns (i: nat)
      requires Valid()
      ensures i == Follow(trie.branches, rest) <= |children|
    {
      i := 0;
      while i < |children| && Common(children[i].text, rest) == 0
        invariant 0 <= i <= |children| && Follow(trie.branches, rest) == Follow(trie.branches, rest, i)
      {
        assert Linked(i);
        i := i + 1;
      }
      if i < |children| { assert Linked(i); }
    }

    /** Adds an export below this node, cutting an edge where names part. False reports a duplicate name. */
    method Insert(rest: seq<Byte>, e: Export) returns (ok: bool)
      requires Valid()
      modifies repr
      ensures ok <==> ExportTrie.Insert(old(trie), rest, e).Ok?
      ensures ok ==> Valid() && fresh(repr - old(repr)) && trie == ExportTrie.Insert(old(trie), rest, e).value
      decreases |rest|, 1
    {
      if rest == [] {
        if entry.Some? { return false; }
        SetEntry(e);
        return true;
      }
      var i := FindEdge(rest);
      if i == |children| {
        AddLeaf(rest, e);
        return true;
      }
      ok := InsertBelow(i, rest, e);
    }

    method InsertBelow(i: nat, rest: seq<Byte>, e: Export) returns (ok: bool)
      requires Valid() && i < |children| && rest != [] && Common(trie.branches[i].text, rest) > 0
      modifies repr
      ensures var n := Common(old(trie.branches[i].text), rest);
              var cut := Split(old(trie.branches[i]), n);
              var below := ExportTrie.Insert(cut.child, rest[n..], e);
              && (ok <==> below.Ok?)
              && (ok ==> Valid() && fresh(repr - old(repr))
                         && trie == Trie(old(trie.entry), old(trie.branches)[i := Branch(cut.text, below.value)]))
      decreases |rest|, 0
    {
      assert Linked(i);
      var text, child := children[i].text, children[i].node;
      var n := Common(text, rest);
      if n < |text| {
        child := new Node.Above(text[n..], child);
        text := text[..n];
      }
      forall j | 0 <= j < |children| && j != i ensures Linked(j) && children[j].node.repr !! child.repr {
        assert old(Linked(j)) && (if j < i then old(Apart(j, i)) else old(Apart(i, j)));
      }
      ok := child.Insert(rest[n..], e);
      if ok {
        forall j | 0 <= j < |children| && j != i ensures Linked(j) && children[j].node.repr !! child.repr {
          assert old(Linked(j)) && (if j < i then old(Apart(j, i)) else old(Apart(i, j)));
        }
        forall j, k | 0 <= j < k < |children| && j != i && k != i ensures Apart(j, k) { assert old(Apart(j, k)); }
        Link(i, text, child);
      }
    }

    /** This node and all below it in preorder, children named by their place in the list, this node's being `base`. */
    method Preorder(base: nat) returns (order: seq<Listed>)
      requires Valid()
      ensures order == Collect(trie, base)
      decreases repr
    {
      var edges: seq<Child>, below: seq<Listed> := [], [];
      PreorderStarts(trie.branches, base);
      for i := 0 to |children|
        invariant PreorderUpTo(trie.branches, i, edges, below, base)
      {
        assert Linked(i);
        var at := base + 1 + |below|;
        var part := children[i].node.Preorder(at);
        PreorderSteps(trie.branches, i, edges, below, base);
        edges, below := edges + [Child(children[i].text, at)], below + part;
      }
      PreorderEnds(trie, edges, below, base);
      order := [Listed(entry, edges)] + below;
    }
  }

  /** The first `i` branches are listed; the other ones would complete the list. */
  ghost predicate PreorderUpTo(branches: seq<Branch>, i: nat, edges: seq<Child>, below: seq<Listed>, base: nat) {
    i <= |branches| && EdgesUpTo(branches, i, edges, base + 1 + |below|, base) && ListedUpTo(branches, i, below, base)
  }

  ghost predicate EdgesUpTo(branches: seq<Branch>, i: nat, edges: seq<Child>, at: nat, base: nat)
    requires i <= |branches|
  {
    edges + Children(branches[i..], at) == Children(branches, base + 1)
  }

  ghost predicate ListedUpTo(branches: seq<Branch>, i: nat, below: seq<Listed>, base: nat)
    requires i <= |branches|
  {
    below + CollectAll(branches[i..], base + 1 + |below|) == CollectAll(branches, base + 1)
  }

  lemma PreorderStarts(branches: seq<Branch>, base: nat)
    ensures PreorderUpTo(branches, 0, [], [], base)
  {
    assert branches[0..] == branches;
  }

  lemma PreorderEnds(t: Trie, edges: seq<Child>, below: seq<Listed>, base: nat)
    requires PreorderUpTo(t.branches, |t.branches|, edges, below, base)
    ensures [Listed(t.entry, edges)] + below == Collect(t, base)
  {
    assert t.branches[|t.branches|..] == [];
    assert edges + [] == edges && below + [] == below;
  }

  lemma PreorderSteps(branches: seq<Branch>, i: nat, edges: seq<Child>, below: seq<Listed>, base: nat)
    requires i < |branches| && PreorderUpTo(branches, i, edges, below, base)
    ensures var at := base + 1 + |below|;
            PreorderUpTo(branches, i + 1, edges + [Child(branches[i].text, at)], below + Collect(branches[i].child, at),
                         base)
  {
    EdgesStep(branches, i, edges, base + 1 + |below|, base);
    ListedStep(branches, i, below, base);
  }

  lemma EdgesStep(branches: seq<Branch>, i: nat, edges: seq<Child>, at: nat, base: nat)
    requires i < |branches| && EdgesUpTo(branches, i, edges, at, base)
    ensures EdgesUpTo(branches, i + 1, edges + [Child(branches[i].text, at)], at + Size(branches[i].child), base)
  {
    var rest := branches[i..];
    assert rest[1..] == branches[i + 1..];
    Regroup(edges, [Child(branches[i].text, at)], Children(rest[1..], at + Size(branches[i].child)));
  }

  lemma ListedStep(branches: seq<Branch>, i: nat, below: seq<Listed>, base: nat)
    requires i < |branches| && ListedUpTo(branches, i, below, base)
    ensures ListedUpTo(branches, i + 1, below + Collect(branches[i].child, base + 1 + |below|), base)
  {
    var rest, at := branches[i..], base + 1 + |below|;
    assert rest[1..] == branches[i + 1..];
    Regroup(below, Collect(branches[i].child, at), CollectAll(rest[1..], at + Size(branches[i].child)));
  }

  lemma Regroup<T>(a: seq<T>, b: seq<T>, c: seq<T>)
    ensures a + (b + c) == a + b + c
  {
  }
}
