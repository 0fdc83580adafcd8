/** The value graph as objects that point at each other: indexing it for the encoder, and rebuilding it from what the
decoder read. */
module PlanObjects {
  import opened Wrappers
  import opened PlanCodec
  import opened PlanTables

  class IrBlock {
    const id: nat

    constructor (id: nat)
      ensures this.id == id
    {
      this.id := id;
    }
  }

  class IrValue {
    const opcode: nat
    const typ: nat
    const id: nat
    var flags: nat
    var bank: nat
    var register: nat
    var immediate: Option<nat>
    var arguments: seq<IrValue?>
    var phiBlocks: seq<IrBlock?>

    constructor (opcode: nat, typ: nat, id: nat)
      ensures this.opcode == opcode && this.typ == typ && this.id == id && arguments == [] && phiBlocks == []
    {
      this.opcode, this.typ, this.id := opcode, typ, id;
      flags, bank, register, immediate, arguments, phiBlocks := 0, 0, 0, None, [], [];
    }

    /** Only a phi has phi blocks. */
    predicate Valid()
      reads this
    {
      opcode != PHI ==> phiBlocks == []
    }

    method SetDetachedOperands(arguments: seq<IrValue?>, phiBlocks: seq<IrBlock?>)
      requires this.arguments == [] && this.phiBlocks == [] && |phiBlocks| == if opcode == PHI then |arguments| else 0
      modifies this`arguments, this`phiBlocks
      ensures this.arguments == arguments && this.phiBlocks == phiBlocks && Valid()
    {
      this.arguments, this.phiBlocks := arguments, phiBlocks;
    }
  }

  ghost predicate Distinct<T>(storage: seq<T>) { forall i, j :: 0 <= i < j < |storage| ==> storage[i] != storage[j] }

  // ----- A graph and its description

  /** `place` is where `target` is stored. */
  ghost predicate Names<T>(storage: seq<T>, target: T, place: nat) { place < |storage| && storage[place] == target }

  ghost predicate NamesArgument(storage: seq<IrValue>, target: IrValue?, argument: Option<nat>) {
    if target == null then argument == None else argument.Some? && Names(storage, target, argument.value)
  }

  ghost predicate SameFields(v: IrValue, n: Node)
    reads v
  {
    v.opcode == n.opcode && v.typ == n.typ && v.id == n.id && v.flags == n.flags && v.bank == n.bank
      && v.register == n.register && v.immediate == n.immediate
  }

  ghost predicate DescribesValue(storage: seq<IrValue>, blocks: seq<IrBlock>, v: IrValue, n: Node)
    reads v
  {
    && SameFields(v, n) && |n.arguments| == |v.arguments| && |n.phis| == |v.phiBlocks|
    && (forall k :: 0 <= k < |v.arguments| ==> NamesArgument(storage, v.arguments[k], n.arguments[k]))
    && (forall k :: 0 <= k < |v.phiBlocks| ==> v.phiBlocks[k] != null && Names(blocks, v.phiBlocks[k], n.phis[k]))
  }

  ghost predicate Describes(storage: seq<IrValue>, blocks: seq<IrBlock>, blockIds: seq<nat>, nodes: seq<Node>)
    reads set v <- storage
  {
    && |blockIds| == |blocks| && (forall b :: 0 <= b < |blocks| ==> blocks[b].id == blockIds[b])
    && |nodes| == |storage| && (forall i :: 0 <= i < |storage| ==>
                                DescribesValue(storage, blocks, storage[i], nodes[i]))
  }

  /** Two graphs with the same values, edges and phi blocks, place by place. */
  ghost predicate Isomorphic(storage: seq<IrValue>, blocks: seq<IrBlock>, other: seq<IrValue>,
                             otherBlocks: seq<IrBlock>)
    reads set v <- storage, set v <- other
  {
    && |storage| == |other| && |blocks| == |otherBlocks|
    && (forall b :: 0 <= b < |blocks| ==> blocks[b].id == otherBlocks[b].id)
    && (forall i :: 0 <= i < |storage| ==> SameValue(storage, blocks, storage[i], other, otherBlocks, other[i]))
  }

  ghost predicate SameValue(storage: seq<IrValue>, blocks: seq<IrBlock>, v: IrValue, other: seq<IrValue>,
                            otherBlocks: seq<IrBlock>, w: IrValue)
    reads v, w
  {
    && v.opcode == w.opcode && v.typ == w.typ && v.id == w.id && v.flags == w.flags && v.bank == w.bank
    && v.register == w.register && v.immediate == w.immediate
    && |v.arguments| == |w.arguments| && |v.phiBlocks| == |w.phiBlocks|
    && (forall k :: 0 <= k < |v.arguments| ==> SameTarget(storage, v.arguments[k], other, w.arguments[k]))
    && (forall k :: 0 <= k < |v.phiBlocks| ==> SameTarget(blocks, v.phiBlocks[k], otherBlocks, w.phiBlocks[k]))
  }

  /** Both point at the same place, or nowhere. */
  ghost predicate SameTarget<T>(storage: seq<T>, target: T, other: seq<T>, otherTarget: T) {
    (target in storage <==> otherTarget in other)
      && (|storage| == |other| ==> forall j :: 0 <= j < |storage| ==>
          (storage[j] == target <==> other[j] == otherTarget))
  }

  lemma NamedAlike<T>(storage: seq<T>, target: T, other: seq<T>, otherTarget: T, place: nat)
    requires Names(storage, target, place) && Names(other, otherTarget, place) && Distinct(storage) && Distinct(other)
    ensures SameTarget(storage, target, other, otherTarget)
  {
    if |storage| == |other| {
      forall j | 0 <= j < |storage| ensures storage[j] == target <==> other[j] == otherTarget {
        if j < place { assert storage[j] != storage[place] && other[j] != other[place]; }
        if j > place { assert storage[place] != storage[j] && other[place] != other[j]; }
      }
    }
  }

  lemma DescribedAlike(storage: seq<IrValue>, blocks: seq<IrBlock>, v: IrValue, other: seq<IrValue>,
                       otherBlocks: seq<IrBlock>, w: IrValue, n: Node)
    requires DescribesValue(storage, blocks, v, n) && DescribesValue(other, otherBlocks, w, n)
    requires Distinct(storage) && Distinct(other) && Distinct(blocks) && Distinct(otherBlocks)
    ensures SameValue(storage, blocks, v, other, otherBlocks, w)
  {
    forall k | 0 <= k < |v.arguments| ensures SameTarget<IrValue?>(storage, v.arguments[k], other, w.arguments[k]) {
      assert NamesArgument(storage, v.arguments[k], n.arguments[k])
          && NamesArgument(other, w.arguments[k], n.arguments[k]);
      if n.arguments[k].Some? {
        NamedAlike<IrValue?>(storage, v.arguments[k], other, w.arguments[k], n.arguments[k].value);
      }
    }
    forall k | 0 <= k < |v.phiBlocks|
      ensures SameTarget<IrBlock?>(blocks, v.phiBlocks[k], otherBlocks, w.phiBlocks[k]) {
      NamedAlike<IrBlock?>(blocks, v.phiBlocks[k], otherBlocks, w.phiBlocks[k], n.phis[k]);
    }
  }

  /** Graphs with one description are isomorphic. */
  lemma SameDescription(storage: seq<IrValue>, blocks: seq<IrBlock>, other: seq<IrValue>, otherBlocks: seq<IrBlock>,
                        blockIds: seq<nat>, nodes: seq<Node>)
    requires Describes(storage, blocks, blockIds, nodes) && Describes(other, otherBlocks, blockIds, nodes)
    requires Distinct(storage) && Distinct(other) && Distinct(blocks) && Distinct(otherBlocks)
    ensures Isomorphic(storage, blocks, other, otherBlocks)
  {
    forall i | 0 <= i < |storage| ensures SameValue(storage, blocks, storage[i], other, otherBlocks, other[i]) {
      DescribedAlike(storage, blocks, storage[i], other, otherBlocks, other[i], nodes[i]);
    }
  }

  // ----- Indexing a graph

  ghost predicate AllInside(blocks: seq<IrBlock>, targets: seq<IrBlock?>) {
    forall k :: 0 <= k < |targets| ==> targets[k] != null && targets[k] in blocks
  }

  /** Everything a value points at is in the storage, and a phi has a block for each argument. */
  ghost predicate OwnedValue(storage: seq<IrValue>, blocks: seq<IrBlock>, v: IrValue)
    reads v
  {
    && v.bank < 16 && (forall a: IrValue? <- v.arguments :: a == null || a in storage)
    && (v.opcode == PHI ==> |v.phiBlocks| == |v.arguments| && AllInside(blocks, v.phiBlocks))
  }

  method IndexOf<T(==)>(storage: seq<T>) returns (index: map<T, nat>)
    requires Distinct(storage)
    ensures forall x :: x in index <==> x in storage
    ensures forall x <- index :: Names(storage, x, index[x])
  {
    index := map[];
    for i := 0 to |storage|
      invariant forall x :: x in index <==> x in storage[..i]
      invariant forall x <- index :: Names(storage, x, index[x])
    {
      index := index[storage[i] := i];
    }
    assert storage[..|storage|] == storage;
  }

  method DescribeArguments(storage: seq<IrValue>, v: IrValue, values: map<IrValue, nat>)
    returns (owned: bool, places: seq<Option<nat>>)
    requires (forall x :: x in values <==> x in storage) && forall x <- values :: Names(storage, x, values[x])
    ensures owned <==> forall a: IrValue? <- v.arguments :: a == null || a in storage
    ensures owned ==> |places| == |v.arguments| && forall k :: 0 <= k < |places| ==>
            NamesArgument(storage, v.arguments[k], places[k])
  {
    owned, places := true, [];
    for k := 0 to |v.arguments|
      invariant |places| == k
      invariant owned <==> forall a: IrValue? <- v.arguments[..k] :: a == null || a in storage
      invariant owned ==> forall i :: 0 <= i < k ==> NamesArgument(storage, v.arguments[i], places[i])
    {
      var a := v.arguments[k];
      assert v.arguments[..k + 1] == v.arguments[..k] + [a];
      if a == null {
        places := places + [None];
      } else if a in values {
        places := places + [Some(values[a])];
      } else {
        owned, places := false, places + [None];
      }
    }
    assert v.arguments[..|v.arguments|] == v.arguments;
  }

  method DescribePhis(blocks: seq<IrBlock>, v: IrValue, ids: map<IrBlock, nat>) returns (owned: bool, places: seq<nat>)
    requires (forall x :: x in ids <==> x in blocks) && forall x <- ids :: Names(blocks, x, ids[x])
    ensures owned <==> AllInside(blocks, v.phiBlocks)
    ensures owned ==> |places| == |v.phiBlocks| && forall k :: 0 <= k < |places| ==>
            v.phiBlocks[k] != null
            && Names(blocks, v.phiBlocks[k], places[k])
  {
    owned, places := true, [];
    for k := 0 to |v.phiBlocks|
      invariant |places| == k
      invariant owned <==> AllInside(blocks, v.phiBlocks[..k])
      invariant owned ==> forall i :: 0 <= i < k ==> v.phiBlocks[i] != null && Names(blocks, v.phiBlocks[i], places[i])
    {
      var b := v.phiBlocks[k];
      assert v.phiBlocks[..k + 1] == v.phiBlocks[..k] + [b];
      if b != null && b in ids {
        places := places + [ids[b]];
      } else {
        owned, places := false, places + [0];
      }
    }
    assert v.phiBlocks[..|v.phiBlocks|] == v.phiBlocks;
  }

  method DescribeValue(storage: seq<IrValue>, blocks: seq<IrBlock>, v: IrValue, values: map<IrValue, nat>,
                       ids: map<IrBlock, nat>)
    returns (owned: bool, node: Node)
    requires v.Valid()
    requires (forall x :: x in values <==> x in storage) && forall x <- values :: Names(storage, x, values[x])
    requires (forall x :: x in ids <==> x in blocks) && forall x <- ids :: Names(blocks, x, ids[x])
    ensures owned <==> OwnedValue(storage, blocks, v)
    ensures owned ==> DescribesValue(storage, blocks, v, node)
                      && |node.phis| == if v.opcode == PHI then |node.arguments| else 0
  {
    var argumentsOwned, arguments := DescribeArguments(storage, v, values);
    var phisOwned, phis := true, [];
    if v.opcode == PHI {
      phisOwned, phis := DescribePhis(blocks, v, ids);
      phisOwned := phisOwned && |v.phiBlocks| == |v.arguments|;
    }
    owned := argumentsOwned && phisOwned && v.bank < 16;
    node := Node(v.opcode, v.typ, v.id, v.flags, v.bank, v.register, v.immediate, arguments, phis);
  }

  /** The description of a graph, or that it points outside its own storage. */
  method Describe(storage: seq<IrValue>, blocks: seq<IrBlock>)
    returns (owned: bool, blockIds: seq<nat>, nodes: seq<Node>)
    requires Distinct(storage) && Distinct(blocks) && forall v <- storage :: v.Valid()
    ensures owned <==> forall i :: 0 <= i < |storage| ==> OwnedValue(storage, blocks, storage[i])
    ensures owned ==> Describes(storage, blocks, blockIds, nodes)
  {
    var values := IndexOf(storage);
    var ids := IndexOf(blocks);
    blockIds := seq(|blocks|, b requires 0 <= b < |blocks| => blocks[b].id);
    owned, nodes := true, [];
    for i := 0 to |storage|
      invariant |nodes| == i
      invariant owned <==> forall j :: 0 <= j < i ==> OwnedValue(storage, blocks, storage[j])
      invariant owned ==> forall j :: 0 <= j < i ==> DescribesValue(storage, blocks, storage[j], nodes[j])
    {
      var valueOwned, node := DescribeValue(storage, blocks, storage[i], values, ids);
      owned, nodes := owned && valueOwned, nodes + [node];
    }
  }

  // ----- Rebuilding a graph

  /** New values first, then their operands, since a graph may point forwards and in circles. */
  method Restore(blockIds: seq<nat>, nodes: seq<Node>) returns (storage: seq<IrValue>, blocks: seq<IrBlock>)
    requires FitsNodes(nodes, |blockIds|)
    ensures Describes(storage, blocks, blockIds, nodes) && Distinct(storage) && Distinct(blocks)
    ensures (forall v <- storage :: fresh(v)) && forall b <- blocks :: fresh(b)
  {
    blocks := CreateBlocks(blockIds);
    storage := CreateValues(nodes);
    for i := 0 to |storage|
      invariant forall j :: 0 <= j < |storage| ==> SameFields(storage[j], nodes[j])
      invariant forall j :: 0 <= j < i ==> DescribesValue(storage, blocks, storage[j], nodes[j])
      invariant forall j :: i <= j < |storage| ==> storage[j].arguments == [] && storage[j].phiBlocks == []
      invariant forall v <- storage :: fresh(v)
    {
      assert FitsNode(nodes[i], |storage|, |blocks|) && storage[i] in storage;
      var arguments := Targets(storage, nodes[i].arguments);
      var phiBlocks := PhiTargets(blocks, nodes[i].phis);
      storage[i].SetDetachedOperands(arguments, phiBlocks);
    }
  }

  method CreateBlocks(blockIds: seq<nat>) returns (blocks: seq<IrBlock>)
    ensures |blocks| == |blockIds| && Distinct(blocks) && (forall b <- blocks :: fresh(b))
    ensures forall k :: 0 <= k < |blocks| ==> blocks[k].id == blockIds[k]
  {
    blocks := [];
    for k := 0 to |blockIds|
      invariant |blocks| == k && Distinct(blocks) && forall b <- blocks :: fresh(b)
      invariant forall j :: 0 <= j < k ==> blocks[j].id == blockIds[j]
    {
      var block := new IrBlock(blockIds[k]);
      blocks := blocks + [block];
    }
  }

  method CreateValues(nodes: seq<Node>) returns (storage: seq<IrValue>)
    ensures |storage| == |nodes| && Distinct(storage) && forall v <- storage :: fresh(v)
    ensures forall j :: 0 <= j < |storage| ==> SameFields(storage[j], nodes[j]) && storage[j].arguments == []
                                               && storage[j].phiBlocks == []
  {
    storage := [];
    for i := 0 to |nodes|
      invariant |storage| == i && Distinct(storage) && forall v <- storage :: fresh(v)
      invariant forall j :: 0 <= j < i ==> SameFields(storage[j], nodes[j]) && storage[j].arguments == []
                                           && storage[j].phiBlocks == []
    {
      var n := nodes[i];
      var v := new IrValue(n.opcode, n.typ, n.id);
      v.flags, v.bank, v.register, v.immediate := n.flags, n.bank, n.register, n.immediate;
      storage := storage + [v];
    }
  }

  method Targets(storage: seq<IrValue>, arguments: seq<Option<nat>>) returns (targets: seq<IrValue?>)
    requires forall a <- arguments :: a.Some? ==> a.value < |storage|
    ensures |targets| == |arguments| && forall k :: 0 <= k < |targets| ==>
            NamesArgument(storage, targets[k], arguments[k])
  {
    targets := [];
    for k := 0 to |arguments|
      invariant |targets| == k && forall j :: 0 <= j < k ==> NamesArgument(storage, targets[j], arguments[j])
    {
      var a := arguments[k];
      assert a in arguments;
      if a.None? { targets := targets + [null]; } else { targets := targets + [storage[a.value]]; }
    }
  }

  method PhiTargets(blocks: seq<IrBlock>, phis: seq<nat>) returns (targets: seq<IrBlock?>)
    requires forall phi <- phis :: phi < |blocks|
    ensures |targets| == |phis| && forall k :: 0 <= k < |targets| ==>
            targets[k] != null
            && Names(blocks, targets[k], phis[k])
  {
    targets := [];
    for k := 0 to |phis|
      invariant |targets| == k && forall j :: 0 <= j < k ==> targets[j] != null && Names(blocks, targets[j], phis[j])
    {
      assert phis[k] in phis;
      targets := targets + [blocks[phis[k]]];
    }
  }
}
