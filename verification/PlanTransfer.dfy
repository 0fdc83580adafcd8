/** A plan of objects saved to bytes and loaded from them: its values and the tables that point at them. */
module PlanTransfer {
  import opened Wrappers
  import opened Uleb128
  import opened PlanCodec
  import opened PlanLayout
  import opened PlanEntries
  import opened PlanTables
  import opened PlanPointers
  import opened PlanStreams
  import opened PlanObjects

  datatype ObjectPlan = ObjectPlan(head: seq<nat>, blocks: seq<IrBlock>, storage: seq<IrValue>,
                                   tables: Tables<IrValue?>)

  // ----- Places and pointers

  function FirstPlace(storage: seq<IrValue>, v: IrValue): Index {
    if storage == [] then None
    else if storage[0] == v then Some(0)
    else match FirstPlace(storage[1..], v) case None => None case Some(k) => Some(k + 1)
  }

  /** The place of what a pointer points at, none for a null pointer. */
  function PlaceOf(storage: seq<IrValue>, v: IrValue?): Index { if v == null then None else FirstPlace(storage, v) }

  function TargetOf(storage: seq<IrValue>, i: Index): IrValue? {
    if i.Some? && i.value < |storage| then storage[i.value] else null
  }

  function Placer(storage: seq<IrValue>): IrValue? -> Index { (v: IrValue?) => PlaceOf(storage, v) }
  function Pointer(storage: seq<IrValue>): Index -> IrValue? { (i: Index) => TargetOf(storage, i) }

  /** The pointers that stay inside a storage. */
  function Inside(storage: seq<IrValue>): IrValue? -> bool { (v: IrValue?) => v == null || v in storage }

  lemma {:induction false} FirstPlaceOf(storage: seq<IrValue>, k: nat)
    requires Distinct(storage) && k < |storage|
    ensures FirstPlace(storage, storage[k]) == Some(k)
    decreases k
  {
    if k > 0 {
      assert storage[0] != storage[k];
      FirstPlaceOf(storage[1..], k - 1);
    }
  }

  /** Places and pointers are inverse to each other. */
  lemma PlaceOfTarget(storage: seq<IrValue>, i: Index)
    requires Distinct(storage) && Below(|storage|)(i)
    ensures PlaceOf(storage, TargetOf(storage, i)) == i && Inside(storage)(TargetOf(storage, i))
  {
    if i.Some? { FirstPlaceOf(storage, i.value); }
  }

  lemma NamedPlace(storage: seq<IrValue>, v: IrValue, k: nat)
    requires Distinct(storage) && Names(storage, v, k)
    ensures PlaceOf(storage, v) == Some(k)
  {
    FirstPlaceOf(storage, k);
  }

  // ----- What describes a plan, and plans alike

  /** The tables with places for pointers. */
  function Placed(storage: seq<IrValue>, t: Tables<IrValue?>): Tables<Index> { MapTables(t, Placer(storage)) }

  ghost predicate DescribesPlan(p: ObjectPlan, plan: Plan)
    reads set v <- p.storage
  {
    && plan.head == p.head && Describes(p.storage, p.blocks, plan.blockIds, plan.nodes)
    && AllPointers(p.tables, Inside(p.storage)) && plan.tables == Placed(p.storage, p.tables)
  }

  /** Nothing points outside: neither values nor tables. */
  ghost predicate Owned(p: ObjectPlan)
    reads set v <- p.storage
  {
    (forall i :: 0 <= i < |p.storage| ==> OwnedValue(p.storage, p.blocks, p.storage[i]))
      && AllPointers(p.tables, Inside(p.storage))
  }

  /** `q` has the same values, edges and blocks place by place, and the same tables, pointing at the same places; only
      image modes that were prepared for no images are not. */
  ghost predicate ComesBack(p: ObjectPlan, q: ObjectPlan)
    reads set v <- p.storage, set v <- q.storage
  {
    && q.head == p.head && Isomorphic(p.storage, p.blocks, q.storage, q.blocks)
    && AllPointers(p.tables, Inside(p.storage)) && AllPointers(q.tables, Inside(q.storage))
    && Placed(q.storage, q.tables) == Settled(Placed(p.storage, p.tables))
  }

  // ----- Saving

  /** Places of the map are places in the storage. */
  ghost predicate Indexes(storage: seq<IrValue>, places: map<IrValue, nat>) {
    (forall i :: 0 <= i < |storage| ==> storage[i] in places) && forall x <- places :: Names(storage, x, places[x])
  }

  method DescribePointer(v: IrValue?, places: map<IrValue, nat>, ghost storage: seq<IrValue>)
    returns (owned: bool, place: Index)
    requires Distinct(storage) && Indexes(storage, places)
    ensures owned <==> Inside(storage)(v)
    ensures owned ==> place == Placer(storage)(v)
  {
    if v == null { return true, None; }
    if v !in places { return false, None; }
    NamedPlace(storage, v, places[v]);
    return true, Some(places[v]);
  }

  method DescribePointers(vs: seq<IrValue?>, places: map<IrValue, nat>, ghost storage: seq<IrValue>)
    returns (owned: bool, indices: seq<Index>)
    requires Distinct(storage) && Indexes(storage, places)
    ensures owned <==> AllOf(vs, Inside(storage))
    ensures owned ==> indices == MapAll(vs, Placer(storage))
  {
    owned, indices := true, [];
    for k := 0 to |vs|
      invariant |indices| == k && (owned <==> forall i :: 0 <= i < k ==> Inside(storage)(vs[i]))
      invariant owned ==> forall i :: 0 <= i < k ==> indices[i] == Placer(storage)(vs[i])
    {
      var one, place := DescribePointer(vs[k], places, storage);
      owned, indices := owned && one, indices + [place];
    }
  }

  method DescribeSources(sources: seq<Source<IrValue?>>, places: map<IrValue, nat>, ghost storage: seq<IrValue>)
    returns (owned: bool, described: seq<Source<Index>>)
    requires Distinct(storage) && Indexes(storage, places)
    ensures owned <==> forall i :: 0 <= i < |sources| ==> AllOf(sources[i].dwords, Inside(storage))
    ensures owned ==> |described| == |sources| && forall i :: 0 <= i < |sources| ==>
            described[i] == MapSource(sources[i], Placer(storage))
  {
    owned, described := true, [];
    for k := 0 to |sources|
      invariant |described| == k && (owned <==> forall i :: 0 <= i < k ==> AllOf(sources[i].dwords, Inside(storage)))
      invariant owned ==> forall i :: 0 <= i < k ==> described[i] == MapSource(sources[i], Placer(storage))
    {
      var one, dwords := DescribePointers(sources[k].dwords, places, storage);
      owned, described := owned && one, described + [Source(dwords, sources[k].dwordCount, sources[k].column)];
    }
  }

  method DescribeFlow(flow: seq<ControlBlock<IrValue?>>, places: map<IrValue, nat>, ghost storage: seq<IrValue>)
    returns (owned: bool, described: seq<ControlBlock<Index>>)
    requires Distinct(storage) && Indexes(storage, places)
    ensures owned <==> forall i :: 0 <= i < |flow| ==> Inside(storage)(flow[i].condition)
    ensures owned ==> |described| == |flow| && forall i :: 0 <= i < |flow| ==>
            described[i] == MapBlock(flow[i], Placer(storage))
  {
    owned, described := true, [];
    for k := 0 to |flow|
      invariant |described| == k && (owned <==> forall i :: 0 <= i < k ==> Inside(storage)(flow[i].condition))
      invariant owned ==> forall i :: 0 <= i < k ==> described[i] == MapBlock(flow[i], Placer(storage))
    {
      var one, place := DescribePointer(flow[k].condition, places, storage);
      owned, described := owned && one,
          described + [ControlBlock(place, flow[k].successors, flow[k].sources, flow[k].images)];
    }
  }

  method DescribeReads(entries: seq<SrtRead<IrValue?>>, places: map<IrValue, nat>, ghost storage: seq<IrValue>)
    returns (owned: bool, described: seq<SrtRead<Index>>)
    requires Distinct(storage) && Indexes(storage, places)
    ensures owned <==> forall i :: 0 <= i < |entries| ==> Inside(storage)(entries[i].value)
    ensures owned ==> |described| == |entries| && forall i :: 0 <= i < |entries| ==>
            described[i] == MapRead(entries[i], Placer(storage))
  {
    owned, described := true, [];
    for k := 0 to |entries|
      invariant |described| == k && (owned <==> forall i :: 0 <= i < k ==> Inside(storage)(entries[i].value))
      invariant owned ==> forall i :: 0 <= i < k ==> described[i] == MapRead(entries[i], Placer(storage))
    {
      var one, place := DescribePointer(entries[k].value, places, storage);
      owned, described := owned && one, described + [SrtRead(place, entries[k].flatOffset)];
    }
  }

  method DescribeTables(t: Tables<IrValue?>, storage: seq<IrValue>) returns (owned: bool, described: Tables<Index>)
    requires Distinct(storage)
    ensures owned <==> AllPointers(t, Inside(storage))
    ensures owned ==> described == Placed(storage, t)
  {
    var places := IndexOf(storage);
    var sourcesOwned, sources := DescribeSources(t.sources, places, storage);
    var flowOwned, flow := DescribeFlow(t.controlFlow, places, storage);
    var entriesOwned, entries := DescribeReads(t.srtReads, places, storage);
    var fillOwned, fill := DescribePointers(t.fill, places, storage);
    owned := sourcesOwned && flowOwned && entriesOwned && fillOwned;
    described := Tables(t.memory, sources, flow, t.materialization, entries, t.guardedSlots, t.guardOffset,
                        t.cleanSlots, t.pureSlots, t.flags,
                        t.info, t.fillFields, fill);
    if owned {
      var placed := Placed(storage, t);
      assert sources == placed.sources && flow == placed.controlFlow && entries == placed.srtReads
          && fill == placed.fill;
    }
  }

  /** The bytes of a plan, unless something points outside it. */
  method Save(p: ObjectPlan) returns (owned: bool, bytes: seq<Byte>, ghost plan: Plan)
    requires Distinct(p.storage) && Distinct(p.blocks) && forall v <- p.storage :: v.Valid()
    ensures owned <==> Owned(p)
    ensures owned ==> DescribesPlan(p, plan) && bytes == EncodePlan(plan)
  {
    var valuesOwned, blockIds, nodes := Describe(p.storage, p.blocks);
    var tablesOwned, tables := DescribeTables(p.tables, p.storage);
    owned, bytes := valuesOwned && tablesOwned, [];
    plan := Plan(p.head, blockIds, nodes, tables);
    if owned { bytes := WritePlan(Plan(p.head, blockIds, nodes, tables)); }
  }

  // ----- Loading

  lemma RestoredPlaced(t: Tables<Index>, storage: seq<IrValue>)
    requires Distinct(storage) && AllPointers(t, Below(|storage|))
    ensures var restored := MapTables(t, Pointer(storage));
            Placed(storage, restored) == t && AllPointers(restored, Inside(storage))
  {
    forall i: Index | Below(|storage|)(i) ensures Placer(storage)(Pointer(storage)(i)) == i
        && Inside(storage)(Pointer(storage)(i)) {
      PlaceOfTarget(storage, i);
    }
    MapTablesBack(t, Pointer(storage), Placer(storage), Below(|storage|));
    MapTablesInside(t, Pointer(storage), Below(|storage|), Inside(storage));
  }

  lemma MapTablesInside(t: Tables<Index>, f: Index -> IrValue?, p: Index -> bool, q: IrValue? -> bool)
    requires AllPointers(t, p) && forall i: Index :: p(i) ==> q(f(i))
    ensures AllPointers(MapTables(t, f), q)
  {
  }

  /** The plan of an entry, rebuilt in new objects; nothing when the entry is not accepted. */
  method Load(data: seq<Byte>) returns (p: Option<ObjectPlan>)
    requires |data| <= 0x1_0000_0000
    ensures p.Some? <==> DecodePlan(data).Some?
    ensures p.Some? ==> DescribesPlan(p.value, DecodePlan(data).value) && Distinct(p.value.storage)
                        && Distinct(p.value.blocks)
    ensures p.Some? ==> (forall v <- p.value.storage :: fresh(v)) && forall b <- p.value.blocks :: fresh(b)
  {
    var plan := LoadPlan(data);
    if plan.None? { return None; }
    PlanEncodes(data);
    RunBack(plan.value.blockIds);
    var storage, blocks := Restore(plan.value.blockIds, plan.value.nodes);
    TablesPointersFit(plan.value.tables, |storage|);
    RestoredPlaced(plan.value.tables, storage);
    var tables := MapTables(plan.value.tables, Pointer(storage));
    p := Some(ObjectPlan(plan.value.head, blocks, storage, tables));
  }

  // ----- There and back

  /** A plan that was saved comes back when its bytes are loaded: values, operands, phi blocks and every table with its
      pointers, forward and circular ones included. */
  lemma PlanComesBack(p: ObjectPlan, plan: Plan, q: ObjectPlan, back: Plan)
    requires DescribesPlan(p, plan) && FitsPlan(plan) && DecodePlan(EncodePlan(plan)) == Some(back)
             && DescribesPlan(q, back)
    requires Distinct(p.storage) && Distinct(p.blocks) && Distinct(q.storage) && Distinct(q.blocks)
    ensures ComesBack(p, q)
  {
    PlanDecodes(plan);
    SameDescription(p.storage, p.blocks, q.storage, q.blocks, plan.blockIds, plan.nodes);
  }

  /** A plan has one description. */
  lemma OnePlan(p: ObjectPlan, a: Plan, b: Plan)
    requires DescribesPlan(p, a) && DescribesPlan(p, b) && Distinct(p.storage) && Distinct(p.blocks)
    ensures a == b
  {
    forall i | 0 <= i < |p.storage| ensures a.nodes[i] == b.nodes[i] {
      OneNode(p.storage, p.blocks, p.storage[i], a.nodes[i], b.nodes[i]);
    }
    assert a.nodes == b.nodes && a.blockIds == b.blockIds;
  }

  lemma OneNode(storage: seq<IrValue>, blocks: seq<IrBlock>, v: IrValue, m: Node, n: Node)
    requires DescribesValue(storage, blocks, v, m) && DescribesValue(storage, blocks, v, n) && Distinct(storage)
             && Distinct(blocks)
    ensures m == n
  {
    forall k | 0 <= k < |m.arguments| ensures m.arguments[k] == n.arguments[k] {
      assert NamesArgument(storage, v.arguments[k], m.arguments[k])
          && NamesArgument(storage, v.arguments[k], n.arguments[k]);
    }
    assert m.arguments == n.arguments;
    forall k | 0 <= k < |m.phis| ensures m.phis[k] == n.phis[k] {
      assert Names(blocks, v.phiBlocks[k], m.phis[k]) && Names(blocks, v.phiBlocks[k], n.phis[k]);
    }
    assert m.phis == n.phis;
  }

  /** Saving and loading as one: it gives the plan back whenever nothing points outside and indices are in range. */
  method SaveAndLoad(p: ObjectPlan, ghost described: Plan) returns (q: Option<ObjectPlan>)
    requires Distinct(p.storage) && Distinct(p.blocks) && forall v <- p.storage :: v.Valid()
    requires Owned(p) ==> DescribesPlan(p, described) && FitsPlan(described) && |EncodePlan(described)| <= 0x1_0000_0000
    ensures q.Some? <==> Owned(p) && ValidTables(Placed(p.storage, p.tables))
    ensures q.Some? ==> ComesBack(p, q.value)
  {
    var owned, bytes, plan := Save(p);
    if !owned { return None; }
    OnePlan(p, plan, described);
    PlanDecodes(plan);
    q := Load(bytes);
    if q.Some? { PlanComesBack(p, plan, q.value, DecodePlan(bytes).value); }
  }
}
