/** The pointers in the tables of a plan. */
module PlanPointers {
  import opened Wrappers
  import opened Layouts
  import opened PlanLayout
  import opened PlanEntries
  import opened PlanAgain

  // ----- The same tables with other pointers

  function MapAll<P, Q>(ps: seq<P>, f: P -> Q): (qs: seq<Q>)
    ensures |qs| == |ps| && forall i :: 0 <= i < |ps| ==> qs[i] == f(ps[i])
  {
    seq(|ps|, i requires 0 <= i < |ps| => f(ps[i]))
  }

  function MapSource<P, Q>(s: Source<P>, f: P -> Q): Source<Q> { Source(MapAll(s.dwords, f), s.dwordCount, s.column) }
  function MapBlock<P, Q>(b: ControlBlock<P>, f: P -> Q): ControlBlock<Q> {
    ControlBlock(f(b.condition), b.successors, b.sources, b.images)
  }
  function MapRead<P, Q>(r: SrtRead<P>, f: P -> Q): SrtRead<Q> { SrtRead(f(r.value), r.flatOffset) }

  function MapTables<P, Q>(t: Tables<P>, f: P -> Q): Tables<Q> {
    Tables(t.memory, MapAll(t.sources, (s: Source<P>) => MapSource(s, f)),
           MapAll(t.controlFlow, (b: ControlBlock<P>) => MapBlock(b, f)), t.materialization,
           MapAll(t.srtReads, (r: SrtRead<P>) => MapRead(r, f)), t.guardedSlots, t.guardOffset, t.cleanSlots,
               t.pureSlots, t.flags, t.info, t.fillFields,
           MapAll(t.fill, f))
  }

  /** `p` holds of every pointer. */
  ghost predicate AllPointers<P>(t: Tables<P>, p: P -> bool) {
    && (forall i :: 0 <= i < |t.sources| ==> AllOf(t.sources[i].dwords, p))
    && (forall i :: 0 <= i < |t.controlFlow| ==> p(t.controlFlow[i].condition))
    && (forall i :: 0 <= i < |t.srtReads| ==> p(t.srtReads[i].value))
    && AllOf(t.fill, p)
  }

  ghost predicate AllOf<P>(ps: seq<P>, p: P -> bool) { forall i :: 0 <= i < |ps| ==> p(ps[i]) }

  lemma MapAllBack<P, Q>(ps: seq<P>, g: P -> Q, f: Q -> P)
    requires forall i :: 0 <= i < |ps| ==> f(g(ps[i])) == ps[i]
    ensures MapAll(MapAll(ps, g), f) == ps
  {
  }

  /** Pointers replaced and replaced back. */
  lemma MapTablesBack<P(!new), Q>(t: Tables<P>, g: P -> Q, f: Q -> P, p: P -> bool)
    requires AllPointers(t, p) && forall x :: p(x) ==> f(g(x)) == x
    ensures MapTables(MapTables(t, g), f) == t
  {
    var back := MapTables(MapTables(t, g), f);
    forall i | 0 <= i < |t.sources| ensures back.sources[i] == t.sources[i] { MapAllBack(t.sources[i].dwords, g, f); }
    assert back.sources == t.sources;
    assert back.controlFlow == t.controlFlow;
    assert back.srtReads == t.srtReads;
    MapAllBack(t.fill, g, f);
  }

  /** Only what the pointers are replaced by counts. */
  lemma MapTablesAlike<P(!new), Q>(t: Tables<P>, f: P -> Q, g: P -> Q, p: P -> bool)
    requires AllPointers(t, p) && forall x :: p(x) ==> f(x) == g(x)
    ensures MapTables(t, f) == MapTables(t, g)
  {
    var a, b := MapTables(t, f), MapTables(t, g);
    forall i | 0 <= i < |t.sources| ensures a.sources[i] == b.sources[i] {
      assert a.sources[i].dwords == b.sources[i].dwords;
    }
    assert a.sources == b.sources && a.controlFlow == b.controlFlow && a.srtReads == b.srtReads && a.fill == b.fill;
  }

  // ----- Indices in range

  function Below(values: nat): Index -> bool { (i: Index) => i.Some? ==> i.value < values }

  lemma PointersFit(n: nat, ps: seq<Index>, values: nat)
    requires Fits(Record(Repeat(Pointer, n)), Listed(ps, LiftPointer), values)
    ensures |ps| == n && AllOf(ps, Below(values))
  {
    var d := Listed(ps, LiftPointer);
    FitPartsAt(Repeat(Pointer, n), d.items, values);
    forall i | 0 <= i < |ps| ensures Below(values)(ps[i]) {
      ListedAt(ps, LiftPointer, i);
      assert Fits(Repeat(Pointer, n)[i], d.items[i], values);
    }
  }

  lemma SourcePointersFit(s: Source<Index>, values: nat)
    requires Fits(SourceShape(), LiftSource(s), values)
    ensures |s.dwords| == 8 && AllOf(s.dwords, Below(values))
  {
    SourceFits(LiftSource(s), values);
    PointersFit(8, s.dwords, values);
  }

  lemma RowFits<T>(minimum: nat, item: Shape, xs: seq<T>, lift: T -> Datum, values: nat)
    requires Fits(Many(minimum, item), Listed(xs, lift), values)
    ensures forall i :: 0 <= i < |xs| ==> Fits(item, lift(xs[i]), values)
  {
    FitItemsAt(item, Listed(xs, lift).items, values);
    forall i | 0 <= i < |xs| ensures Fits(item, lift(xs[i]), values) { ListedAt(xs, lift, i); }
  }

  lemma BlockPointerFits(b: ControlBlock<Index>, r: SrtRead<Index>, values: nat)
    ensures Fits(BlockShape(), LiftBlock(b), values) ==> Below(values)(b.condition)
    ensures Fits(SrtShape(), LiftSrt(r), values) ==> Below(values)(r.value)
  {
    FitFour(Pointer, Words(), Words(), Words(), LiftBlock(b), values);
    FitTwo(Pointer, W(), LiftSrt(r), values);
  }

  /** Tables that fit the layout point only at the values. */
  lemma TablesPointersFit(t: Tables<Index>, values: nat)
    requires Fits(TablesShape(), LiftTables(t), values)
    ensures AllPointers(t, Below(values)) && |t.fill| == 4
  {
    RowsOfFit(MemoryShape(), SourceShape(), BlockShape(), SrtShape(), InfoShape(), t, values);
    forall i | 0 <= i < |t.sources| ensures AllOf(t.sources[i].dwords, Below(values)) {
      SourcePointersFit(t.sources[i], values);
    }
    forall i | 0 <= i < |t.controlFlow| ensures Below(values)(t.controlFlow[i].condition) {
      BlockPointerFits(t.controlFlow[i], SrtRead(None, 0), values);
    }
    forall i | 0 <= i < |t.srtReads| ensures Below(values)(t.srtReads[i].value) {
      BlockPointerFits(ControlBlock(None, [], [], []), t.srtReads[i], values);
    }
    PointersFit(4, t.fill, values);
  }

  lemma {:induction false} RowsOfFit(memory: Shape, source: Shape, block: Shape, srt: Shape, info: Shape,
                                     t: Tables<Index>, values: nat)
    requires Fits(TablesOf(memory, source, block, srt, info), LiftTables(t), values)
    ensures forall i :: 0 <= i < |t.sources| ==> Fits(source, LiftSource(t.sources[i]), values)
    ensures forall i :: 0 <= i < |t.controlFlow| ==> Fits(block, LiftBlock(t.controlFlow[i]), values)
    ensures forall i :: 0 <= i < |t.srtReads| ==> Fits(srt, LiftSrt(t.srtReads[i]), values)
    ensures Fits(Record(Repeat(Pointer, 4)), Listed(t.fill, LiftPointer), values)
  {
    var d := LiftTables(t);
    FitsJoin(RowParts(memory, source, block, srt), OtherParts(info), d, values);
    RowPartsFit(memory, source, block, srt, d.items[..6], values);
    OtherPartsFit(info, d.items[6..], values);
    RowFits(72, source, t.sources, LiftSource, values);
    RowFits(28, block, t.controlFlow, LiftBlock, values);
    RowFits(8, srt, t.srtReads, LiftSrt, values);
  }
}
