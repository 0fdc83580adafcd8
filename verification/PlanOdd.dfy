/** An accepted entry that the encoder would write differently. */
module PlanOdd {
  import opened Wrappers
  import opened Layouts
  import opened PlanLayout
  import opened PlanEntries
  import opened PlanAgain
  import opened PlanRefit
  import opened PlanTables

  /** The column of the source: a stride although there is no column. */
  const STRAY_COLUMN: Column := Column([0, 1, 0, 0, 0, 0, 0, 0], [], [0, 0, 0, 0, 0, 0])

  function Nothings(n: nat): seq<Index> { seq(n, _ => None) }
  function Zeros(n: nat): seq<nat> { seq(n, _ => 0) }

  function StraySource(): Datum {
    Group([Listed(Nothings(8), LiftPointer), Word(0), Word(0), LiftColumn(STRAY_COLUMN)])
  }

  function EmptyInfo(): Info { Info(Zeros(2), [], [], false, [], [], [], [], Zeros(45)) }

  function TablesWith(source: Datum, info: Datum): Datum {
    Group(RowsWith(source) + [Word(0), Group([]), Group([]), Run(Zeros(4)), info, Run(Zeros(7)),
                              Listed(Nothings(4), LiftPointer)])
  }

  function RowsWith(source: Datum): seq<Datum> {
    [Group([]), Group([source]), Group([]), Group([]), Group([]), Group([])]
  }

  function StrayTables(): Datum { TablesWith(StraySource(), LiftInfo(EmptyInfo())) }

  /** No values, no blocks, and one source of no words. */
  function StrayEntry(): Entry { Entry(Group([Run(Zeros(5)), Group([])]), [], StrayTables()) }

  // ----- It fits

  lemma ZerosFit(parts: seq<Shape>, values: nat)
    requires forall k :: 0 <= k < |parts| ==> parts[k].Field? && 0 < parts[k].limit
    ensures Fits(Record(parts), Run(Zeros(|parts|)), values)
  {
    RunFits(parts, Zeros(|parts|), values);
  }

  lemma NothingsFit(n: nat, values: nat)
    ensures Fits(Record(Repeat(Pointer, n)), Listed(Nothings(n), LiftPointer), values)
  {
    var ds := Listed(Nothings(n), LiftPointer).items;
    forall k | 0 <= k < n ensures Fits(Repeat(Pointer, n)[k], ds[k], values) { ListedAt(Nothings(n), LiftPointer, k); }
    FitPartsAt(Repeat(Pointer, n), ds, values);
  }

  lemma StraySourceFits(values: nat)
    ensures Fits(SourceShape(), StraySource(), values)
  {
    NothingsFit(8, values);
    StrayColumnFits(values);
    SourceFits(StraySource(), values);
  }

  lemma StrayColumnFits(values: nat)
    ensures Fits(ColumnShape(), LiftColumn(STRAY_COLUMN), values)
  {
    RunFits(Repeat(W(), 6) + Repeat(B(), 2), STRAY_COLUMN.fields, values);
    RunFits(Repeat(B(), 2) + Repeat(W(), 4), STRAY_COLUMN.more, values);
    NoneFit(13, DomainShape(), values);
    assert Item(LiftColumn(STRAY_COLUMN), 1) == Group([]);
    FitThree(Record(Repeat(W(), 6) + Repeat(B(), 2)), Many(13, DomainShape()), Record(Repeat(B(), 2) + Repeat(W(), 4)),
             LiftColumn(STRAY_COLUMN), values);
  }

  lemma EmptyInfoFits(values: nat)
    ensures Fits(InfoShape(), LiftInfo(EmptyInfo()), values)
  {
    ZerosFit(Repeat(U(), 32) + Repeat(W(), 2) + Repeat(B(), 11), values);
    EmptyInfoOfFits(BufferShape(), ImageShape(), SamplerShape(), PairShape(), InputShape(), OutputShape(),
                    InfoRestShape(), values);
  }

  lemma {:induction false} EmptyInfoOfFits(buffer: Shape, image: Shape, sampler: Shape, pair: Shape, input: Shape,
                                           output: Shape, rest: Shape, values: nat)
    requires Fits(rest, Run(Zeros(45)), values)
    ensures Fits(InfoOf(buffer, image, sampler, pair, input, output, rest), LiftInfo(EmptyInfo()), values)
  {
    ZerosFit(Repeat(W(), 2), values);
    EmptyInfoItems();
    NoneFit(27, buffer, values);
    NoneFit(77, image, values);
    NoneFit(21, sampler, values);
    NoneFit(12, pair, values);
    NoneFit(21, input, values);
    NoneFit(20, output, values);
    InfoFits(buffer, image, sampler, pair, input, output, rest, LiftInfo(EmptyInfo()), values);
  }

  lemma NoneFit(minimum: nat, item: Shape, values: nat)
    ensures Fits(Many(minimum, item), Group([]), values)
  {
  }

  lemma EmptyInfoItems()
    ensures var d := LiftInfo(EmptyInfo());
            && Item(d, 1) == Item(d, 2) == Item(d, 4) == Item(d, 5) == Item(d, 6) == Item(d, 7) == Group([])
            && Item(d, 0) == Run(Zeros(2)) && Item(d, 3) == Word(0) && Item(d, 8) == Run(Zeros(45))
  {
  }

  lemma {:induction false} TablesWithFit(memory: Shape, source: Shape, block: Shape, srt: Shape, info: Shape, x: Datum,
                                         i: Datum, values: nat)
    requires Fits(source, x, values) && Fits(info, i, values)
    ensures Fits(TablesOf(memory, source, block, srt, info), TablesWith(x, i), values)
  {
    RowsWithFit(memory, source, block, srt, x, values);
    OthersWithFit(info, i, values);
    assert TablesWith(x, i).items[..6] == RowsWith(x);
    assert TablesWith(x, i).items[6..] == [Word(0), Group([]), Group([]), Run(Zeros(4)), i, Run(Zeros(7)),
                                           Listed(Nothings(4), LiftPointer)];
    FitsJoin(RowParts(memory, source, block, srt), OtherParts(info), TablesWith(x, i), values);
  }

  lemma {:induction false} OthersWithFit(info: Shape, i: Datum, values: nat)
    requires Fits(info, i, values)
    ensures FitParts(OtherParts(info),
                     [Word(0), Group([]), Group([]), Run(Zeros(4)), i, Run(Zeros(7)), Listed(Nothings(4), LiftPointer)],
                     values)
  {
    EmptyFields(values);
    SevenFit(W(), Bytes(), Bytes(), Record(Repeat(B(), 4)), info, Record(Repeat(W(), 7)), Record(Repeat(Pointer, 4)),
             [Word(0), Group([]), Group([]), Run(Zeros(4)), i, Run(Zeros(7)), Listed(Nothings(4), LiftPointer)],
                 values);
  }

  lemma EmptyFields(values: nat)
    ensures Fits(W(), Word(0), values) && Fits(Bytes(), Group([]), values)
            && Fits(Record(Repeat(B(), 4)), Run(Zeros(4)), values)
    ensures Fits(Record(Repeat(W(), 7)), Run(Zeros(7)), values)
            && Fits(Record(Repeat(Pointer, 4)), Listed(Nothings(4), LiftPointer), values)
  {
    ZerosFit(Repeat(B(), 4), values);
    ZerosFit(Repeat(W(), 7), values);
    NothingsFit(4, values);
  }

  lemma RowsWithFit(memory: Shape, source: Shape, block: Shape, srt: Shape, x: Datum, values: nat)
    requires Fits(source, x, values)
    ensures FitParts(RowParts(memory, source, block, srt), RowsWith(x), values)
  {
    FitItemsAt(source, [x], values);
    RowPartsFit(memory, source, block, srt, RowsWith(x), values);
  }

  lemma StrayFits()
    ensures FitsEntry(StrayEntry())
  {
    ZerosFit(Repeat(W(), 1) + Repeat(Q(), 1) + Repeat(W(), 3), 0);
    FitTwo(Record(Repeat(W(), 1) + Repeat(Q(), 1) + Repeat(W(), 3)), Words(), StrayEntry().head, 0);
    EmptyInfoFits(0);
    StraySourceFits(0);
    TablesWithFit(MemoryShape(), SourceShape(), BlockShape(), SrtShape(), InfoShape(), StraySource(),
                  LiftInfo(EmptyInfo()), 0);
  }

  /** It is accepted, and its plan is encoded to other bytes. */
  lemma StrayDiffers()
    ensures var data := EncodeEntry(StrayEntry()); DecodePlan(data).Some? && EncodePlan(DecodePlan(data).value) != data
  {
    var e := StrayEntry();
    StrayFits();
    EntryReads(e);
    StrayNotPlain();
    TablesAgain(e.tables, 0);
    TablesRefit(e.tables, 0);
    HeadAgain(e.head);
    StrayValid();
    EntriesDiffer(EntryOf(PlanIn(e)), e);
  }

  lemma StrayNotPlain()
    ensures !Plain(StrayTables())
  {
    var source, stray, none := StraySource(), Run(STRAY_COLUMN.fields), Run(NO_COLUMN.fields);
    ListedAt(STRAY_COLUMN.fields, LiftWord, 1);
    ListedAt(NO_COLUMN.fields, LiftWord, 1);
    assert stray.items[1] == Word(1) && none.items[1] == Word(0);
    assert Item(LiftColumn(STRAY_COLUMN), 0) == stray && Item(LiftColumn(NO_COLUMN), 0) == none;
    assert !PlainSource(source) && Item(StrayTables(), 1).items[0] == source;
  }

  lemma StrayValid()
    ensures ValidTables(TablesIn(StrayTables()))
  {
    var d, t := StrayTables(), TablesIn(StrayTables());
    assert Item(d, 1) == Group([StraySource()]) && Item(d, 10) == LiftInfo(EmptyInfo()) && Item(d, 11) == Run(Zeros(7));
    assert Item(d, 2) == Item(d, 3) == Group([]) && Item(d, 12) == Listed(Nothings(4), LiftPointer);
    RunBack(Zeros(7));
    InfoBack(EmptyInfo());
    ListBack(Nothings(4), LiftPointer, PointerOf);
    StraySourceIn();
    assert |t.sources| == 1 && t.sources[0] == Source(Nothings(8), 0, None);
  }

  lemma StraySourceIn()
    ensures SourceOf(StraySource()) == Source(Nothings(8), 0, None)
  {
    ListBack(Nothings(8), LiftPointer, PointerOf);
  }
}
