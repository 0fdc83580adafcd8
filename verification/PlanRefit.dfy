/** Tables read from an entry fit the layout when they are stored again. */
module PlanRefit {
  import opened Layouts
  import opened PlanLayout
  import opened PlanEntries
  import opened PlanAgain

  ghost predicate Refits<T>(item: Shape, values: nat, lift: T -> Datum, of: Datum -> T) {
    forall d :: Fits(item, d, values) ==> Fits(item, lift(of(d)), values)
  }

  lemma SameRefits<T>(item: Shape, values: nat, lift: T -> Datum, of: Datum -> T)
    requires Again(item, values, lift, of, Always)
    ensures Refits(item, values, lift, of)
  {
    forall d | Fits(item, d, values) ensures Fits(item, lift(of(d)), values) { assert Always(d); }
  }

  lemma RowsRefit<T>(minimum: nat, item: Shape, d: Datum, values: nat, lift: T -> Datum, of: Datum -> T)
    requires Fits(Many(minimum, item), d, values) && Refits(item, values, lift, of)
    ensures Fits(Many(minimum, item), Listed(ListOf(d, of), lift), values)
  {
    var again := Listed(ListOf(d, of), lift);
    FitItemsAt(item, d.items, values);
    forall k | 0 <= k < |again.items| ensures Fits(item, again.items[k], values) {
      ListedAt(ListOf(d, of), lift, k);
      assert Fits(item, d.items[k], values);
    }
    FitItemsAt(item, again.items, values);
  }

  // ----- The rows that change

  lemma RunFits(parts: seq<Shape>, xs: seq<nat>, values: nat)
    requires |xs| == |parts| && forall k :: 0 <= k < |parts| ==> parts[k].Field? && xs[k] < parts[k].limit
    ensures Fits(Record(parts), Run(xs), values)
  {
    forall k | 0 <= k < |parts| ensures Fits(parts[k], Run(xs).items[k], values) { ListedAt(xs, LiftWord, k); }
    FitPartsAt(parts, Run(xs).items, values);
  }

  lemma NoColumnFits(values: nat)
    ensures Fits(ColumnShape(), LiftColumn(NO_COLUMN), values)
  {
    RunFits(Repeat(W(), 6) + Repeat(B(), 2), NO_COLUMN.fields, values);
    RunFits(Repeat(B(), 2) + Repeat(W(), 4), NO_COLUMN.more, values);
    assert Listed(NO_COLUMN.keyDomains, Run) == Group([]);
    FitThree(Record(Repeat(W(), 6) + Repeat(B(), 2)), Many(13, DomainShape()), Record(Repeat(B(), 2) + Repeat(W(), 4)),
             LiftColumn(NO_COLUMN), values);
  }

  lemma SourceRefits(values: nat)
    ensures Refits(SourceShape(), values, LiftSource, SourceOf)
  {
    forall d | Fits(SourceShape(), d, values) ensures Fits(SourceShape(), LiftSource(SourceOf(d)), values) {
      SourceFits(d, values);
      PointersAgain(8, Item(d, 0), values);
      ColumnAgain(Item(d, 3), values);
      NoColumnFits(values);
      SourceKeeps(d);
      SourceFits(LiftSource(SourceOf(d)), values);
    }
  }

  lemma SourceKeeps(d: Datum)
    requires Listed(ListOf(Item(d, 0), PointerOf), LiftPointer) == Item(d, 0) && Item(d, 1).Word? && Item(d, 2).Word?
             && Item(d, 2).n < 2
    requires LiftColumn(ColumnOf(Item(d, 3))) == Item(d, 3)
    ensures var again := LiftSource(SourceOf(d));
            && Item(again, 0) == Item(d, 0) && Item(again, 1) == Item(d, 1) && Item(again, 2) == Item(d, 2)
            && (Item(again, 3) == Item(d, 3) || Item(again, 3) == LiftColumn(NO_COLUMN))
  {
  }

  lemma RunOfAt(d: Datum, k: nat)
    requires d.Group? && k < |d.items|
    ensures |RunOf(d)| == |d.items| && RunOf(d)[k] == WordOf(d.items[k])
  {
  }

  lemma FieldsRefit(parts: seq<Shape>, d: Datum, values: nat)
    requires Fits(Record(parts), d, values) && AllFields(parts) && |parts| == 38 && parts[OPERATION] == W()
    ensures Fits(Record(parts), Run(ImageOf(d)), values)
  {
    FitPartsAt(parts, d.items, values);
    var fields := ImageOf(d);
    forall k | 0 <= k < |parts| ensures parts[k].Field? && fields[k] < parts[k].limit {
      assert Fits(parts[k], d.items[k], values);
      RunOfAt(d, k);
    }
    RunFits(parts, fields, values);
  }

  lemma ImageRefits(values: nat)
    ensures Refits(ImageShape(), values, Run, ImageOf)
  {
    FiveFields(W(), 9, B(), 9, W(), 1, B(), 13, W(), 6);
    forall d | Fits(ImageShape(), d, values) ensures Fits(ImageShape(), Run(ImageOf(d)), values) {
      FieldsRefit(ImageParts(), d, values);
    }
  }

  // ----- The tables

  lemma {:induction false} InfoOfRefits(buffer: Shape, image: Shape, sampler: Shape, pair: Shape, input: Shape,
                                        output: Shape, rest: Shape, d: Datum, values: nat)
    requires Fits(InfoOf(buffer, image, sampler, pair, input, output, rest), d, values)
    requires Refits(buffer, values, Run, RunOf) && Refits(image, values, Run, ImageOf)
             && Refits(sampler, values, Run, RunOf)
    requires Refits(pair, values, Run, RunOf) && Refits(input, values, LiftInput, InputOf)
             && Refits(output, values, LiftOutput, OutputOf)
    requires Refits(rest, values, Run, RunOf)
    ensures Fits(InfoOf(buffer, image, sampler, pair, input, output, rest), LiftInfo(InfoIn(d)), values)
  {
    InfoPieces(buffer, image, sampler, pair, input, output, rest, d, values);
    InfoFits(buffer, image, sampler, pair, input, output, rest, LiftInfo(InfoIn(d)), values);
  }

  lemma {:induction false} InfoPieces(buffer: Shape, image: Shape, sampler: Shape, pair: Shape, input: Shape,
                                      output: Shape, rest: Shape, d: Datum, values: nat)
    requires Fits(InfoOf(buffer, image, sampler, pair, input, output, rest), d, values)
    requires Refits(buffer, values, Run, RunOf) && Refits(image, values, Run, ImageOf)
             && Refits(sampler, values, Run, RunOf)
    requires Refits(pair, values, Run, RunOf) && Refits(input, values, LiftInput, InputOf)
             && Refits(output, values, LiftOutput, OutputOf)
    requires Refits(rest, values, Run, RunOf)
    ensures Fits(Record(Repeat(W(), 2)), Run(RunOf(Item(d, 0))), values)
            && Fits(Many(27, buffer), Listed(ListOf(Item(d, 1), RunOf), Run), values)
    ensures Fits(Many(77, image), Listed(ListOf(Item(d, 2), ImageOf), Run), values)
            && Fits(Many(21, sampler), Listed(ListOf(Item(d, 4), RunOf), Run), values)
    ensures Fits(Many(12, pair), Listed(ListOf(Item(d, 5), RunOf), Run), values)
    ensures Fits(Many(21, input), Listed(ListOf(Item(d, 6), InputOf), LiftInput), values)
    ensures Fits(Many(20, output), Listed(ListOf(Item(d, 7), OutputOf), LiftOutput), values)
            && Fits(rest, Run(RunOf(Item(d, 8))), values)
  {
    InfoFits(buffer, image, sampler, pair, input, output, rest, d, values);
    RunAgain(Repeat(W(), 2), Item(d, 0), values);
    RowsRefit(27, buffer, Item(d, 1), values, Run, RunOf);
    RowsRefit(77, image, Item(d, 2), values, Run, ImageOf);
    RowsRefit(21, sampler, Item(d, 4), values, Run, RunOf);
    RowsRefit(12, pair, Item(d, 5), values, Run, RunOf);
    RowsRefit(21, input, Item(d, 6), values, LiftInput, InputOf);
    RowsRefit(20, output, Item(d, 7), values, LiftOutput, OutputOf);
  }

  lemma InfoRefits(values: nat)
    ensures Refits(InfoShape(), values, LiftInfo, InfoIn)
  {
    ResourcesAgain(values);
    StagesAgain(values);
    MemoryAgain(values);
    SameRefits(BufferShape(), values, Run, RunOf);
    SameRefits(SamplerShape(), values, Run, RunOf);
    SameRefits(PairShape(), values, Run, RunOf);
    SameRefits(InputShape(), values, LiftInput, InputOf);
    SameRefits(OutputShape(), values, LiftOutput, OutputOf);
    SameRefits(InfoRestShape(), values, Run, RunOf);
    ImageRefits(values);
    forall d | Fits(InfoShape(), d, values) ensures Fits(InfoShape(), LiftInfo(InfoIn(d)), values) {
      InfoOfRefits(BufferShape(), ImageShape(), SamplerShape(), PairShape(), InputShape(), OutputShape(),
                   InfoRestShape(), d, values);
    }
  }

  lemma {:induction false} RowPartsRefit(memory: Shape, source: Shape, block: Shape, srt: Shape, ds: seq<Datum>,
                                         again: seq<Datum>, values: nat)
    requires |ds| == 6 && FitParts(RowParts(memory, source, block, srt), ds, values)
    requires Again(memory, values, Run, RunOf, Always) && Refits(source, values, LiftSource, SourceOf)
    requires Again(block, values, LiftBlock, BlockOf, Always) && Again(srt, values, LiftSrt, SrtOf, Always)
    requires again == [Listed(ListOf(ds[0], RunOf), Run), Listed(ListOf(ds[1], SourceOf), LiftSource),
                       Listed(ListOf(ds[2], BlockOf), LiftBlock), Run(RunOf(ds[3])),
                       Listed(ListOf(ds[4], SrtOf), LiftSrt), Run(RunOf(ds[5]))]
    ensures FitParts(RowParts(memory, source, block, srt), again, values)
  {
    RowPartsFit(memory, source, block, srt, ds, values);
    RowsAgain(79, memory, ds[0], values, Run, RunOf, Always);
    RowsRefit(72, source, ds[1], values, LiftSource, SourceOf);
    RowsAgain(28, block, ds[2], values, LiftBlock, BlockOf, Always);
    WordsAgain(4, 4, 0x1_0000_0000, ds[3], values);
    RowsAgain(8, srt, ds[4], values, LiftSrt, SrtOf, Always);
    WordsAgain(4, 4, 0x1_0000_0000, ds[5], values);
    RowPartsFit(memory, source, block, srt, again, values);
  }

  lemma {:induction false} OtherPartsRefit(info: Shape, ds: seq<Datum>, rest: seq<Datum>, values: nat)
    requires |ds| == 7 && FitParts(OtherParts(info), ds, values) && Refits(info, values, LiftInfo, InfoIn)
             && |rest| == 7
    requires rest[0] == Word(WordOf(ds[0])) && rest[1] == Run(RunOf(ds[1])) && rest[2] == Run(RunOf(ds[2]))
             && rest[3] == Run(RunOf(ds[3]))
    requires rest[4] == LiftInfo(InfoIn(ds[4])) && rest[5] == Run(RunOf(ds[5]))
             && rest[6] == Listed(ListOf(ds[6], PointerOf), LiftPointer)
    ensures FitParts(OtherParts(info), rest, values)
  {
    OtherPiecesAgain(info, ds, values);
    OtherPartsFit(info, rest, values);
  }

  lemma RowItems(d: Datum, again: Datum)
    requires again == LiftTables(TablesIn(d)) && d.Group? && |d.items| == 13
    ensures var ds := d.items[..6];
            again.items[..6] == [Listed(ListOf(ds[0], RunOf), Run), Listed(ListOf(ds[1], SourceOf), LiftSource),
                                 Listed(ListOf(ds[2], BlockOf), LiftBlock),
                                 Run(RunOf(ds[3])), Listed(ListOf(ds[4], SrtOf), LiftSrt), Run(RunOf(ds[5]))]
  {
  }

  lemma OtherItems(d: Datum, again: Datum)
    requires again == LiftTables(TablesIn(d)) && d.Group? && |d.items| == 13
    ensures var ds, rest := d.items[6..], again.items[6..];
            && rest[0] == Word(WordOf(ds[0])) && rest[1] == Run(RunOf(ds[1])) && rest[2] == Run(RunOf(ds[2]))
            && rest[3] == Run(RunOf(ds[3]))
            && rest[4] == LiftInfo(InfoIn(ds[4])) && rest[5] == Run(RunOf(ds[5]))
            && rest[6] == Listed(ListOf(ds[6], PointerOf), LiftPointer)
  {
  }

  lemma {:induction false} OtherPiecesAgain(info: Shape, ds: seq<Datum>, values: nat)
    requires |ds| == 7 && FitParts(OtherParts(info), ds, values)
    ensures Fits(W(), Word(WordOf(ds[0])), values) && Fits(Bytes(), Run(RunOf(ds[1])), values)
            && Fits(Bytes(), Run(RunOf(ds[2])), values)
    ensures Fits(Record(Repeat(B(), 4)), Run(RunOf(ds[3])), values) && Fits(info, ds[4], values)
            && Fits(Record(Repeat(W(), 7)), Run(RunOf(ds[5])), values)
    ensures Fits(Record(Repeat(Pointer, 4)), Listed(ListOf(ds[6], PointerOf), LiftPointer), values)
  {
    OtherPartsFit(info, ds, values);
    WordsAgain(1, 1, 0x100, ds[1], values);
    WordsAgain(1, 1, 0x100, ds[2], values);
    RunAgain(Repeat(B(), 4), ds[3], values);
    RunAgain(Repeat(W(), 7), ds[5], values);
    PointersAgain(4, ds[6], values);
  }

  lemma {:induction false} TablesOfRefit(memory: Shape, source: Shape, block: Shape, srt: Shape, info: Shape, d: Datum,
                                         values: nat)
    requires Fits(TablesOf(memory, source, block, srt, info), d, values)
    requires Again(memory, values, Run, RunOf, Always) && Refits(source, values, LiftSource, SourceOf)
    requires Again(block, values, LiftBlock, BlockOf, Always) && Again(srt, values, LiftSrt, SrtOf, Always)
             && Refits(info, values, LiftInfo, InfoIn)
    ensures Fits(TablesOf(memory, source, block, srt, info), LiftTables(TablesIn(d)), values)
  {
    var again := LiftTables(TablesIn(d));
    FitsJoin(RowParts(memory, source, block, srt), OtherParts(info), d, values);
    RowItems(d, again);
    RowPartsRefit(memory, source, block, srt, d.items[..6], again.items[..6], values);
    OtherItems(d, again);
    OtherPartsRefit(info, d.items[6..], again.items[6..], values);
    FitsJoin(RowParts(memory, source, block, srt), OtherParts(info), again, values);
  }

  lemma TablesRefit(d: Datum, values: nat)
    requires Fits(TablesShape(), d, values)
    ensures Fits(TablesShape(), LiftTables(TablesIn(d)), values)
  {
    MemoryAgain(values);
    SourceRefits(values);
    BlocksAgain(values);
    InfoRefits(values);
    TablesOfRefit(MemoryShape(), SourceShape(), BlockShape(), SrtShape(), InfoShape(), d, values);
  }
}
