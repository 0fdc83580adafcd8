/** When exactly the tables read from an entry are stored again as they stood in it. */
module PlanAgain {
  import opened Layouts
  import opened PlanLayout
  import opened PlanEntries

  // ----- The condition

  /** A source without a column has the fields of the default one. */
  predicate PlainSource(d: Datum) { WordOf(Item(d, 2)) == 1 || Item(d, 3) == LiftColumn(NO_COLUMN) }

  /** The table operation of an image is a byte. */
  predicate PlainImage(d: Datum) { WordOf(Item(d, OPERATION)) < 256 }

  predicate PlainInfo(d: Datum) {
    ListIs(Item(d, 2), PlainImage) && (WordOf(Item(d, 3)) == 1 ==> Item(d, 2) != Group([]))
  }

  predicate Plain(d: Datum) { ListIs(Item(d, 1), PlainSource) && PlainInfo(Item(d, 10)) }

  predicate ListIs(d: Datum, p: Datum -> bool) { d.Group? ==> forall k :: 0 <= k < |d.items| ==> p(d.items[k]) }

  // ----- Parts of records

  lemma FitPart(parts: seq<Shape>, d: Datum, k: nat, values: nat)
    requires Fits(Record(parts), d, values) && k < |parts|
    ensures Fits(parts[k], Item(d, k), values)
  {
    FitPartsAt(parts, d.items, values);
  }

  lemma FitTwo(a: Shape, b: Shape, d: Datum, values: nat)
    requires d.Group? && |d.items| == 2
    ensures Fits(Record([a, b]), d, values) <==> Fits(a, Item(d, 0), values) && Fits(b, Item(d, 1), values)
  {
    FitPartsAt([a, b], d.items, values);
    assert [a, b][0] == a && [a, b][1] == b;
  }

  lemma {:induction false} FitThree(a: Shape, b: Shape, c: Shape, d: Datum, values: nat)
    requires d.Group? && |d.items| == 3
    ensures Fits(Record([a, b, c]), d, values) <==>
            Fits(a, Item(d, 0), values) && Fits(b, Item(d, 1), values) && Fits(c, Item(d, 2), values)
  {
    FitPartsAt([a, b, c], d.items, values);
    assert [a, b, c][0] == a && [a, b, c][1] == b && [a, b, c][2] == c;
  }

  lemma {:induction false} FitFour(a: Shape, b: Shape, c: Shape, e: Shape, d: Datum, values: nat)
    requires d.Group? && |d.items| == 4
    ensures Fits(Record([a, b, c, e]), d, values) <==>
            Fits(a, Item(d, 0), values) && Fits(b, Item(d, 1), values) && Fits(c, Item(d, 2), values)
              && Fits(e, Item(d, 3), values)
  {
    var parts := [a, b, c, e];
    FitPartsAt(parts, d.items, values);
    assert parts[0] == a && parts[1] == b && parts[2] == c && parts[3] == e;
  }

  // ----- Rows

  lemma ColumnAgain(d: Datum, values: nat)
    requires Fits(ColumnShape(), d, values)
    ensures LiftColumn(ColumnOf(d)) == d
  {
    FitThree(Record(Repeat(W(), 6) + Repeat(B(), 2)), Many(13, DomainShape()), Record(Repeat(B(), 2) + Repeat(W(), 4)),
             d, values);
    RunAgain(Repeat(W(), 6) + Repeat(B(), 2), Item(d, 0), values);
    RunsAgain(13, Repeat(W(), 3) + Repeat(B(), 1), Item(d, 1), values);
    RunAgain(Repeat(B(), 2) + Repeat(W(), 4), Item(d, 2), values);
  }

  lemma SourceFits(d: Datum, values: nat)
    requires d.Group? && |d.items| == 4
    ensures Fits(SourceShape(), d, values) <==>
            Fits(Record(Repeat(Pointer, 8)), Item(d, 0), values) && Fits(W(), Item(d, 1), values)
              && Fits(B(), Item(d, 2), values)
            && Fits(ColumnShape(), Item(d, 3), values)
  {
    FitFour(Record(Repeat(Pointer, 8)), W(), B(), ColumnShape(), d, values);
  }

  lemma SourceAgain(d: Datum, values: nat)
    requires Fits(SourceShape(), d, values)
    ensures LiftSource(SourceOf(d)) == d <==> PlainSource(d)
  {
    SourceFits(d, values);
    PointersAgain(8, Item(d, 0), values);
    ColumnAgain(Item(d, 3), values);
    SourceFields(d);
  }

  lemma SourceFields(d: Datum)
    requires d.Group? && |d.items| == 4 && Listed(ListOf(Item(d, 0), PointerOf), LiftPointer) == Item(d, 0)
    requires Item(d, 1).Word? && Item(d, 2).Word? && Item(d, 2).n < 2 && LiftColumn(ColumnOf(Item(d, 3))) == Item(d, 3)
    ensures LiftSource(SourceOf(d)) == d <==> PlainSource(d)
  {
    LastDiffers(Item(d, 0), Item(d, 1), Item(d, 2), Item(d, 3), LiftColumn(NO_COLUMN));
    FourItems(d);
  }

  lemma FourItems(d: Datum)
    requires d.Group? && |d.items| == 4
    ensures d == Group([Item(d, 0), Item(d, 1), Item(d, 2), Item(d, 3)])
  {
  }

  lemma LastDiffers(a: Datum, b: Datum, c: Datum, x: Datum, y: Datum)
    ensures Group([a, b, c, x]) == Group([a, b, c, y]) <==> x == y
  {
    assert [a, b, c, x][3] == x && [a, b, c, y][3] == y;
  }

  lemma BlockAgain(d: Datum, values: nat)
    requires Fits(BlockShape(), d, values)
    ensures LiftBlock(BlockOf(d)) == d
  {
    FitFour(Pointer, Words(), Words(), Words(), d, values);
    WordsAgain(4, 4, 0x1_0000_0000, Item(d, 1), values);
    WordsAgain(4, 4, 0x1_0000_0000, Item(d, 2), values);
    WordsAgain(4, 4, 0x1_0000_0000, Item(d, 3), values);
    assert LiftBlock(BlockOf(d)).items == d.items;
  }

  lemma SrtAgain(d: Datum, values: nat)
    requires Fits(SrtShape(), d, values)
    ensures LiftSrt(SrtOf(d)) == d
  {
    FitTwo(Pointer, W(), d, values);
    assert LiftSrt(SrtOf(d)).items == d.items;
  }

  lemma InputAgain(d: Datum, values: nat)
    requires Fits(InputShape(), d, values)
    ensures LiftInput(InputOf(d)) == d
  {
    FitThree(Record(Repeat(W(), 3)), Bytes(), B(), d, values);
    RunAgain(Repeat(W(), 3), Item(d, 0), values);
    WordsAgain(1, 1, 0x100, Item(d, 1), values);
    assert LiftInput(InputOf(d)).items == d.items;
  }

  lemma OutputAgain(d: Datum, values: nat)
    requires Fits(OutputShape(), d, values)
    ensures LiftOutput(OutputOf(d)) == d
  {
    FitTwo(Record(Repeat(W(), 3)), Bytes(), d, values);
    RunAgain(Repeat(W(), 3), Item(d, 0), values);
    WordsAgain(1, 1, 0x100, Item(d, 1), values);
    assert LiftOutput(OutputOf(d)).items == d.items;
  }

  function ImageParts(): seq<Shape> {
    Repeat(W(), 9) + Repeat(B(), 9) + Repeat(W(), 1) + Repeat(B(), 13) + Repeat(W(), 6)
  }

  lemma ImageAgain(d: Datum, values: nat)
    requires Fits(ImageShape(), d, values)
    ensures Run(ImageOf(d)) == d <==> PlainImage(d)
    ensures |ImageOf(d)| == 38 && ImageOf(d)[OPERATION] < 256
  {
    FiveFields(W(), 9, B(), 9, W(), 1, B(), 13, W(), 6);
    FieldsAgain(ImageParts(), d, values);
  }

  lemma {:induction false} FiveFields(a: Shape, i: nat, b: Shape, j: nat, c: Shape, k: nat, d: Shape, l: nat, e: Shape,
                                      m: nat)
    requires a.Field? && b.Field? && c.Field? && d.Field? && e.Field?
    ensures var parts := Repeat(a, i) + Repeat(b, j) + Repeat(c, k) + Repeat(d, l) + Repeat(e, m);
            AllFields(parts) && |parts| == i + j + k + l + m
  {
    FieldsJoin(Repeat(a, i), Repeat(b, j));
    FieldsJoin(Repeat(a, i) + Repeat(b, j), Repeat(c, k));
    FieldsJoin(Repeat(a, i) + Repeat(b, j) + Repeat(c, k), Repeat(d, l));
    FieldsJoin(Repeat(a, i) + Repeat(b, j) + Repeat(c, k) + Repeat(d, l), Repeat(e, m));
  }

  lemma FieldsJoin(a: seq<Shape>, b: seq<Shape>)
    requires AllFields(a) && AllFields(b)
    ensures AllFields(a + b)
  {
  }

  lemma FieldsAgain(parts: seq<Shape>, d: Datum, values: nat)
    requires Fits(Record(parts), d, values) && AllFields(parts) && |parts| == 38
    ensures Run(ImageOf(d)) == d <==> PlainImage(d)
    ensures |ImageOf(d)| == 38 && ImageOf(d)[OPERATION] < 256
  {
    RunAgain(parts, d, values);
    var fields := RunOf(d);
    RunDiffers(fields, OPERATION, fields[OPERATION] % 256);
  }

  lemma ListedAt<T>(xs: seq<T>, lift: T -> Datum, k: nat)
    requires k < |xs|
    ensures |Listed(xs, lift).items| == |xs| && Listed(xs, lift).items[k] == lift(xs[k])
  {
  }

  lemma RunDiffers(xs: seq<nat>, k: nat, v: nat)
    requires k < |xs|
    ensures Run(xs[k := v]) == Run(xs) <==> v == xs[k]
    ensures WordOf(Item(Run(xs), k)) == xs[k]
  {
    ListedAt(xs, LiftWord, k);
    ListedAt(xs[k := v], LiftWord, k);
    if v == xs[k] { assert xs[k := v] == xs; }
  }

  // ----- Lists

  /** A list is stored again as it was exactly when all its items are. */
  lemma ListAgainIff<T>(d: Datum, lift: T -> Datum, of: Datum -> T)
    requires d.Group?
    ensures Listed(ListOf(d, of), lift) == d <==> forall k :: 0 <= k < |d.items| ==> lift(of(d.items[k])) == d.items[k]
  {
    var again := Listed(ListOf(d, of), lift);
    assert |again.items| == |d.items| && forall k :: 0 <= k < |d.items| ==> again.items[k] == lift(of(d.items[k]));
    if forall k :: 0 <= k < |d.items| ==> lift(of(d.items[k])) == d.items[k] { assert again.items == d.items; }
  }

  /** Data of a layout are stored again as they were exactly when `p` holds of them. */
  ghost predicate Again<T>(item: Shape, values: nat, lift: T -> Datum, of: Datum -> T, p: Datum -> bool) {
    forall d :: Fits(item, d, values) ==> (lift(of(d)) == d <==> p(d))
  }

  predicate Always(d: Datum) { true }

  lemma RowsAgain<T>(minimum: nat, item: Shape, d: Datum, values: nat, lift: T -> Datum, of: Datum -> T,
                     p: Datum -> bool)
    requires Fits(Many(minimum, item), d, values) && Again(item, values, lift, of, p)
    ensures d.Group? && (Listed(ListOf(d, of), lift) == d <==> ListIs(d, p))
  {
    FitItemsAt(item, d.items, values);
    forall k | 0 <= k < |d.items| ensures lift(of(d.items[k])) == d.items[k] <==> p(d.items[k]) {
      assert Fits(item, d.items[k], values);
    }
    ListAgainIff(d, lift, of);
  }

  lemma SourcesAgain(values: nat)
    ensures Again(SourceShape(), values, LiftSource, SourceOf, PlainSource)
  {
    forall d | Fits(SourceShape(), d, values) ensures LiftSource(SourceOf(d)) == d <==> PlainSource(d) {
      SourceAgain(d, values);
    }
  }

  lemma ImagesAgain(values: nat)
    ensures Again(ImageShape(), values, Run, ImageOf, PlainImage)
  {
    forall d | Fits(ImageShape(), d, values) ensures Run(ImageOf(d)) == d <==> PlainImage(d) { ImageAgain(d, values); }
  }

  lemma ImagesEnumerated(d: Datum)
    ensures Enumerated(ListOf(d, ImageOf))
  {
    var images := ListOf(d, ImageOf);
    forall i | 0 <= i < |images| ensures |images[i]| > OPERATION ==> images[i][OPERATION] < 256 {
      OperationByte(d.items[i]);
    }
  }

  lemma OperationByte(d: Datum)
    ensures |ImageOf(d)| > OPERATION ==> ImageOf(d)[OPERATION] < 256
  {
  }

  lemma BlocksAgain(values: nat)
    ensures Again(BlockShape(), values, LiftBlock, BlockOf, Always) && Again(SrtShape(), values, LiftSrt, SrtOf, Always)
  {
    forall d | Fits(BlockShape(), d, values) ensures LiftBlock(BlockOf(d)) == d { BlockAgain(d, values); }
    forall d | Fits(SrtShape(), d, values) ensures LiftSrt(SrtOf(d)) == d { SrtAgain(d, values); }
  }

  lemma StagesAgain(values: nat)
    ensures Again(InputShape(), values, LiftInput, InputOf, Always)
            && Again(OutputShape(), values, LiftOutput, OutputOf, Always)
  {
    forall d | Fits(InputShape(), d, values) ensures LiftInput(InputOf(d)) == d { InputAgain(d, values); }
    forall d | Fits(OutputShape(), d, values) ensures LiftOutput(OutputOf(d)) == d { OutputAgain(d, values); }
  }

  lemma FieldRunsAgain(parts: seq<Shape>, values: nat)
    requires AllFields(parts)
    ensures Again(Record(parts), values, Run, RunOf, Always)
  {
    forall d | Fits(Record(parts), d, values) ensures Run(RunOf(d)) == d { RunAgain(parts, d, values); }
  }

  lemma ResourcesAgain(values: nat)
    ensures Again(BufferShape(), values, Run, RunOf, Always) && Again(SamplerShape(), values, Run, RunOf, Always)
    ensures Again(PairShape(), values, Run, RunOf, Always)
  {
    FiveFields(W(), 4, B(), 5, W(), 1, B(), 1, U(), 1);
    FieldRunsAgain(BufferShape().parts, values);
    FiveFields(W(), 3, B(), 2, H(), 1, B(), 1, W(), 1);
    FieldRunsAgain(SamplerShape().parts, values);
    FieldRunsAgain(Repeat(W(), 3), values);
  }

  lemma MemoryAgain(values: nat)
    ensures Again(MemoryShape(), values, Run, RunOf, Always) && Again(InfoRestShape(), values, Run, RunOf, Always)
  {
    FieldsJoin(Repeat(W(), 15), Repeat(B(), 8));
    FieldsJoin(Repeat(W(), 15) + Repeat(B(), 8), Repeat(W(), 1));
    FieldsJoin(Repeat(W(), 15) + Repeat(B(), 8) + Repeat(W(), 1), Repeat(B(), 7));
    FieldRunsAgain(MemoryShape().parts, values);
    FieldsJoin(Repeat(U(), 32), Repeat(W(), 2));
    FieldsJoin(Repeat(U(), 32) + Repeat(W(), 2), Repeat(B(), 11));
    FieldRunsAgain(InfoRestShape().parts, values);
  }

  // ----- The tables

  lemma {:induction false} InfoFits(buffer: Shape, image: Shape, sampler: Shape, pair: Shape, input: Shape,
                                    output: Shape, rest: Shape, d: Datum, values: nat)
    requires d.Group? && |d.items| == 9
    ensures Fits(InfoOf(buffer, image, sampler, pair, input, output, rest), d, values) <==>
            && Fits(Record(Repeat(W(), 2)), Item(d, 0), values) && Fits(Many(27, buffer), Item(d, 1), values)
            && Fits(Many(77, image), Item(d, 2), values)
            && Fits(B(), Item(d, 3), values) && Fits(Many(21, sampler), Item(d, 4), values)
            && Fits(Many(12, pair), Item(d, 5), values)
            && Fits(Many(21, input), Item(d, 6), values) && Fits(Many(20, output), Item(d, 7), values)
            && Fits(rest, Item(d, 8), values)
  {
    var parts := InfoOf(buffer, image, sampler, pair, input, output, rest).parts;
    NineFit(parts, d.items, values);
    assert parts[0] == Record(Repeat(W(), 2)) && parts[1] == Many(27, buffer) && parts[2] == Many(77, image)
        && parts[3] == B() && parts[4] == Many(21, sampler);
    assert parts[5] == Many(12, pair) && parts[6] == Many(21, input) && parts[7] == Many(20, output)
        && parts[8] == rest;
  }

  lemma {:induction false} NineFit(parts: seq<Shape>, ds: seq<Datum>, values: nat)
    requires |parts| == |ds| == 9
    ensures FitParts(parts, ds, values) <==>
            && Fits(parts[0], ds[0], values) && Fits(parts[1], ds[1], values) && Fits(parts[2], ds[2], values)
            && Fits(parts[3], ds[3], values)
            && Fits(parts[4], ds[4], values) && Fits(parts[5], ds[5], values) && Fits(parts[6], ds[6], values)
            && Fits(parts[7], ds[7], values)
            && Fits(parts[8], ds[8], values)
  {
    FitPartsAt(parts, ds, values);
  }

  lemma FitsJoin(a: seq<Shape>, b: seq<Shape>, d: Datum, values: nat)
    requires d.Group? && |d.items| == |a| + |b|
    ensures Fits(Record(a + b), d, values) <==> FitParts(a, d.items[..|a|], values)
                                                && FitParts(b, d.items[|a|..], values)
  {
    var xs, ys := d.items[..|a|], d.items[|a|..];
    FitPartsAt(a + b, d.items, values);
    FitPartsAt(a, xs, values);
    FitPartsAt(b, ys, values);
    if FitParts(a + b, d.items, values) {
      forall k | 0 <= k < |a| ensures Fits(a[k], xs[k], values) { assert Fits((a + b)[k], d.items[k], values); }
      forall k | 0 <= k < |b| ensures Fits(b[k], ys[k], values) {
        assert Fits((a + b)[|a| + k], d.items[|a| + k], values);
      }
    }
    if FitParts(a, xs, values) && FitParts(b, ys, values) {
      forall k | 0 <= k < |a + b| ensures Fits((a + b)[k], d.items[k], values) {
        if k < |a| { assert Fits(a[k], xs[k], values); } else { assert Fits(b[k - |a|], ys[k - |a|], values); }
      }
    }
  }

  lemma {:induction false} RowPartsFit(memory: Shape, source: Shape, block: Shape, srt: Shape, ds: seq<Datum>,
                                       values: nat)
    requires |ds| == 6
    ensures FitParts(RowParts(memory, source, block, srt), ds, values) <==>
            && Fits(Many(79, memory), ds[0], values) && Fits(Many(72, source), ds[1], values)
            && Fits(Many(28, block), ds[2], values)
            && Fits(Words(), ds[3], values) && Fits(Many(8, srt), ds[4], values) && Fits(Words(), ds[5], values)
  {
    var parts := RowParts(memory, source, block, srt);
    FitPartsAt(parts, ds, values);
    assert parts[0] == Many(79, memory) && parts[1] == Many(72, source) && parts[2] == Many(28, block);
    assert parts[3] == Words() && parts[4] == Many(8, srt) && parts[5] == Words();
  }

  lemma {:induction false} SevenFit(a: Shape, b: Shape, c: Shape, d: Shape, e: Shape, f: Shape, g: Shape,
                                    ds: seq<Datum>, values: nat)
    requires |ds| == 7
    ensures FitParts([a, b, c, d, e, f, g], ds, values) <==>
            && Fits(a, ds[0], values) && Fits(b, ds[1], values) && Fits(c, ds[2], values) && Fits(d, ds[3], values)
            && Fits(e, ds[4], values) && Fits(f, ds[5], values) && Fits(g, ds[6], values)
  {
    var parts := [a, b, c, d, e, f, g];
    FitPartsAt(parts, ds, values);
    assert parts[0] == a && parts[1] == b && parts[2] == c && parts[3] == d && parts[4] == e && parts[5] == f
        && parts[6] == g;
  }

  lemma {:induction false} OtherPartsFit(info: Shape, ds: seq<Datum>, values: nat)
    requires |ds| == 7
    ensures FitParts(OtherParts(info), ds, values) <==>
            && Fits(W(), ds[0], values) && Fits(Bytes(), ds[1], values) && Fits(Bytes(), ds[2], values)
            && Fits(Record(Repeat(B(), 4)), ds[3], values)
            && Fits(info, ds[4], values) && Fits(Record(Repeat(W(), 7)), ds[5], values)
            && Fits(Record(Repeat(Pointer, 4)), ds[6], values)
  {
    SevenFit(W(), Bytes(), Bytes(), Record(Repeat(B(), 4)), info, Record(Repeat(W(), 7)), Record(Repeat(Pointer, 4)),
             ds, values);
  }

  /** With all rows stored again as they were, the images and the flag decide. */
  lemma {:induction false} InfoOfAgain(buffer: Shape, image: Shape, sampler: Shape, pair: Shape, input: Shape,
                                       output: Shape, rest: Shape, d: Datum, values: nat)
    requires Fits(InfoOf(buffer, image, sampler, pair, input, output, rest), d, values)
    requires Again(buffer, values, Run, RunOf, Always) && Again(image, values, Run, ImageOf, PlainImage)
             && Again(sampler, values, Run, RunOf, Always)
    requires Again(pair, values, Run, RunOf, Always) && Again(input, values, LiftInput, InputOf, Always)
             && Again(output, values, LiftOutput, OutputOf, Always)
    requires Again(rest, values, Run, RunOf, Always)
    ensures LiftInfo(InfoIn(d)) == d <==> PlainInfo(d)
  {
    InfoFits(buffer, image, sampler, pair, input, output, rest, d, values);
    RunAgain(Repeat(W(), 2), Item(d, 0), values);
    RowsAgain(27, buffer, Item(d, 1), values, Run, RunOf, Always);
    RowsAgain(77, image, Item(d, 2), values, Run, ImageOf, PlainImage);
    RowsAgain(21, sampler, Item(d, 4), values, Run, RunOf, Always);
    RowsAgain(12, pair, Item(d, 5), values, Run, RunOf, Always);
    RowsAgain(21, input, Item(d, 6), values, LiftInput, InputOf, Always);
    RowsAgain(20, output, Item(d, 7), values, LiftOutput, OutputOf, Always);
    InfoFields(d);
  }

  lemma InfoFields(d: Datum)
    requires d.Group? && |d.items| == 9 && Item(d, 2).Group? && Item(d, 3).Word? && Item(d, 3).n < 2
    requires Run(RunOf(Item(d, 0))) == Item(d, 0) && Listed(ListOf(Item(d, 1), RunOf), Run) == Item(d, 1)
    requires Listed(ListOf(Item(d, 2), ImageOf), Run) == Item(d, 2) <==> ListIs(Item(d, 2), PlainImage)
    requires Listed(ListOf(Item(d, 4), RunOf), Run) == Item(d, 4)
             && Listed(ListOf(Item(d, 5), RunOf), Run) == Item(d, 5)
    requires Listed(ListOf(Item(d, 6), InputOf), LiftInput) == Item(d, 6)
             && Listed(ListOf(Item(d, 7), OutputOf), LiftOutput) == Item(d, 7)
    requires Run(RunOf(Item(d, 8))) == Item(d, 8)
    ensures LiftInfo(InfoIn(d)) == d <==> PlainInfo(d)
  {
    var again := LiftInfo(InfoIn(d));
    NineDiffer(again, d);
    assert ListOf(Item(d, 2), ImageOf) == [] <==> Item(d, 2) == Group([]);
  }

  lemma NineDiffer(a: Datum, b: Datum)
    requires a.Group? && b.Group? && |a.items| == |b.items| == 9
    ensures a == b <==> forall k :: 0 <= k < 9 ==> Item(a, k) == Item(b, k)
  {
    if forall k :: 0 <= k < 9 ==> Item(a, k) == Item(b, k) {
      forall k | 0 <= k < 9 ensures a.items[k] == b.items[k] { assert Item(a, k) == Item(b, k); }
      assert a.items == b.items;
    }
  }

  lemma InfoAgain(values: nat)
    ensures Again(InfoShape(), values, LiftInfo, InfoIn, PlainInfo)
  {
    ResourcesAgain(values);
    ImagesAgain(values);
    StagesAgain(values);
    MemoryAgain(values);
    forall d | Fits(InfoShape(), d, values) ensures LiftInfo(InfoIn(d)) == d <==> PlainInfo(d) {
      InfoOfAgain(BufferShape(), ImageShape(), SamplerShape(), PairShape(), InputShape(), OutputShape(),
                  InfoRestShape(), d, values);
    }
  }

  lemma {:induction false} TablesOfAgain(memory: Shape, source: Shape, block: Shape, srt: Shape, info: Shape, d: Datum,
                                         values: nat)
    requires Fits(TablesOf(memory, source, block, srt, info), d, values)
    requires Again(memory, values, Run, RunOf, Always) && Again(source, values, LiftSource, SourceOf, PlainSource)
    requires Again(block, values, LiftBlock, BlockOf, Always) && Again(srt, values, LiftSrt, SrtOf, Always)
    requires Again(info, values, LiftInfo, InfoIn, PlainInfo)
    ensures LiftTables(TablesIn(d)) == d <==> Plain(d)
  {
    FitsJoin(RowParts(memory, source, block, srt), OtherParts(info), d, values);
    RowPartsAgain(memory, source, block, srt, d, values);
    OtherPartsAgain(info, d, values);
    TablesFields(d);
  }

  lemma {:induction false} RowPartsAgain(memory: Shape, source: Shape, block: Shape, srt: Shape, d: Datum, values: nat)
    requires d.Group? && |d.items| == 13 && FitParts(RowParts(memory, source, block, srt), d.items[..6], values)
    requires Again(memory, values, Run, RunOf, Always) && Again(source, values, LiftSource, SourceOf, PlainSource)
    requires Again(block, values, LiftBlock, BlockOf, Always) && Again(srt, values, LiftSrt, SrtOf, Always)
    ensures Listed(ListOf(Item(d, 0), RunOf), Run) == Item(d, 0)
    ensures Listed(ListOf(Item(d, 1), SourceOf), LiftSource) == Item(d, 1) <==> ListIs(Item(d, 1), PlainSource)
    ensures Listed(ListOf(Item(d, 2), BlockOf), LiftBlock) == Item(d, 2) && Run(RunOf(Item(d, 3))) == Item(d, 3)
    ensures Listed(ListOf(Item(d, 4), SrtOf), LiftSrt) == Item(d, 4) && Run(RunOf(Item(d, 5))) == Item(d, 5)
  {
    RowPartsFit(memory, source, block, srt, d.items[..6], values);
    RowsAgain(79, memory, Item(d, 0), values, Run, RunOf, Always);
    RowsAgain(72, source, Item(d, 1), values, LiftSource, SourceOf, PlainSource);
    RowsAgain(28, block, Item(d, 2), values, LiftBlock, BlockOf, Always);
    WordsAgain(4, 4, 0x1_0000_0000, Item(d, 3), values);
    RowsAgain(8, srt, Item(d, 4), values, LiftSrt, SrtOf, Always);
    WordsAgain(4, 4, 0x1_0000_0000, Item(d, 5), values);
  }

  lemma {:induction false} OtherPartsAgain(info: Shape, d: Datum, values: nat)
    requires d.Group? && |d.items| == 13 && FitParts(OtherParts(info), d.items[6..], values)
             && Again(info, values, LiftInfo, InfoIn, PlainInfo)
    ensures Item(d, 6).Word? && Run(RunOf(Item(d, 7))) == Item(d, 7) && Run(RunOf(Item(d, 8))) == Item(d, 8)
            && Run(RunOf(Item(d, 9))) == Item(d, 9)
    ensures LiftInfo(InfoIn(Item(d, 10))) == Item(d, 10) <==> PlainInfo(Item(d, 10))
    ensures Run(RunOf(Item(d, 11))) == Item(d, 11) && Listed(ListOf(Item(d, 12), PointerOf), LiftPointer) == Item(d, 12)
  {
    OtherPartsFit(info, d.items[6..], values);
    WordsAgain(1, 1, 0x100, Item(d, 7), values);
    WordsAgain(1, 1, 0x100, Item(d, 8), values);
    RunAgain(Repeat(B(), 4), Item(d, 9), values);
    RunAgain(Repeat(W(), 7), Item(d, 11), values);
    PointersAgain(4, Item(d, 12), values);
  }

  lemma TablesFields(d: Datum)
    requires d.Group? && |d.items| == 13 && Listed(ListOf(Item(d, 0), RunOf), Run) == Item(d, 0)
    requires Listed(ListOf(Item(d, 1), SourceOf), LiftSource) == Item(d, 1) <==> ListIs(Item(d, 1), PlainSource)
    requires Listed(ListOf(Item(d, 2), BlockOf), LiftBlock) == Item(d, 2) && Run(RunOf(Item(d, 3))) == Item(d, 3)
    requires Listed(ListOf(Item(d, 4), SrtOf), LiftSrt) == Item(d, 4) && Run(RunOf(Item(d, 5))) == Item(d, 5)
             && Item(d, 6).Word?
    requires Run(RunOf(Item(d, 7))) == Item(d, 7) && Run(RunOf(Item(d, 8))) == Item(d, 8)
             && Run(RunOf(Item(d, 9))) == Item(d, 9)
    requires LiftInfo(InfoIn(Item(d, 10))) == Item(d, 10) <==> PlainInfo(Item(d, 10))
    requires Run(RunOf(Item(d, 11))) == Item(d, 11)
             && Listed(ListOf(Item(d, 12), PointerOf), LiftPointer) == Item(d, 12)
    ensures LiftTables(TablesIn(d)) == d <==> Plain(d)
  {
    var again := LiftTables(TablesIn(d));
    assert Item(again, 1) == Listed(ListOf(Item(d, 1), SourceOf), LiftSource)
        && Item(again, 10) == LiftInfo(InfoIn(Item(d, 10)));
    if Item(again, 1) == Item(d, 1) && Item(again, 10) == Item(d, 10) {
      forall k | 0 <= k < 13 ensures again.items[k] == d.items[k] { assert Item(again, k) == Item(d, k); }
      assert again.items == d.items;
    }
  }

  /** An entry's tables are stored again as they stood in it exactly under the condition. */
  lemma TablesAgain(d: Datum, values: nat)
    requires Fits(TablesShape(), d, values)
    ensures LiftTables(TablesIn(d)) == d <==> Plain(d)
    ensures Enumerated(TablesIn(d).info.images)
  {
    MemoryAgain(values);
    SourcesAgain(values);
    BlocksAgain(values);
    InfoAgain(values);
    TablesOfAgain(MemoryShape(), SourceShape(), BlockShape(), SrtShape(), InfoShape(), d, values);
    ImagesEnumerated(Item(Item(d, 10), 2));
  }
}
