/** The tables of a plan and what an entry stores for them. Three things are stored that do not come back: the column of
a descriptor source without one, the upper bytes of a table operation, and prepared image modes when there are no
images. */
module PlanEntries {
  import opened Wrappers
  import opened Layouts
  import opened PlanLayout

  // ----- Data

  function Item(d: Datum, k: nat): Datum { if d.Group? && k < |d.items| then d.items[k] else Group([]) }

  function LiftWord(n: nat): Datum { Word(n) }
  function WordOf(d: Datum): nat { if d.Word? then d.n else 0 }

  function LiftPointer(p: Index): Datum { Reference(p) }
  function PointerOf(d: Datum): Index { if d.Reference? then d.index else None }

  function Listed<T>(xs: seq<T>, lift: T -> Datum): Datum { Group(seq(|xs|, i requires 0 <= i < |xs| => lift(xs[i]))) }

  function ListOf<T>(d: Datum, of: Datum -> T): seq<T> {
    if d.Group? then seq(|d.items|, i requires 0 <= i < |d.items| => of(d.items[i])) else []
  }

  function Run(xs: seq<nat>): Datum { Listed(xs, LiftWord) }
  function RunOf(d: Datum): seq<nat> { ListOf(d, WordOf) }

  // ----- What is stored for the tables, and what comes back

  function LiftColumn(c: Column): Datum { Group([Run(c.fields), Listed(c.keyDomains, Run), Run(c.more)]) }
  function ColumnOf(d: Datum): Column { Column(RunOf(Item(d, 0)), ListOf(Item(d, 1), RunOf), RunOf(Item(d, 2))) }

  /** The column of a source that has none. */
  const NO_COLUMN: Column := Column([0, 0, 0, 0, 0, 0xFFFF_FFFF, 0, 0], [], [0, 0, 0, 0, 0, 0])

  function LiftSource(s: Source<Index>): Datum {
    Group([Listed(s.dwords, LiftPointer), Word(s.dwordCount), Word(if s.column.Some? then 1 else 0),
           LiftColumn(if s.column.Some? then s.column.value else NO_COLUMN)])
  }
  function SourceOf(d: Datum): Source<Index> {
    Source(ListOf(Item(d, 0), PointerOf), WordOf(Item(d, 1)), if WordOf(Item(d, 2)) == 1 then Some(ColumnOf(Item(d, 3)))
           else None)
  }

  function LiftBlock(b: ControlBlock<Index>): Datum {
    Group([Reference(b.condition), Run(b.successors), Run(b.sources), Run(b.images)])
  }
  function BlockOf(d: Datum): ControlBlock<Index> {
    ControlBlock(PointerOf(Item(d, 0)), RunOf(Item(d, 1)), RunOf(Item(d, 2)), RunOf(Item(d, 3)))
  }

  function LiftSrt(r: SrtRead<Index>): Datum { Group([Reference(r.value), Word(r.flatOffset)]) }
  function SrtOf(d: Datum): SrtRead<Index> { SrtRead(PointerOf(Item(d, 0)), WordOf(Item(d, 1))) }

  function LiftInput(i: StageInput): Datum { Group([Run(i.fields), Run(i.name), Word(i.perVertex)]) }
  function InputOf(d: Datum): StageInput { StageInput(RunOf(Item(d, 0)), RunOf(Item(d, 1)), WordOf(Item(d, 2))) }

  function LiftOutput(o: StageOutput): Datum { Group([Run(o.fields), Run(o.name)]) }
  function OutputOf(d: Datum): StageOutput { StageOutput(RunOf(Item(d, 0)), RunOf(Item(d, 1))) }

  /** Where an image keeps its table operation, a byte that is stored as a word. */
  const OPERATION: nat := 37

  function ImageOf(d: Datum): seq<nat> {
    var fields := RunOf(d);
    if |fields| > OPERATION then fields[OPERATION := fields[OPERATION] % 256] else fields
  }

  function LiftInfo(i: Info): Datum {
    Group([Run(i.sizes), Listed(i.buffers, Run), Listed(i.images, Run), Word(if i.prepared then 1 else 0),
           Listed(i.samplers, Run),
           Listed(i.pairs, Run), Listed(i.inputs, LiftInput), Listed(i.outputs, LiftOutput), Run(i.rest)])
  }
  /** Preparing the modes of no images leaves none prepared. */
  function InfoIn(d: Datum): Info {
    var images := ListOf(Item(d, 2), ImageOf);
    Info(RunOf(Item(d, 0)), ListOf(Item(d, 1), RunOf), images, WordOf(Item(d, 3)) == 1
         && images != [], ListOf(Item(d, 4), RunOf),
         ListOf(Item(d, 5), RunOf), ListOf(Item(d, 6), InputOf), ListOf(Item(d, 7), OutputOf), RunOf(Item(d, 8)))
  }

  function LiftTables(t: Tables<Index>): Datum {
    Group([Listed(t.memory, Run), Listed(t.sources, LiftSource), Listed(t.controlFlow, LiftBlock),
           Run(t.materialization),
           Listed(t.srtReads, LiftSrt), Run(t.guardedSlots), Word(t.guardOffset), Run(t.cleanSlots), Run(t.pureSlots),
               Run(t.flags),
           LiftInfo(t.info), Run(t.fillFields), Listed(t.fill, LiftPointer)])
  }
  function TablesIn(d: Datum): Tables<Index> {
    Tables(ListOf(Item(d, 0), RunOf), ListOf(Item(d, 1), SourceOf), ListOf(Item(d, 2), BlockOf), RunOf(Item(d, 3)),
           ListOf(Item(d, 4), SrtOf),
           RunOf(Item(d, 5)), WordOf(Item(d, 6)), RunOf(Item(d, 7)), RunOf(Item(d, 8)), RunOf(Item(d, 9)),
               InfoIn(Item(d, 10)),
           RunOf(Item(d, 11)), ListOf(Item(d, 12), PointerOf))
  }

  // ----- What is stored comes back

  lemma ListBack<T>(xs: seq<T>, lift: T -> Datum, of: Datum -> T)
    requires forall i :: 0 <= i < |xs| ==> of(lift(xs[i])) == xs[i]
    ensures ListOf(Listed(xs, lift), of) == xs
  {
  }

  lemma RunBack(xs: seq<nat>)
    ensures RunOf(Run(xs)) == xs
  {
    ListBack(xs, LiftWord, WordOf);
  }

  lemma RunsBack(xs: seq<seq<nat>>)
    ensures ListOf(Listed(xs, Run), RunOf) == xs
  {
    forall i | 0 <= i < |xs| ensures RunOf(Run(xs[i])) == xs[i] { RunBack(xs[i]); }
    ListBack(xs, Run, RunOf);
  }

  lemma ColumnBack(c: Column)
    ensures ColumnOf(LiftColumn(c)) == c
  {
    RunBack(c.fields);
    RunsBack(c.keyDomains);
    RunBack(c.more);
  }

  lemma SourceBack(s: Source<Index>)
    ensures SourceOf(LiftSource(s)) == s
  {
    ListBack(s.dwords, LiftPointer, PointerOf);
    ColumnBack(if s.column.Some? then s.column.value else NO_COLUMN);
  }

  lemma BlockBack(b: ControlBlock<Index>)
    ensures BlockOf(LiftBlock(b)) == b
  {
    RunBack(b.successors);
    RunBack(b.sources);
    RunBack(b.images);
  }

  lemma StagesBack(i: StageInput, o: StageOutput)
    ensures InputOf(LiftInput(i)) == i && OutputOf(LiftOutput(o)) == o
  {
    RunBack(i.fields);
    RunBack(i.name);
    RunBack(o.fields);
    RunBack(o.name);
  }

  /** Table operations are bytes. */
  predicate Enumerated(images: seq<seq<nat>>) {
    forall i :: 0 <= i < |images| && |images[i]| > OPERATION ==> images[i][OPERATION] < 256
  }

  lemma ImagesBack(images: seq<seq<nat>>)
    requires Enumerated(images)
    ensures ListOf(Listed(images, Run), ImageOf) == images
  {
    forall i | 0 <= i < |images| ensures ImageOf(Run(images[i])) == images[i] { RunBack(images[i]); }
    ListBack(images, Run, ImageOf);
  }

  /** The tables as they come back: modes are prepared only where there are images. */
  function SettledInfo(i: Info): Info { i.(prepared := i.prepared && i.images != []) }
  function Settled<P>(t: Tables<P>): Tables<P> { t.(info := SettledInfo(t.info)) }

  lemma InfoBack(i: Info)
    requires Enumerated(i.images)
    ensures InfoIn(LiftInfo(i)) == SettledInfo(i)
  {
    RunBack(i.sizes);
    RunsBack(i.buffers);
    ImagesBack(i.images);
    RunsBack(i.samplers);
    RunsBack(i.pairs);
    forall k | 0 <= k < |i.inputs| ensures InputOf(LiftInput(i.inputs[k])) == i.inputs[k] {
      StagesBack(i.inputs[k], StageOutput([], []));
    }
    ListBack(i.inputs, LiftInput, InputOf);
    forall k | 0 <= k < |i.outputs| ensures OutputOf(LiftOutput(i.outputs[k])) == i.outputs[k] {
      StagesBack(StageInput([], [], 0), i.outputs[k]);
    }
    ListBack(i.outputs, LiftOutput, OutputOf);
    RunBack(i.rest);
  }

  lemma RowsBack(t: Tables<Index>)
    ensures ListOf(Listed(t.sources, LiftSource), SourceOf) == t.sources
    ensures ListOf(Listed(t.controlFlow, LiftBlock), BlockOf) == t.controlFlow
    ensures ListOf(Listed(t.srtReads, LiftSrt), SrtOf) == t.srtReads
    ensures ListOf(Listed(t.fill, LiftPointer), PointerOf) == t.fill
  {
    forall i | 0 <= i < |t.sources| ensures SourceOf(LiftSource(t.sources[i])) == t.sources[i] {
      SourceBack(t.sources[i]);
    }
    ListBack(t.sources, LiftSource, SourceOf);
    forall i | 0 <= i < |t.controlFlow| ensures BlockOf(LiftBlock(t.controlFlow[i])) == t.controlFlow[i] {
      BlockBack(t.controlFlow[i]);
    }
    ListBack(t.controlFlow, LiftBlock, BlockOf);
    ListBack(t.srtReads, LiftSrt, SrtOf);
    ListBack(t.fill, LiftPointer, PointerOf);
  }

  /** Whatever the tables hold, null pointers and sources without a column included, comes back from what is stored. */
  lemma TablesBack(t: Tables<Index>)
    requires Enumerated(t.info.images)
    ensures TablesIn(LiftTables(t)) == Settled(t)
  {
    RunsBack(t.memory);
    RowsBack(t);
    RunBack(t.materialization);
    RunBack(t.guardedSlots);
    RunBack(t.cleanSlots);
    RunBack(t.pureSlots);
    RunBack(t.flags);
    InfoBack(t.info);
    RunBack(t.fillFields);
  }

  // ----- What comes back from an entry, stored again

  lemma {:induction false} FitPartsAt(parts: seq<Shape>, ds: seq<Datum>, values: nat)
    requires |parts| == |ds|
    ensures FitParts(parts, ds, values) <==> forall k :: 0 <= k < |parts| ==> Fits(parts[k], ds[k], values)
    decreases |parts|
  {
    if parts != [] {
      FitPartsAt(parts[1..], ds[1..], values);
      if forall k :: 0 <= k < |parts| ==> Fits(parts[k], ds[k], values) {
        forall k | 0 <= k < |parts[1..]| ensures Fits(parts[1..][k], ds[1..][k], values) {
          assert Fits(parts[k + 1], ds[k + 1], values);
        }
      }
      if FitParts(parts, ds, values) {
        forall k | 0 <= k < |parts| ensures Fits(parts[k], ds[k], values) {
          if k > 0 { assert Fits(parts[1..][k - 1], ds[1..][k - 1], values); }
        }
      }
    }
  }

  lemma {:induction false} FitItemsAt(item: Shape, ds: seq<Datum>, values: nat)
    ensures FitItems(item, ds, values) <==> forall k :: 0 <= k < |ds| ==> Fits(item, ds[k], values)
    decreases |ds|
  {
    if ds != [] {
      FitItemsAt(item, ds[1..], values);
      if forall k :: 0 <= k < |ds| ==> Fits(item, ds[k], values) {
        forall k | 0 <= k < |ds[1..]| ensures Fits(item, ds[1..][k], values) { assert Fits(item, ds[k + 1], values); }
      }
      if FitItems(item, ds, values) {
        forall k | 0 <= k < |ds| ensures Fits(item, ds[k], values) {
          if k > 0 { assert Fits(item, ds[1..][k - 1], values); }
        }
      }
    }
  }

  /** Every datum of a layout is stored again as it was. */
  ghost predicate Restores<T>(item: Shape, values: nat, lift: T -> Datum, of: Datum -> T) {
    forall d :: Fits(item, d, values) ==> lift(of(d)) == d
  }

  lemma ListAgain<T>(minimum: nat, item: Shape, d: Datum, values: nat, lift: T -> Datum, of: Datum -> T)
    requires Fits(Many(minimum, item), d, values) && Restores(item, values, lift, of)
    ensures Listed(ListOf(d, of), lift) == d
  {
    FitItemsAt(item, d.items, values);
    assert Listed(ListOf(d, of), lift).items == d.items;
  }

  predicate AllFields(parts: seq<Shape>) { forall k :: 0 <= k < |parts| ==> parts[k].Field? }

  lemma RunAgain(parts: seq<Shape>, d: Datum, values: nat)
    requires Fits(Record(parts), d, values) && AllFields(parts)
    ensures Run(RunOf(d)) == d && |RunOf(d)| == |parts|
  {
    FitPartsAt(parts, d.items, values);
    forall k | 0 <= k < |parts| ensures LiftWord(WordOf(d.items[k])) == d.items[k] {
      assert Fits(parts[k], d.items[k], values);
    }
    assert Run(RunOf(d)).items == d.items;
  }

  lemma RunsAgain(minimum: nat, parts: seq<Shape>, d: Datum, values: nat)
    requires Fits(Many(minimum, Record(parts)), d, values) && AllFields(parts)
    ensures Listed(ListOf(d, RunOf), Run) == d
  {
    forall x | Fits(Record(parts), x, values) ensures Run(RunOf(x)) == x { RunAgain(parts, x, values); }
    ListAgain(minimum, Record(parts), d, values, Run, RunOf);
  }

  /** A counted list of words or bytes. */
  lemma WordsAgain(minimum: nat, width: nat, limit: nat, d: Datum, values: nat)
    requires Fits(Many(minimum, Field(width, limit)), d, values)
    ensures Run(RunOf(d)) == d
  {
    ListAgain(minimum, Field(width, limit), d, values, LiftWord, WordOf);
  }

  lemma PointersAgain(n: nat, d: Datum, values: nat)
    requires Fits(Record(Repeat(Pointer, n)), d, values)
    ensures Listed(ListOf(d, PointerOf), LiftPointer) == d
  {
    FitPartsAt(Repeat(Pointer, n), d.items, values);
    forall k | 0 <= k < n ensures LiftPointer(PointerOf(d.items[k])) == d.items[k] {
      assert Fits(Repeat(Pointer, n)[k], d.items[k], values);
    }
    assert Listed(ListOf(d, PointerOf), LiftPointer).items == d.items;
  }
}
