/** The table of shader sources, shared by threads: a look under the shared lock, then a second look under the
exclusive lock before an entry is added. Entries with equal keys share a bucket and are told apart by their code. */
module SourceTable {
  import opened Wrappers

  type Key = seq<nat>
  type Code = seq<nat>

  /** A shared entry; `id` is its identity. */
  datatype Source = Source(id: nat, code: Code)

  /** The entry of a bucket that has this code. */
  function FindIn(bucket: seq<Source>, code: Code): (found: Option<Source>)
    ensures found.Some? ==> found.value in bucket && found.value.code == code
    ensures found.None? ==> forall s <- bucket :: s.code != code
  {
    if bucket == [] then None else if bucket[0].code == code then Some(bucket[0]) else FindIn(bucket[1..], code)
  }

  function Find(table: map<Key, seq<Source>>, key: Key, code: Code): Option<Source> {
    if key in table then FindIn(table[key], code) else None
  }

  function Bucket(table: map<Key, seq<Source>>, key: Key): seq<Source> { if key in table then table[key] else [] }

  /** What the region under the exclusive lock leaves and answers: the entry that is there by now, or a new one. */
  function FoundOrAdded(table: map<Key, seq<Source>>, next: nat, key: Key, code: Code): (map<Key, seq<Source>>, nat,
      Source) {
    match Find(table, key, code)
    case Some(source) => (table, next, source)
    case None => (table[key := Bucket(table, key) + [Source(next, code)]], next + 1, Source(next, code))
  }

  // ----- The variants of one source

  datatype Layout = Layout(descriptorSet: nat, firstBinding: nat, pushConstantOffset: nat, pushConstantSize: nat)
  datatype Variant = Variant(id: nat, layout: Layout)
  datatype Failure = Failure(codeAddress: nat, layout: Layout)
  datatype Record = Record(variants: seq<Variant>, failures: seq<Failure>)

  function VariantOf(variants: seq<Variant>, layout: Layout): (found: Option<Variant>)
    ensures found.Some? <==> Has(variants, layout)
    ensures found.Some? ==> found.value in variants && found.value.layout == layout
  {
    if variants == [] then None else if variants[0].layout == layout then Some(variants[0])
    else VariantOf(variants[1..], layout)
  }

  ghost predicate Has(variants: seq<Variant>, layout: Layout) { exists v <- variants :: v.layout == layout }

  ghost predicate DistinctLayouts(variants: seq<Variant>) {
    forall i, j :: 0 <= i < j < |variants| ==> variants[i].layout != variants[j].layout
  }

  datatype Look = Hit(variant: Variant) | Remembered | Absent

  /** A variant, a remembered failure, or neither. */
  function LookFor(record: Record, layout: Layout, address: nat): Look {
    match VariantOf(record.variants, layout)
    case Some(variant) => Hit(variant)
    case None => if Failure(address, layout) in record.failures then Remembered else Absent
  }

  function Compiled(record: Record, layout: Layout, id: nat): Record {
    record.(variants := record.variants + [Variant(id, layout)])
  }

  function Failed(record: Record, layout: Layout, address: nat, remember: bool): Record {
    if remember then record.(failures := record.failures + [Failure(address, layout)]) else record
  }

  // ----- The table and its entries, updated in place

  class Table {
    var sources: map<Key, seq<Source>>
    var next: nat

    constructor ()
      ensures sources == map[] && next == 0
    {
      sources, next := map[], 0;
    }

    /** The region under the exclusive lock, for an entry that was not there under the shared lock. */
    method FindOrAdd(key: Key, code: Code) returns (source: Source)
      modifies this
      ensures (sources, next, source) == FoundOrAdded(old(sources), old(next), key, code)
    {
      var found := Find(sources, key, code);
      if found.Some? { return found.value; }
      source := Source(next, code);
      sources, next := sources[key := Bucket(sources, key) + [source]], next + 1;
    }
  }

  /** What a compilation attempt ends in: a variant, or an exception from the emission or from elsewhere. */
  datatype Attempt = Emitted(id: nat) | EmissionFailed | OtherFailure

  /** The variants of one source, all accesses under its mutex. */
  class Variants {
    var variants: seq<Variant>
    var emissionFailures: seq<Failure>

    constructor ()
      ensures variants == [] && emissionFailures == []
    {
      variants, emissionFailures := [], [];
    }

    function Now(): Record
      reads this
    {
      Record(variants, emissionFailures)
    }

    method FindVariant(layout: Layout) returns (found: Option<Variant>)
      ensures found == VariantOf(variants, layout)
    {
      for i := 0 to |variants|
        invariant VariantOf(variants, layout) == VariantOf(variants[i..], layout)
      {
        if variants[i].layout == layout { return Some(variants[i]); }
      }
      found := None;
    }

    /** Compiles only what is neither there nor known to fail; None where it throws. */
    method FindOrCompile(layout: Layout, codeAddress: nat, attempt: Attempt, memoFailures: bool)
      returns (variant: Option<Variant>, cacheHit: bool)
      modifies this
      ensures old(DistinctLayouts(variants)) ==> DistinctLayouts(variants)
      ensures cacheHit <==> old(Has(variants, layout))
      ensures match LookFor(old(Now()), layout, codeAddress)
              case Hit(found) => variant == Some(found) && Now() == old(Now())
              case Remembered => variant == None && Now() == old(Now())
              case Absent =>
                if attempt.Emitted? then variant == Some(Variant(attempt.id, layout))
                    && Now() == Compiled(old(Now()), layout, attempt.id)
                else variant == None && Now() == Failed(old(Now()), layout, codeAddress, attempt.EmissionFailed?
                                                        && memoFailures)
    {
      variant := FindVariant(layout);
      cacheHit := variant.Some?;
      if variant.Some? || Failure(codeAddress, layout) in emissionFailures { return; }
      match attempt {
        case Emitted(id) =>
          variants := variants + [Variant(id, layout)];
          variant := Some(Variant(id, layout));
        case EmissionFailed =>
          if memoFailures { emissionFailures := emissionFailures + [Failure(codeAddress, layout)]; }
        case OtherFailure =>
      }
    }
  }
}
