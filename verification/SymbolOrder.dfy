/** Rebuilding `.gnu.hash` in place: symbols are reordered bucket by bucket, relocations follow them, and the
section is filled again. */
module SymbolOrder {
  import opened GnuHash

  datatype Sym = Sym(name: nat, info: nat, other: nat, section: nat, value: nat, size: nat)

  // ----- The stable sort by bucket

  /** `i` sorts before `j`: by bucket, and by index within one. */
  predicate Less(hashes: seq<nat>, buckets: nat, i: nat, j: nat)
    requires i < |hashes| && j < |hashes| && buckets > 0
  {
    BucketOf(hashes[i], buckets) < BucketOf(hashes[j], buckets)
      || (BucketOf(hashes[i], buckets) == BucketOf(hashes[j], buckets) && i < j)
  }

  ghost predicate Indices(s: seq<nat>, from: nat, to: nat) {
    (forall x :: x in s <==> from <= x < to) && from <= to && |s| == to - from
  }

  ghost predicate Ordered(hashes: seq<nat>, buckets: nat, s: seq<nat>) {
    buckets > 0 && (forall p :: 0 <= p < |s| ==> s[p] < |hashes|)
      && forall p, q :: 0 <= p < q < |s| ==> Less(hashes, buckets, s[p], s[q])
  }

  function InsertStable(hashes: seq<nat>, buckets: nat, i: nat, s: seq<nat>): (r: seq<nat>)
    requires i < |hashes| && Ordered(hashes, buckets, s) && i !in s
    ensures Ordered(hashes, buckets, r) && |r| == |s| + 1 && forall x :: x in r <==> x in s || x == i
  {
    if s == [] then [i]
    else if Less(hashes, buckets, i, s[0]) then [i] + s
    else
      var rest := InsertStable(hashes, buckets, i, s[1..]);
      OrderedFirst(hashes, buckets, i, s, rest);
      [s[0]] + rest
  }

  lemma OrderedFirst(hashes: seq<nat>, buckets: nat, i: nat, s: seq<nat>, rest: seq<nat>)
    requires i < |hashes| && s != [] && Ordered(hashes, buckets, s) && i !in s && !Less(hashes, buckets, i, s[0])
    requires Ordered(hashes, buckets, rest) && forall x :: x in rest <==> x in s[1..] || x == i
    ensures Ordered(hashes, buckets, [s[0]] + rest) && forall x :: x in [s[0]] + rest <==> x in s || x == i
  {
    forall q | 0 <= q < |rest| ensures Less(hashes, buckets, s[0], rest[q]) { assert rest[q] in rest; }
    assert s == [s[0]] + s[1..];
  }

  /** The indices from `from` on, stably sorted by bucket. */
  function StableSort(hashes: seq<nat>, buckets: nat, from: nat): (r: seq<nat>)
    requires from <= |hashes| && buckets > 0
    ensures Ordered(hashes, buckets, r) && Indices(r, from, |hashes|)
    decreases |hashes| - from
  {
    if from == |hashes| then [] else InsertStable(hashes, buckets, from, StableSort(hashes, buckets, from + 1))
  }

  // ----- What the reorder does

  /** `moved` is a permutation of the indices that keeps those below `off`. */
  ghost predicate Permutes(moved: seq<nat>, off: nat) {
    && (forall i :: 0 <= i < |moved| ==> moved[i] < |moved| && (i < off ==> moved[i] == i)
                                         && (i >= off ==> moved[i] >= off))
    && (forall i, j :: 0 <= i < j < |moved| ==> moved[i] != moved[j])
  }

  /** Every element of `before` stands in `after` where `moved` says. */
  ghost predicate Follows<T>(before: seq<T>, after: seq<T>, moved: seq<nat>) {
    |before| == |after| == |moved| && forall i :: 0 <= i < |before| ==>
      moved[i] < |after|
      && after[moved[i]] == before[i]
  }

  /** Symbols of one bucket keep their order. */
  ghost predicate Stable(names: seq<Name>, moved: seq<nat>, off: nat, buckets: nat) {
    |names| == |moved| && buckets > 0 &&
    forall i, j :: off <= i < j < |names| && BucketOf(Hash(names[i]), buckets) == BucketOf(Hash(names[j]), buckets) ==>
        moved[i] < moved[j]
  }

  /** The order and the map agree: the symbol now in place `off + p` is the old `sorted[p]`. */
  ghost predicate Maps(sorted: seq<nat>, moved: seq<nat>, off: nat) {
    && |moved| == off + |sorted| && (forall i :: 0 <= i < off ==> moved[i] == i)
    && (forall p :: 0 <= p < |sorted| ==> off <= sorted[p] < |moved| && moved[sorted[p]] == off + p)
  }

  lemma MapsPermutes(hashes: seq<nat>, buckets: nat, sorted: seq<nat>, moved: seq<nat>, off: nat)
    requires |moved| == |hashes| && Maps(sorted, moved, off) && Indices(sorted, off, |hashes|)
    ensures Permutes(moved, off)
  {
    forall i | off <= i < |moved| ensures off <= moved[i] < |moved| && sorted[moved[i] - off] == i {
      assert i in sorted;
      var p :| 0 <= p < |sorted| && sorted[p] == i;
    }
  }

  lemma OrderedLess(hashes: seq<nat>, buckets: nat, s: seq<nat>, p: nat, q: nat)
    requires Ordered(hashes, buckets, s) && p < q < |s|
    ensures Less(hashes, buckets, s[p], s[q])
  {
  }

  lemma LessFirst(hashes: seq<nat>, buckets: nat, s: seq<nat>, p: nat, q: nat)
    requires Ordered(hashes, buckets, s) && p < |s| && q < |s|
    ensures Less(hashes, buckets, s[p], s[q]) ==> p < q
  {
  }

  lemma MapsStable(names: seq<Name>, buckets: nat, sorted: seq<nat>, moved: seq<nat>, off: nat)
    requires |moved| == |names| && Maps(sorted, moved, off) && Indices(sorted, off, |names|)
             && Ordered(Hashes(names), buckets, sorted)
    ensures Stable(names, moved, off, buckets)
  {
    forall i, j | off <= i < j < |names| && BucketOf(Hash(names[i]), buckets) == BucketOf(Hash(names[j]), buckets)
      ensures moved[i] < moved[j]
    {
      assert i in sorted && j in sorted;
      var p :| 0 <= p < |sorted| && sorted[p] == i;
      var q :| 0 <= q < |sorted| && sorted[q] == j;
      LessFirst(Hashes(names), buckets, sorted, p, q);
    }
  }

  lemma MapsGrouped(before: seq<Name>, after: seq<Name>, buckets: nat, sorted: seq<nat>, off: nat)
    requires |before| == |after| == off + |sorted| && Ordered(Hashes(before), buckets, sorted)
    requires forall p :: 0 <= p < |sorted| ==> after[off + p] == before[sorted[p]]
    ensures Grouped(Hashes(after), off, buckets)
  {
    var hashes := Hashes(after);
    forall i, j | off <= i <= j < |hashes| ensures BucketOf(hashes[i], buckets) <= BucketOf(hashes[j], buckets) {
      assert after[off + (i - off)] == before[sorted[i - off]] && after[off + (j - off)] == before[sorted[j - off]];
      if i < j { assert Less(Hashes(before), buckets, sorted[i - off], sorted[j - off]); }
    }
  }

  /** The first `off` elements of `before`, then the first `p` that `sorted` names. */
  ghost predicate Gathered<T>(before: seq<T>, after: seq<T>, sorted: seq<nat>, off: nat, p: nat) {
    && off <= |before| && p <= |sorted| && off + p <= |after|
    && (forall k :: 0 <= k < |sorted| ==> sorted[k] < |before|)
    && (forall i :: 0 <= i < off ==> after[i] == before[i])
    && (forall k :: 0 <= k < p ==> after[off + k] == before[sorted[k]])
  }

  lemma GatheredFollows<T>(before: seq<T>, after: seq<T>, sorted: seq<nat>, off: nat, moved: seq<nat>)
    requires Gathered(before, after, sorted, off, |sorted|) && Maps(sorted, moved, off)
             && Indices(sorted, off, |before|)
    requires |before| == |after| == |moved|
    ensures Follows(before, after, moved)
  {
    forall i | 0 <= i < |before| ensures moved[i] < |after| && after[moved[i]] == before[i] {
      if i >= off {
        assert i in sorted;
        var p :| 0 <= p < |sorted| && sorted[p] == i;
        assert after[off + p] == before[sorted[p]];
      }
    }
  }

  /** The first `p` movable symbols have their new index. */
  ghost predicate MapsUpTo(sorted: seq<nat>, moved: seq<nat>, off: nat, p: nat) {
    && p <= |sorted| && off <= |moved| && (forall i :: 0 <= i < off ==> moved[i] == i)
    && (forall k :: 0 <= k < |sorted| ==> off <= sorted[k] < |moved|)
    && (forall k :: 0 <= k < p ==> moved[sorted[k]] == off + k)
  }

  lemma MapsOneMore(hashes: seq<nat>, buckets: nat, sorted: seq<nat>, moved: seq<nat>, off: nat, p: nat)
    requires MapsUpTo(sorted, moved, off, p) && p < |sorted| && Ordered(hashes, buckets, sorted)
    ensures MapsUpTo(sorted, moved[sorted[p] := off + p], off, p + 1)
  {
    forall k | 0 <= k < p ensures sorted[k] != sorted[p] { OrderedLess(hashes, buckets, sorted, k, p); }
  }

  lemma GatheredOneMore<T>(before: seq<T>, after: seq<T>, sorted: seq<nat>, off: nat, p: nat)
    requires Gathered(before, after, sorted, off, p) && p < |sorted| && off + p < |after|
    ensures Gathered(before, after[off + p := before[sorted[p]]], sorted, off, p + 1)
  {
  }

  /** The symbols below `off` as they are, then the movable ones in their new order. */
  method Reposition(syms: array<Sym>, names: array<Name>, off: nat, movable: seq<nat>, newSyms: array<Sym>,
                    newNames: array<Name>, oldToNew: array<nat>, ghost hashes: seq<nat>, ghost buckets: nat)
    requires syms.Length == names.Length == newSyms.Length == newNames.Length == oldToNew.Length == off + |movable|
    requires newSyms != syms && newNames != names
    requires Ordered(hashes, buckets, movable) && forall k :: 0 <= k < |movable| ==> off <= movable[k] < syms.Length
    modifies newSyms, newNames, oldToNew
    ensures Gathered(syms[..], newSyms[..], movable, off, |movable|)
            && Gathered(names[..], newNames[..], movable, off, |movable|)
    ensures Maps(movable, oldToNew[..], off)
  {
    for i := 0 to off
      invariant forall k :: 0 <= k < i ==> newSyms[k] == syms[k]
      invariant forall k :: 0 <= k < i ==> newNames[k] == names[k]
      invariant forall k :: 0 <= k < i ==> oldToNew[k] == k
    {
      newSyms[i], newNames[i], oldToNew[i] := syms[i], names[i], i;
    }
    for p := 0 to |movable|
      invariant Gathered(syms[..], newSyms[..], movable, off, p)
      invariant Gathered(names[..], newNames[..], movable, off, p)
      invariant MapsUpTo(movable, oldToNew[..], off, p)
    {
      GatheredOneMore(syms[..], newSyms[..], movable, off, p);
      GatheredOneMore(names[..], newNames[..], movable, off, p);
      MapsOneMore(hashes, buckets, movable, oldToNew[..], off, p);
      ghost var was, wasNames := newSyms[..], newNames[..];
      ghost var wasMap: seq<nat> := oldToNew[..];
      var place: nat := off + p;
      newSyms[off + p], newNames[off + p], oldToNew[movable[p]] := syms[movable[p]], names[movable[p]], place;
      assert newSyms[..] == was[off + p := syms[..][movable[p]]];
      assert newNames[..] == wasNames[off + p := names[..][movable[p]]];
      assert oldToNew[..] == wasMap[movable[p] := place];
    }
  }

  lemma RepositionDone(symsBefore: seq<Sym>, symsAfter: seq<Sym>, before: seq<Name>, after: seq<Name>,
                       movable: seq<nat>, moved: seq<nat>, off: nat, buckets: nat)
    requires |symsBefore| == |symsAfter| == |before| == |after| == |moved| && buckets > 0 && off <= |before|
    requires Ordered(Hashes(before), buckets, movable) && Indices(movable, off, |before|) && Maps(movable, moved, off)
    requires Gathered(symsBefore, symsAfter, movable, off, |movable|)
             && Gathered(before, after, movable, off, |movable|)
    ensures Permutes(moved, off) && Follows(symsBefore, symsAfter, moved) && Follows(before, after, moved)
    ensures Stable(before, moved, off, buckets) && Grouped(Hashes(after), off, buckets)
  {
    MapsPermutes(Hashes(before), buckets, movable, moved, off);
    MapsStable(before, buckets, movable, moved, off);
    MapsGrouped(before, after, buckets, movable, off);
    GatheredFollows(symsBefore, symsAfter, movable, off, moved);
    GatheredFollows(before, after, movable, off, moved);
  }

  /** A section without buckets has no symbols to sort, so nothing is divided by their number. */
  function Divisor(buckets: nat): nat { if buckets == 0 then 1 else buckets }

  /** The map of a stable sort by bucket. */
  ghost predicate SortedBy(names: seq<Name>, off: nat, buckets: nat, moved: seq<nat>) {
    off <= |names| == |moved| && Maps(StableSort(Hashes(names), Divisor(buckets), off), moved, off)
  }

  /** Reorders the symbols and their names, and records where each went. */
  method Reorder(syms: array<Sym>, names: array<Name>, off: nat, buckets: nat, oldToNew: array<nat>)
    requires syms.Length == names.Length == oldToNew.Length && off <= syms.Length
             && (buckets == 0 ==> off == syms.Length)
    modifies syms, names, oldToNew
    ensures Permutes(oldToNew[..], off) && SortedBy(old(names[..]), off, buckets, oldToNew[..])
    ensures Follows(old(syms[..]), syms[..], oldToNew[..]) && Follows(old(names[..]), names[..], oldToNew[..])
    ensures Stable(old(names[..]), oldToNew[..], off, Divisor(buckets))
            && Grouped(Hashes(names[..]), off, Divisor(buckets))
  {
    var movable := Movable(names[..], off, buckets);
    var newSyms, newNames := new Sym[syms.Length], new Name[syms.Length];
    Reposition(syms, names, off, movable, newSyms, newNames, oldToNew, Hashes(names[..]), Divisor(buckets));
    RepositionDone(syms[..], newSyms[..], names[..], newNames[..], movable, oldToNew[..], off, Divisor(buckets));
    CopyInto(newSyms, syms);
    CopyInto(newNames, names);
  }

  /** The indices from `off` on in their new order. */
  method Movable(names: seq<Name>, off: nat, buckets: nat) returns (movable: seq<nat>)
    requires off <= |names|
    ensures movable == StableSort(Hashes(names), Divisor(buckets), off)
    ensures Ordered(Hashes(names), Divisor(buckets), movable) && Indices(movable, off, |names|)
    ensures forall k :: 0 <= k < |movable| ==> off <= movable[k] < |names|
  {
    movable := StableSort(Hashes(names), Divisor(buckets), off);
    forall k | 0 <= k < |movable| ensures off <= movable[k] < |names| { assert movable[k] in movable; }
  }

  method CopyInto<T>(source: array<T>, target: array<T>)
    requires source != target && source.Length == target.Length
    modifies target
    ensures target[..] == source[..] && source[..] == old(source[..])
  {
    for i := 0 to target.Length
      invariant target[..i] == source[..i] && source[..] == old(source[..])
    {
      target[i] := source[i];
    }
    assert target[..] == target[..target.Length] && source[..] == source[..source.Length];
  }

  // ----- Relocations

  /** `info` holds the symbol index above 32 bits of relocation type. */
  datatype Rela = Rela(offset: nat, info: nat, addend: int)

  function SymbolIndex(r: Rela): nat { r.info / WORD32 }
  function Kind(r: Rela): nat { r.info % WORD32 }

  const WORD32: nat := 0x1_0000_0000

  datatype Section = Section(isRela: bool, link: nat, entries: array<Rela>)

  /** A relocation that follows its symbol; an index past the table is left alone. */
  function Moved(r: Rela, oldToNew: seq<nat>): Rela {
    if SymbolIndex(r) < |oldToNew| then r.(info := oldToNew[SymbolIndex(r)] * WORD32 + Kind(r)) else r
  }

  function MovedAll(rs: seq<Rela>, oldToNew: seq<nat>): (moved: seq<Rela>)
    ensures |moved| == |rs| && forall i :: 0 <= i < |rs| ==> moved[i] == Moved(rs[i], oldToNew)
  {
    seq(|rs|, i requires 0 <= i < |rs| => Moved(rs[i], oldToNew))
  }

  ghost predicate Disjoint(sections: seq<Section>) {
    forall i, j :: 0 <= i < j < |sections| ==> sections[i].entries != sections[j].entries
  }

  ghost function Entries(sections: seq<Section>): set<array<Rela>> { set s <- sections :: s.entries }

  predicate Linked(s: Section, dynSym: nat) { s.isRela && s.link == dynSym }

  /** Every section linked to `dynSym` has its relocations moved; the others are as they were. */
  twostate predicate Fixed(s: Section, dynSym: nat, oldToNew: seq<nat>)
    reads s.entries
  {
    s.entries[..] == if Linked(s, dynSym) then MovedAll(old(s.entries[..]), oldToNew) else old(s.entries[..])
  }

  method FixupRelocations(sections: seq<Section>, dynSym: nat, oldToNew: seq<nat>)
    requires Disjoint(sections)
    modifies Entries(sections)
    ensures forall s <- sections :: Fixed(s, dynSym, oldToNew)
  {
    for i := 0 to |sections|
      invariant forall j :: 0 <= j < i ==> Fixed(sections[j], dynSym, oldToNew)
      invariant forall j :: i <= j < |sections| ==> sections[j].entries[..] == old(sections[j].entries[..])
    {
      assert sections[i] in sections;
      if Linked(sections[i], dynSym) { FixupEntries(sections[i].entries, oldToNew); }
    }
  }

  method FixupEntries(entries: array<Rela>, oldToNew: seq<nat>)
    modifies entries
    ensures entries[..] == MovedAll(old(entries[..]), oldToNew)
  {
    for r := 0 to entries.Length
      invariant forall k :: 0 <= k < r ==> entries[k] == Moved(old(entries[k]), oldToNew)
      invariant forall k :: r <= k < entries.Length ==> entries[k] == old(entries[k])
    {
      entries[r] := Moved(entries[r], oldToNew);
    }
  }

  /** After the reorder a moved relocation names the record it named before, with its kind unchanged. */
  lemma MovedNamesSame(before: seq<Sym>, after: seq<Sym>, oldToNew: seq<nat>, off: nat, r: Rela)
    requires Follows(before, after, oldToNew) && Permutes(oldToNew, off)
    ensures Kind(Moved(r, oldToNew)) == Kind(r)
    ensures SymbolIndex(r) < |before| ==> SymbolIndex(Moved(r, oldToNew)) < |after|
                                          && after[SymbolIndex(Moved(r, oldToNew))] == before[SymbolIndex(r)]
    ensures SymbolIndex(r) >= |before| || SymbolIndex(r) < off ==> Moved(r, oldToNew) == r
  {
  }

  // ----- All three steps

  /** Same place, kind and addend, and the same record if the old index has one; an index past the table stays. */
  ghost predicate SameTarget(was: Rela, now: Rela, before: seq<Sym>, after: seq<Sym>) {
    && now.offset == was.offset && now.addend == was.addend && Kind(now) == Kind(was)
    && if SymbolIndex(was) < |before| then SymbolIndex(now) < |after|
    && after[SymbolIndex(now)] == before[SymbolIndex(was)] else now == was
  }

  ghost predicate SameTargets(was: seq<Rela>, now: seq<Rela>, before: seq<Sym>, after: seq<Sym>) {
    |was| == |now| && forall k :: 0 <= k < |was| ==> SameTarget(was[k], now[k], before, after)
  }

  /** Every relocation linked to `dynSym` names the record it named before; the other sections are as they were. */
  twostate predicate StillNames(s: Section, dynSym: nat, before: seq<Sym>, after: seq<Sym>)
    reads s.entries
  {
    if Linked(s, dynSym) then SameTargets(old(s.entries[..]), s.entries[..], before, after)
    else s.entries[..] == old(s.entries[..])
  }

  lemma MovedAllNameSame(rs: seq<Rela>, before: seq<Sym>, after: seq<Sym>, oldToNew: seq<nat>, off: nat)
    requires Follows(before, after, oldToNew) && Permutes(oldToNew, off)
    ensures SameTargets(rs, MovedAll(rs, oldToNew), before, after)
  {
    forall k | 0 <= k < |rs| ensures SameTarget(rs[k], MovedAll(rs, oldToNew)[k], before, after) {
      MovedNamesSame(before, after, oldToNew, off, rs[k]);
    }
  }

  method FollowSymbols(sections: seq<Section>, dynSym: nat, oldToNew: seq<nat>, ghost before: seq<Sym>,
                       ghost after: seq<Sym>, ghost off: nat)
    requires Disjoint(sections) && Follows(before, after, oldToNew) && Permutes(oldToNew, off)
    modifies Entries(sections)
    ensures forall s <- sections :: StillNames(s, dynSym, before, after)
  {
    FixupRelocations(sections, dynSym, oldToNew);
    forall s <- sections ensures StillNames(s, dynSym, before, after) {
      assert Fixed(s, dynSym, oldToNew);
      MovedAllNameSame(old(s.entries[..]), before, after, oldToNew, off);
    }
  }

  /** A loader finds a symbol of any name exactly when a nameable one has it. */
  ghost predicate AllLookedUp(t: Table, names: seq<Name>) {
    |names| == t.symOffset + |t.chain| && t.bloom != [] &&
    forall name: Name :: LookedUp(t, names, name)
  }

  ghost predicate LookedUp(t: Table, names: seq<Name>, name: Name)
    requires |names| == t.symOffset + |t.chain| && t.bloom != []
  {
    var r := Lookup(t, names, name);
    if Listed(names, Nameable(t.symOffset), name)
    then r.Symbol? && t.symOffset <= r.index < |names| && names[r.index] == name
    else r.Absent?
  }

  lemma RebuiltLooksUp(t: Table, names: seq<Name>)
    requires Rebuilt(t, Hashes(names)) && Grouped(Hashes(names), t.symOffset, Divisor(|t.buckets|))
    ensures AllLookedUp(t, names)
  {
    forall name: Name ensures LookedUp(t, names, name) { LookupExact(t, names, name); }
  }

  /** The symbols are reordered, and relocations keep the records they name. */
  method Resettle(syms: array<Sym>, names: array<Name>, off: nat, buckets: nat, sections: seq<Section>, dynSym: nat)
    returns (oldToNew: array<nat>)
    requires syms.Length == names.Length && off <= syms.Length && (buckets == 0 ==> off == syms.Length)
             && Disjoint(sections)
    modifies syms, names, Entries(sections)
    ensures fresh(oldToNew) && Permutes(oldToNew[..], off) && SortedBy(old(names[..]), off, buckets, oldToNew[..])
    ensures Follows(old(syms[..]), syms[..], oldToNew[..]) && Follows(old(names[..]), names[..], oldToNew[..])
    ensures Grouped(Hashes(names[..]), off, Divisor(buckets))
    ensures forall s <- sections :: StillNames(s, dynSym, old(syms[..]), syms[..])
  {
    oldToNew := new nat[syms.Length];
    ghost var before := syms[..];
    Reorder(syms, names, off, buckets, oldToNew);
    ghost var moved, after, newNames := oldToNew[..], syms[..], names[..];
    FollowSymbols(sections, dynSym, oldToNew[..], before, syms[..], off);
    assert oldToNew[..] == moved && syms[..] == after && names[..] == newNames;
  }

  /** The table is rebuilt for the reordered names, and relocations keep the records they name. */
  method Rehash(section: HashSection, syms: array<Sym>, names: array<Name>, sections: seq<Section>, dynSym: nat)
    returns (oldToNew: array<nat>)
    requires syms.Length == names.Length && section.Sound(syms.Length) && Disjoint(sections)
    modifies section, syms, names, Entries(sections)
    ensures fresh(oldToNew) && Permutes(oldToNew[..], section.symOffset)
    ensures SortedBy(old(names[..]), section.symOffset, old(|section.buckets|), oldToNew[..])
    ensures Follows(old(syms[..]), syms[..], oldToNew[..]) && Follows(old(names[..]), names[..], oldToNew[..])
    ensures AllLookedUp(section.Contents(), names[..])
    ensures forall s <- sections :: StillNames(s, dynSym, old(syms[..]), syms[..])
  {
    oldToNew := Resettle(syms, names, section.symOffset, |section.buckets|, sections, dynSym);
    ghost var moved, after, newNames := oldToNew[..], syms[..], names[..];
    var ok := section.Rebuild(names[..]);
    assert oldToNew[..] == moved && syms[..] == after && names[..] == newNames;
    RebuiltLooksUp(section.Contents(), names[..]);
  }
}
