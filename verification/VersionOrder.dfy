/** The symbol version table and the reordering of the symbols it runs beside.

Entry `i` of the table is the version of symbol `i`. The symbols move and the table stays, so a symbol can come to stand
beside the version of another. */
module VersionOrder {
  import opened GnuHash
  import opened SymbolOrder

  /** Every symbol stands beside the version it stood beside before. */
  ghost predicate KeepsVersions(versions: seq<nat>, moved: seq<nat>) {
    |versions| == |moved| && forall i :: 0 <= i < |moved| ==> moved[i] < |versions| && versions[moved[i]] == versions[i]
  }

  /** Putting the versions in the order of the sorted symbols changes nothing. */
  ghost predicate SortedVersionsStay(versions: seq<nat>, sorted: seq<nat>, off: nat) {
    |versions| == off + |sorted| && forall p :: 0 <= p < |sorted| ==>
      sorted[p] < |versions|
      && versions[off + p] == versions[sorted[p]]
  }

  lemma SortedAt(sorted: seq<nat>, moved: seq<nat>, off: nat, i: nat)
    requires Maps(sorted, moved, off) && Indices(sorted, off, |moved|) && off <= i < |moved|
    ensures off <= moved[i] < |moved| && sorted[moved[i] - off] == i
  {
    assert i in sorted;
    var p :| 0 <= p < |sorted| && sorted[p] == i;
  }

  lemma MapsVersions(sorted: seq<nat>, moved: seq<nat>, off: nat, versions: seq<nat>)
    requires Maps(sorted, moved, off) && Indices(sorted, off, |moved|) && |versions| == |moved|
    ensures KeepsVersions(versions, moved) <==> SortedVersionsStay(versions, sorted, off)
  {
    if SortedVersionsStay(versions, sorted, off) {
      forall i | 0 <= i < |moved| ensures moved[i] < |versions| && versions[moved[i]] == versions[i] {
        if i >= off {
          SortedAt(sorted, moved, off, i);
          assert versions[off + (moved[i] - off)] == versions[sorted[moved[i] - off]];
        }
      }
    }
    if KeepsVersions(versions, moved) {
      forall p | 0 <= p < |sorted| ensures sorted[p] < |versions| && versions[off + p] == versions[sorted[p]] {
        assert moved[sorted[p]] == off + p;
      }
    }
  }

  /** The versions of a module still match after the reorder exactly when sorting them along with the symbols, by bucket
      and stably, leaves the table as it is. */
  lemma VersionsMatch(names: seq<Name>, off: nat, buckets: nat, moved: seq<nat>, versions: seq<nat>)
    requires SortedBy(names, off, buckets, moved) && |versions| == |moved|
    ensures KeepsVersions(versions, moved) <==>
            SortedVersionsStay(versions, StableSort(Hashes(names), Divisor(buckets), off), off)
  {
    MapsVersions(StableSort(Hashes(names), Divisor(buckets), off), moved, off, versions);
  }

  /** Whatever the versions are, they still match exactly when the symbols stand bucket by bucket already. */
  lemma AnyVersionsMatch(names: seq<Name>, off: nat, buckets: nat, moved: seq<nat>)
    requires SortedBy(names, off, buckets, moved)
    ensures (forall versions: seq<nat> :: |versions| == |moved| ==> KeepsVersions(versions, moved)) <==>
            Grouped(Hashes(names), off, Divisor(buckets))
  {
    var hashes, divisor := Hashes(names), Divisor(buckets);
    var sorted := StableSort(hashes, divisor, off);
    if Grouped(hashes, off, divisor) {
      GroupedSorts(hashes, divisor, sorted, off);
      forall versions: seq<nat> | |versions| == |moved| ensures KeepsVersions(versions, moved) {
        VersionsMatch(names, off, buckets, moved, versions);
      }
    }
    if forall versions: seq<nat> :: |versions| == |moved| ==> KeepsVersions(versions, moved) {
      var own := seq(|moved|, i requires 0 <= i < |moved| => i as nat);
      assert KeepsVersions(own, moved);
      VersionsMatch(names, off, buckets, moved, own);
      forall i, j | off <= i <= j < |hashes| ensures BucketOf(hashes[i], divisor) <= BucketOf(hashes[j], divisor) {
        assert own[off + (i - off)] == own[sorted[i - off]] && own[off + (j - off)] == own[sorted[j - off]];
        if i < j { OrderedLess(hashes, divisor, sorted, i - off, j - off); }
      }
    }
  }

  /** Sorting symbols that stand bucket by bucket leaves them where they are. */
  lemma GroupedSorts(hashes: seq<nat>, buckets: nat, sorted: seq<nat>, off: nat)
    requires Grouped(hashes, off, buckets) && Ordered(hashes, buckets, sorted) && Indices(sorted, off, |hashes|)
    ensures forall p :: 0 <= p < |sorted| ==> sorted[p] == off + p
  {
    forall p, q | 0 <= p < q < |sorted| ensures sorted[p] < sorted[q] {
      assert sorted[p] in sorted && sorted[q] in sorted;
      OrderedLess(hashes, buckets, sorted, p, q);
    }
    forall p | 0 <= p < |sorted| ensures sorted[p] == off + p {
      forall x <- sorted ensures off <= x < |hashes| {}
      RisesFrom(sorted, off, p);
      RisesTo(sorted, |hashes|, p);
    }
  }

  lemma {:induction false} RisesFrom(s: seq<nat>, from: nat, p: nat)
    requires p < |s| && (forall i, j :: 0 <= i < j < |s| ==> s[i] < s[j]) && forall x <- s :: from <= x
    ensures from + p <= s[p]
  {
    assert s[p] in s;
    if p > 0 { RisesFrom(s, from, p - 1); }
  }

  lemma {:induction false} RisesTo(s: seq<nat>, to: nat, p: nat)
    requires p < |s| && (forall i, j :: 0 <= i < j < |s| ==> s[i] < s[j]) && forall x <- s :: x < to
    ensures s[p] + |s| - p <= to
    decreases |s| - p
  {
    assert s[p] in s;
    if p + 1 < |s| { RisesTo(s, to, p + 1); }
  }

  /** Two symbols of different buckets in the wrong order, with versions of their own: each gets the other's. */
  lemma VersionsCanDiffer(moved: seq<nat>)
    requires SortedBy([[2], [1]], 0, 2, moved)
    ensures !KeepsVersions([2, 3], moved)
  {
    var names: seq<Name> := [[2], [1]];
    var hashes := Hashes(names);
    assert names[0][1..] == [] && names[1][1..] == [];
    assert hashes[0] == 177575 && hashes[1] == 177574;
    var sorted := StableSort(hashes, 2, 0);
    assert 0 in sorted && 1 in sorted;
    assert Less(hashes, 2, 1, 0);
    LessFirst(hashes, 2, sorted, if sorted[0] == 1 then 0 else 1, if sorted[0] == 0 then 0 else 1);
  }
}
