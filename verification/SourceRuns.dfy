/** All interleavings of threads that look for shader sources and compile their variants. A step is one region under the
lock of the table or of a source, or the drawing of a variant's number; compiling goes on between two steps. */
module SourceRuns {
  import opened SourceTable

  /** A thread that compiles holds the mutex of its source. */
  datatype Thread =
    | Idle
    | Asking(key: Key, code: Code)
    | Missing(key: Key, code: Code)
    | Holding(key: Key, code: Code, source: Source)
    | Compiling(key: Key, code: Code, source: Source, layout: Layout, address: nat)
    | Numbered(key: Key, code: Code, source: Source, layout: Layout, address: nat, id: nat)
    | Served(key: Key, code: Code, source: Source, layout: Layout, variant: Variant)

  /** The table, the variants of every source, and the next identities. */
  datatype Shared = Shared(table: map<Key, seq<Source>>, records: map<nat, Record>, nextSource: nat, nextVariant: nat)

  datatype State = State(shared: Shared, threads: map<nat, Thread>)

  ghost predicate Init(s: State) {
    s.shared == Shared(map[], map[], 0, 0) && forall t <- s.threads :: s.threads[t].Idle?
  }

  predicate Locks(thread: Thread) { thread.Compiling? || thread.Numbered? }

  // ----- Steps

  /** Threads begin, and end with or without a variant. */
  ghost predicate Turns(h: Shared, was: Thread, now: Thread, h': Shared) {
    h' == h && ((was.Idle? && now.Asking?) || ((was.Holding? || was.Served?) && now.Idle?))
  }

  /** The look under the shared lock of the table. */
  ghost predicate Looks(h: Shared, was: Thread, now: Thread, h': Shared) {
    was.Asking? && h' == h &&
    match Find(h.table, was.key, was.code)
    case Some(source) => now == Holding(was.key, was.code, source)
    case None => now == Missing(was.key, was.code)
  }

  /** The region under the exclusive lock of the table. */
  ghost predicate Adds(h: Shared, was: Thread, now: Thread, h': Shared) {
    was.Missing? &&
    var (table, next, source) := FoundOrAdded(h.table, h.nextSource, was.key, was.code);
    && now == Holding(was.key, was.code, source)
    && h' == h.(table := table, nextSource := next, records := if next == h.nextSource then h.records
                else h.records[source.id := Record([], [])])
  }

  /** The look under the mutex of the source: a variant, a failure thrown again, or a compilation begins. */
  ghost predicate Enters(h: Shared, was: Thread, now: Thread, h': Shared) {
    was.Holding? && was.source.id in h.records && h' == h &&
    exists layout, address ::
      match LookFor(h.records[was.source.id], layout, address)
      case Hit(variant) => now == Served(was.key, was.code, was.source, layout, variant)
      case Remembered => now == Idle
      case Absent => now == Compiling(was.key, was.code, was.source, layout, address)
  }

  ghost predicate Draws(h: Shared, was: Thread, now: Thread, h': Shared) {
    was.Compiling? && now == Numbered(was.key, was.code, was.source, was.layout, was.address, h.nextVariant)
      && h' == h.(nextVariant := h.nextVariant + 1)
  }

  /** The variant is listed and the mutex released. */
  ghost predicate Finishes(h: Shared, was: Thread, now: Thread, h': Shared) {
    was.Numbered? && was.source.id in h.records
    && now == Served(was.key, was.code, was.source, was.layout, Variant(was.id, was.layout))
    && h' == h.(records := h.records[was.source.id := Compiled(h.records[was.source.id], was.layout, was.id)])
  }

  /** An exception leaves the mutex; the failure of an emission may be remembered. */
  ghost predicate Throws(h: Shared, was: Thread, now: Thread, h': Shared) {
    Locks(was) && was.source.id in h.records && now.Idle? &&
    exists remember ::
      var failed := Failed(h.records[was.source.id], was.layout, was.address, remember);
      h' == h.(records := h.records[was.source.id := failed])
  }

  ghost predicate Moves(h: Shared, was: Thread, now: Thread, h': Shared) {
    || Turns(h, was, now, h') || Looks(h, was, now, h') || Adds(h, was, now, h') || Enters(h, was, now, h')
    || Draws(h, was, now, h') || Finishes(h, was, now, h') || Throws(h, was, now, h')
  }

  /** Thread `t` moves. It goes behind the mutex of a source only when no other thread is there. */
  ghost predicate StepOf(s: State, t: nat, s': State) {
    && t in s.threads && t in s'.threads && s'.threads == s.threads[t := s'.threads[t]]
    && Moves(s.shared, s.threads[t], s'.threads[t], s'.shared)
    && (Enters(s.shared, s.threads[t], s'.threads[t], s'.shared) ==> Free(s, s.threads[t].source.id))
  }

  ghost predicate Free(s: State, source: nat) {
    forall u <- s.threads :: Locks(s.threads[u]) ==> s.threads[u].source.id != source
  }

  ghost predicate Step(s: State, s': State) { exists t :: StepOf(s, t, s') }

  // ----- What holds after every step

  ghost predicate Entry(h: Shared, key: Key, source: Source) { key in h.table && source in h.table[key] }

  ghost predicate Made(h: Shared, source: nat, variant: Variant) {
    source in h.records && variant in h.records[source].variants
  }

  /** Under one key the codes differ. */
  ghost predicate Apart(table: map<Key, seq<Source>>, key: Key) {
    key in table && forall i, j :: 0 <= i < j < |table[key]| ==> table[key][i].code != table[key][j].code
  }

  ghost predicate TableOk(h: Shared) {
    && (forall key <- h.table :: Apart(h.table, key))
    && (forall id <- h.records :: id < h.nextSource)
    && (forall key, source :: Entry(h, key, source) ==> source.id < h.nextSource && source.id in h.records)
    && (forall k1, s1, k2, s2 :: Entry(h, k1, s1) && Entry(h, k2, s2) && s1.id == s2.id ==> k1 == k2 && s1 == s2)
  }

  ghost predicate RecordsOk(h: Shared) {
    && (forall id <- h.records :: DistinctLayouts(h.records[id].variants))
    && (forall id, v :: Made(h, id, v) ==> v.id < h.nextVariant)
    && (forall i1, v1, i2, v2 :: Made(h, i1, v1) && Made(h, i2, v2) && v1.id == v2.id ==> i1 == i2 && v1 == v2)
  }

  ghost predicate Unused(h: Shared, id: nat) {
    id < h.nextVariant && forall source, v :: Made(h, source, v) ==> v.id != id
  }

  ghost predicate Owns(h: Shared, key: Key, code: Code, source: Source) {
    Entry(h, key, source) && source.code == code && source.id in h.records
  }

  ghost predicate Known(h: Shared, thread: Thread) {
    match thread
    case Holding(key, code, source) => Owns(h, key, code, source)
    case Compiling(key, code, source, layout, _) => Owns(h, key, code, source)
        && !Has(h.records[source.id].variants, layout)
    case Numbered(key, code, source, layout, _, id) => Owns(h, key, code, source)
        && !Has(h.records[source.id].variants, layout) && Unused(h, id)
    case Served(key, code, source, layout, variant) => Owns(h, key, code, source) && Made(h, source.id, variant)
        && variant.layout == layout
    case _ => true
  }

  /** Two threads are never behind one mutex, nor have they drawn one number. */
  ghost predicate Exclusive(a: Thread, b: Thread) {
    && (Locks(a) && Locks(b) ==> a.source.id != b.source.id)
    && (a.Numbered? && b.Numbered? ==> a.id != b.id)
  }

  ghost predicate Inv(s: State) {
    && TableOk(s.shared) && RecordsOk(s.shared)
    && (forall t <- s.threads :: Known(s.shared, s.threads[t]))
    && (forall t, u :: t in s.threads && u in s.threads && t != u ==> Exclusive(s.threads[t], s.threads[u]))
  }

  /** Sources and variants stay. */
  ghost predicate Grows(h: Shared, h': Shared) {
    && (forall key, source :: Entry(h, key, source) ==> Entry(h', key, source))
    && (forall id, v :: Made(h, id, v) ==> Made(h', id, v))
  }

  // ----- Steps keep it

  /** Whether the same sources are listed, and the same variants. */
  ghost predicate SameEntries(h: Shared, h': Shared) {
    h'.table == h.table && h'.nextSource == h.nextSource && h'.records.Keys == h.records.Keys
  }

  ghost predicate SameMade(h: Shared, h': Shared) {
    (forall id, v :: Made(h', id, v) <==> Made(h, id, v)) && forall id <- h.records ::
      id in h'.records
      && h'.records[id].variants == h.records[id].variants
  }

  /** One more variant. */
  ghost predicate OneMade(h: Shared, h': Shared, source: nat, variant: Variant) {
    && (forall id, v :: Made(h', id, v) <==> Made(h, id, v) || (id == source && v == variant))
    && (forall id <- h.records :: id in h'.records && (id != source ==> h'.records[id] == h.records[id]))
  }

  lemma SameTableOk(h: Shared, h': Shared)
    requires TableOk(h) && SameEntries(h, h')
    ensures TableOk(h') && forall key, source :: Entry(h', key, source) <==> Entry(h, key, source)
  {
    forall key, source ensures Entry(h', key, source) <==> Entry(h, key, source) {}
    assert forall id :: id in h'.records <==> id in h'.records.Keys;
  }

  lemma EntriesStay(h: Shared, was: Thread, now: Thread, h': Shared)
    requires Moves(h, was, now, h') && !Adds(h, was, now, h')
    ensures SameEntries(h, h')
  {
    if Finishes(h, was, now, h') || Throws(h, was, now, h') {
      assert h'.records.Keys == h.records.Keys + {was.source.id};
    }
  }

  lemma FindKnown(h: Shared, key: Key, code: Code)
    requires TableOk(h)
    ensures Find(h.table, key, code).Some? ==> Owns(h, key, code, Find(h.table, key, code).value)
  {
    var found := Find(h.table, key, code);
    if found.Some? { assert Entry(h, key, found.value); }
  }

  lemma NewEntry(h: Shared, key: Key, code: Code, h': Shared)
    requires TableOk(h) && Find(h.table, key, code).None?
    requires h'.table == h.table[key := Bucket(h.table, key) + [Source(h.nextSource, code)]]
    ensures forall k, source :: Entry(h', k, source) <==>
            Entry(h, k, source) || (k == key && source == Source(h.nextSource, code))
    ensures forall k <- h'.table :: Apart(h'.table, k)
  {
    var added := Source(h.nextSource, code);
    assert added in h'.table[key];
    forall k <- h'.table ensures Apart(h'.table, k) {
      if k != key {
        assert Apart(h.table, k);
      } else {
        if key in h.table { assert Apart(h.table, key); }
        forall i | 0 <= i < |Bucket(h.table, key)| ensures Bucket(h.table, key)[i].code != code {
          assert Bucket(h.table, key)[i] in h.table[key];
        }
      }
    }
  }

  lemma AddKeeps(h: Shared, was: Thread, now: Thread, h': Shared)
    requires TableOk(h) && Adds(h, was, now, h')
    ensures TableOk(h') && Owns(h', now.key, now.code, now.source)
            && forall key, source :: Entry(h, key, source) ==> Entry(h', key, source)
  {
    FindKnown(h, was.key, was.code);
    if Find(h.table, was.key, was.code).None? { NewEntry(h, was.key, was.code, h'); }
  }

  lemma AddMakesNone(h: Shared, was: Thread, now: Thread, h': Shared)
    requires TableOk(h) && RecordsOk(h) && Adds(h, was, now, h')
    ensures RecordsOk(h') && SameMade(h, h') && h'.nextVariant == h.nextVariant
  {
    forall id, v ensures Made(h', id, v) <==> Made(h, id, v) {}
    forall id <- h'.records ensures DistinctLayouts(h'.records[id].variants) {
      if id in h.records { assert DistinctLayouts(h.records[id].variants); }
    }
  }

  lemma SameRecordsOk(h: Shared, h': Shared)
    requires RecordsOk(h) && SameMade(h, h') && h.records.Keys == h'.records.Keys && h.nextVariant <= h'.nextVariant
    ensures RecordsOk(h')
  {
    forall id <- h'.records ensures DistinctLayouts(h'.records[id].variants) {
      assert DistinctLayouts(h.records[id].variants);
    }
  }

  lemma FinishKeeps(h: Shared, was: Thread, now: Thread, h': Shared)
    requires RecordsOk(h) && Known(h, was) && Finishes(h, was, now, h')
    ensures RecordsOk(h') && OneMade(h, h', was.source.id, now.variant)
  {
    var variants := h.records[was.source.id].variants;
    var source := was.source.id;
    assert h'.records[source].variants == variants + [now.variant];
    forall id, v ensures Made(h', id, v) <==> Made(h, id, v) || (id == source && v == now.variant) {}
    forall id <- h'.records ensures DistinctLayouts(h'.records[id].variants) {
      assert DistinctLayouts(h.records[id].variants);
      if id == source {
        forall i | 0 <= i < |variants| ensures variants[i].layout != was.layout { assert variants[i] in variants; }
      }
    }
  }

  lemma OthersMakeNone(h: Shared, was: Thread, now: Thread, h': Shared)
    requires Moves(h, was, now, h') && !Adds(h, was, now, h') && !Finishes(h, was, now, h')
    ensures SameMade(h, h') && h'.records.Keys == h.records.Keys && h.nextVariant <= h'.nextVariant
  {
    forall id, v ensures Made(h', id, v) <==> Made(h, id, v) {}
  }

  /** Either no variant comes, or the one of the thread that finishes. */
  lemma Makes(h: Shared, was: Thread, now: Thread, h': Shared)
    requires TableOk(h) && RecordsOk(h) && Known(h, was) && Moves(h, was, now, h')
    ensures RecordsOk(h') && h.nextVariant <= h'.nextVariant
    ensures if Finishes(h, was, now, h') then OneMade(h, h', was.source.id, now.variant) else SameMade(h, h')
  {
    if Finishes(h, was, now, h') {
      FinishKeeps(h, was, now, h');
    } else if Adds(h, was, now, h') {
      AddMakesNone(h, was, now, h');
    } else {
      OthersMakeNone(h, was, now, h');
      SameRecordsOk(h, h');
    }
  }

  lemma Lists(h: Shared, was: Thread, now: Thread, h': Shared)
    requires TableOk(h) && Moves(h, was, now, h')
    ensures TableOk(h') && forall key, source :: Entry(h, key, source) ==> Entry(h', key, source)
  {
    if Adds(h, was, now, h') {
      AddKeeps(h, was, now, h');
    } else {
      EntriesStay(h, was, now, h');
      SameTableOk(h, h');
    }
  }

  /** What the moving thread comes to. */
  lemma MovedKnows(h: Shared, was: Thread, now: Thread, h': Shared)
    requires TableOk(h) && RecordsOk(h) && Known(h, was) && Moves(h, was, now, h')
    ensures Known(h', now)
  {
    Makes(h, was, now, h');
    Lists(h, was, now, h');
    if Looks(h, was, now, h') { FindKnown(h, was.key, was.code); }
    if Adds(h, was, now, h') { AddKeeps(h, was, now, h'); }
  }

  /** Another thread still knows what it knew. */
  lemma OtherKnows(h: Shared, was: Thread, now: Thread, h': Shared, other: Thread)
    requires TableOk(h) && RecordsOk(h) && Known(h, was) && Known(h, other) && Exclusive(was, other)
             && Moves(h, was, now, h')
    ensures Known(h', other)
  {
    Makes(h, was, now, h');
    Lists(h, was, now, h');
    if HasSource(other) { assert Entry(h', other.key, other.source); }
  }

  lemma StaysExclusive(s: State, t: nat, s': State, u: nat)
    requires Inv(s) && StepOf(s, t, s') && u in s.threads && u != t
    ensures Exclusive(s'.threads[t], s.threads[u]) && Exclusive(s.threads[u], s'.threads[t])
  {
    assert Exclusive(s.threads[t], s.threads[u]) && Known(s.shared, s.threads[u]);
  }

  lemma StepKeeps(s: State, s': State)
    requires Inv(s) && Step(s, s')
    ensures Inv(s') && Grows(s.shared, s'.shared)
  {
    var t :| StepOf(s, t, s');
    var was, now := s.threads[t], s'.threads[t];
    Makes(s.shared, was, now, s'.shared);
    Lists(s.shared, was, now, s'.shared);
    MovedKnows(s.shared, was, now, s'.shared);
    forall u | u in s.threads && u != t ensures Known(s'.shared, s.threads[u]) {
      OtherKnows(s.shared, was, now, s'.shared, s.threads[u]);
    }
    forall u | u in s.threads && u != t ensures Exclusive(s'.threads[t], s.threads[u])
        && Exclusive(s.threads[u], s'.threads[t]) {
      StaysExclusive(s, t, s', u);
    }
  }

  ghost predicate Run(run: seq<State>) {
    run != [] && Init(run[0]) && forall i :: 0 <= i < |run| - 1 ==> StepAt(run, i)
  }

  ghost predicate StepAt(run: seq<State>, i: nat)
    requires i < |run| - 1
  {
    Step(run[i], run[i + 1])
  }

  lemma {:induction false} RunKeeps(run: seq<State>, i: nat)
    requires Run(run) && i < |run|
    ensures Inv(run[i])
  {
    if i > 0 {
      RunKeeps(run, i - 1);
      assert StepAt(run, i - 1);
      StepKeeps(run[i - 1], run[i]);
    }
  }

  lemma {:induction false} RunGrows(run: seq<State>, i: nat, j: nat)
    requires Run(run) && i <= j < |run|
    ensures Grows(run[i].shared, run[j].shared)
    decreases j
  {
    if i < j {
      RunKeeps(run, j - 1);
      RunGrows(run, i, j - 1);
      assert StepAt(run, j - 1);
      StepKeeps(run[j - 1], run[j]);
      GrowsOn(run[i].shared, run[j - 1].shared, run[j].shared);
    }
  }

  lemma GrowsOn(a: Shared, b: Shared, c: Shared)
    requires Grows(a, b) && Grows(b, c)
    ensures Grows(a, c)
  {
  }

  // ----- One source for each key and code, one variant for each source and layout

  /** The source a thread works with. */
  predicate HasSource(thread: Thread) { thread.Holding? || Locks(thread) || thread.Served? }

  /** Whoever asks, and whenever: one key and code give one entry, and different ones different entries. */
  lemma OneEntryEach(run: seq<State>, i: nat, t: nat, j: nat, u: nat)
    requires Run(run) && i <= j < |run| && t in run[i].threads && u in run[j].threads
    requires HasSource(run[i].threads[t]) && HasSource(run[j].threads[u])
    ensures var a, b := run[i].threads[t], run[j].threads[u]; a.source.id == b.source.id <==>
            a.key == b.key && a.code == b.code
  {
    RunKeeps(run, i);
    RunKeeps(run, j);
    RunGrows(run, i, j);
    var a, b := run[i].threads[t], run[j].threads[u];
    assert Known(run[i].shared, a) && Known(run[j].shared, b);
    if a.key == b.key && a.code == b.code {
      assert Apart(run[j].shared.table, a.key);
      assert Entry(run[j].shared, a.key, a.source);
    }
  }

  /** Whoever asks, and whenever: one source and layout give one variant, and different ones different variants. */
  lemma OneVariantEach(run: seq<State>, i: nat, t: nat, j: nat, u: nat)
    requires Run(run) && i <= j < |run| && t in run[i].threads && u in run[j].threads
    requires run[i].threads[t].Served? && run[j].threads[u].Served?
    ensures var a, b := run[i].threads[t], run[j].threads[u];
            a.variant.id == b.variant.id <==> a.key == b.key && a.code == b.code && a.layout == b.layout
  {
    RunKeeps(run, i);
    RunKeeps(run, j);
    RunGrows(run, i, j);
    OneEntryEach(run, i, t, j, u);
    var a, b := run[i].threads[t], run[j].threads[u];
    assert Known(run[i].shared, a) && Known(run[j].shared, b);
    assert Made(run[j].shared, a.source.id, a.variant) && Made(run[j].shared, b.source.id, b.variant);
    if a.source.id == b.source.id { assert DistinctLayouts(run[j].shared.records[a.source.id].variants); }
  }

  /** In every state the variants of each source have pairwise different layouts; no two threads compile for one source
      at a time, and none compiles a layout that is there. */
  lemma VariantsApart(run: seq<State>, i: nat)
    requires Run(run) && i < |run|
    ensures forall id <- run[i].shared.records :: DistinctLayouts(run[i].shared.records[id].variants)
    ensures forall t, u ::
              t in run[i].threads && u in run[i].threads && t != u
              && Locks(run[i].threads[t]) && Locks(run[i].threads[u]) ==>
                run[i].threads[t].source.id != run[i].threads[u].source.id
    ensures forall t <- run[i].threads :: var thread := run[i].threads[t];
              Locks(thread) ==> thread.source.id in run[i].shared.records
                                && !Has(run[i].shared.records[thread.source.id].variants, thread.layout)
  {
    RunKeeps(run, i);
    forall t, u | t in run[i].threads && u in run[i].threads && t != u
      ensures Exclusive(run[i].threads[t], run[i].threads[u]) {}
    forall t <- run[i].threads ensures Known(run[i].shared, run[i].threads[t]) {}
  }
}
