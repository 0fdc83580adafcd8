/** All interleavings of threads that use the result memo. A step is one region under the source's lock, or the
making of a result outside it. */
module MemoRuns {
  import opened ResultMemo

  datatype Thread =
    | Idle
    | Asking(variantId: Word, hash: Word)
    | Making(variantId: Word, hash: Word)
    | Publishing(variantId: Word, hash: Word, made: Result)
    | Answered(variantId: Word, hash: Word, result: Result)

  /** `history` lists the keys used so far, in order. */
  datatype State = State(memo: seq<Entry>, history: seq<Word>, threads: map<nat, Thread>)

  ghost predicate Init(s: State) { s.memo == [] && s.history == [] && forall t <- s.threads :: s.threads[t].Idle? }

  ghost predicate Begins(was: Thread, now: Thread) { was.Idle? && now.Asking? }

  ghost predicate Makes(was: Thread, now: Thread) {
    was.Making? && now.Publishing? && now.variantId == was.variantId && now.hash == was.hash
    && now.made.variantId == was.variantId && now.made.hash == was.hash
  }

  ghost predicate Ends(was: Thread, now: Thread) { was.Answered? && now.Idle? }

  ghost predicate LooksUp(mix: Mix, s: State, was: Thread, now: Thread, s': State) {
    was.Asking? &&
    var found := Find(mix, s.memo, was.variantId, was.hash);
    && s'.memo == AfterLookup(mix, s.memo, was.variantId, was.hash)
    && if found.Some? then now == Answered(was.variantId, was.hash, found.value.result)
    && s'.history == s.history + [mix(was.variantId, was.hash)]
       else now == Making(was.variantId, was.hash) && s'.history == s.history
  }

  ghost predicate Publishes(mix: Mix, s: State, was: Thread, now: Thread, s': State) {
    was.Publishing?
    && s'.memo == AfterPublish(mix, s.memo, was.variantId, was.hash, was.made)
    && now == Answered(was.variantId, was.hash, Published(mix, s.memo, was.variantId, was.hash, was.made).result)
    && s'.history == s.history + [mix(was.variantId, was.hash)]
  }

  /** Thread `t` goes from `was` to `now`. */
  ghost predicate Moves(mix: Mix, s: State, was: Thread, now: Thread, s': State) {
    || ((Begins(was, now) || Makes(was, now) || Ends(was, now)) && s'.memo == s.memo && s'.history == s.history)
    || LooksUp(mix, s, was, now, s')
    || Publishes(mix, s, was, now, s')
  }

  ghost predicate Step(mix: Mix, s: State, s': State) {
    exists t :: t in s.threads && t in s'.threads && s'.threads == s.threads[t := s'.threads[t]]
        && Moves(mix, s, s.threads[t], s'.threads[t], s')
  }

  /** A thread has only ever got a result made for its own variant and snapshot hash. */
  ghost predicate OwnResult(thread: Thread) {
    match thread
    case Publishing(v, h, made) => made.variantId == v && made.hash == h
    case Answered(v, h, result) => result.variantId == v && result.hash == h
    case _ => true
  }

  ghost predicate Inv(mix: Mix, s: State) {
    Sound(mix, s.memo, s.history) && forall t <- s.threads :: OwnResult(s.threads[t])
  }

  lemma LookupKeeps(mix: Mix, s: State, was: Thread, now: Thread, s': State)
    requires Inv(mix, s) && LooksUp(mix, s, was, now, s')
    ensures Sound(mix, s'.memo, s'.history) && OwnResult(now)
  {
    FindIsEntry(mix, s.memo, was.variantId, was.hash);
    var found := Find(mix, s.memo, was.variantId, was.hash);
    if found.Some? { UseSound(mix, s.memo, s.history, found.value); }
  }

  lemma PublishKeeps(mix: Mix, s: State, was: Thread, now: Thread, s': State)
    requires Inv(mix, s) && OwnResult(was) && Publishes(mix, s, was, now, s')
    ensures Sound(mix, s'.memo, s'.history) && OwnResult(now)
  {
    FindIsEntry(mix, s.memo, was.variantId, was.hash);
    UseSound(mix, s.memo, s.history, Published(mix, s.memo, was.variantId, was.hash, was.made));
  }

  lemma StepKeeps(mix: Mix, s: State, s': State)
    requires Inv(mix, s) && Step(mix, s, s')
    ensures Inv(mix, s')
  {
    var t :| t in s.threads && t in s'.threads && s'.threads == s.threads[t := s'.threads[t]]
        && Moves(mix, s, s.threads[t], s'.threads[t], s');
    var was, now := s.threads[t], s'.threads[t];
    if LooksUp(mix, s, was, now, s') { LookupKeeps(mix, s, was, now, s'); }
    if Publishes(mix, s, was, now, s') { PublishKeeps(mix, s, was, now, s'); }
  }

  ghost predicate Run(mix: Mix, run: seq<State>) {
    run != [] && Init(run[0]) && forall i: nat :: i + 1 < |run| ==> Step(mix, run[i], run[i + 1])
  }

  lemma {:induction false} RunKeeps(mix: Mix, run: seq<State>, i: nat)
    requires Run(mix, run) && i < |run|
    ensures Inv(mix, run[i])
  {
    if i == 0 {
      assert Keys(mix, []) == [] == Take(Recent([]), ENTRIES);
    } else {
      RunKeeps(mix, run, i - 1);
      assert Step(mix, run[i - 1], run[i - 1 + 1]);
      StepKeeps(mix, run[i - 1], run[i]);
    }
  }

  /** After every step of every interleaving: at most 256 entries under pairwise different keys, the most recently used
      ones in that order, and every answer made for the pair that was asked for. */
  lemma MemoSafe(mix: Mix, run: seq<State>, i: nat)
    requires Run(mix, run) && i < |run|
    ensures |run[i].memo| <= ENTRIES && Distinct(Keys(mix, run[i].memo))
    ensures Keys(mix, run[i].memo) == Take(Recent(run[i].history), ENTRIES)
    ensures forall t <- run[i].threads :: run[i].threads[t].Answered? ==>
              run[i].threads[t].result.variantId == run[i].threads[t].variantId
                && run[i].threads[t].result.hash == run[i].threads[t].hash
  {
    RunKeeps(mix, run, i);
    SoundBounded(mix, run[i].memo, run[i].history);
    forall t <- run[i].threads ensures OwnResult(run[i].threads[t]) {}
  }
}
