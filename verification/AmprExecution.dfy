/** Gather and scatter reads continue a read before them. Recording checks this by a flag of the buffer, execution by
what it has met in the stream; emptying a buffer clears its stream and keeps its flag. */
module AmprExecution {
  import opened Wrappers
  import opened AmprCommands
  import opened AmprRecorder

  // ----- Execution

  predicate Touches(call: Call) { SetsRead(call) || NeedsRead(call) || call.ResetGatherScatter? }

  /** Is there a read to continue after these commands? */
  predicate HasRead(calls: seq<Call>) {
    if calls == [] then false
    else
      var n := |calls| - 1;
      if SetsRead(calls[n]) || NeedsRead(calls[n]) then true
      else if calls[n].ResetGatherScatter? then false
      else HasRead(calls[..n])
  }

  /** Execution meets no gather or scatter read without a read to continue. */
  ghost predicate Executes(calls: seq<Call>) {
    forall k :: 0 <= k < |calls| && NeedsRead(calls[k]) ==> HasRead(calls[..k])
  }

  predicate Touched(calls: seq<Call>) { exists call <- calls :: Touches(call) }

  /** The first command that has to do with reads continues one. */
  ghost predicate Strays(calls: seq<Call>) {
    exists k :: 0 <= k < |calls| && NeedsRead(calls[k]) && !Touched(calls[..k])
  }

  // ----- Recording

  /** The flag when the buffer was last emptied. */
  function KeptFlag(rules: Rules, history: seq<Event>): bool
    decreases |history|
  {
    if history == [] then false
    else
      var n := |history| - 1;
      if history[n].Called? then KeptFlag(rules, history[..n]) else Play(rules, history[..n]).gatherValid
  }

  lemma NoneTouched(calls: seq<Call>)
    requires !Touched(calls)
    ensures !HasRead(calls)
    decreases |calls|
  {
    if calls != [] {
      var n := |calls| - 1;
      assert calls[n] in calls;
      forall call <- calls[..n] ensures !Touches(call) { assert call in calls; }
      NoneTouched(calls[..n]);
    }
  }

  /** One more command. */
  lemma OneMore(calls: seq<Call>, call: Call)
    ensures var more := calls + [call];
            && (Touched(more) <==> Touched(calls) || Touches(call))
            && HasRead(more) == (if SetsRead(call) || NeedsRead(call) then true else if call.ResetGatherScatter?
                                 then false else HasRead(calls))
            && (Executes(more) <==> Executes(calls) && (NeedsRead(call) ==> HasRead(calls)))
            && (Strays(more) <==> Strays(calls) || (NeedsRead(call) && !Touched(calls)))
  {
    var more, n := calls + [call], |calls|;
    assert more[..n] == calls && more[n] == call;
    assert forall k :: 0 <= k < n ==> more[k] == calls[k] && more[..k] == calls[..k];
    if Executes(more) {
      forall k | 0 <= k < n && NeedsRead(calls[k]) ensures HasRead(calls[..k]) {
        assert more[k] == calls[k] && more[..k] == calls[..k];
      }
    }
  }

  /** Between recording and execution. */
  ghost predicate Agree(s: State, kept: bool) {
    && s.gatherValid == (if Touched(s.calls) then HasRead(s.calls) else kept)
    && (Executes(s.calls) <==> !Strays(s.calls)) && (Strays(s.calls) ==> kept)
  }

  lemma {:induction false} HistoryAgrees(rules: Rules, history: seq<Event>)
    ensures Agree(Play(rules, history), KeptFlag(rules, history))
    decreases |history|
  {
    if history != [] {
      var n := |history| - 1;
      var before, e := Play(rules, history[..n]), history[n];
      HistoryAgrees(rules, history[..n]);
      if e.Called? && Verdict(rules, before, e.call) == Success {
        OneMore(before.calls, e.call);
        if !Touched(before.calls) { NoneTouched(before.calls); }
      }
    }
  }

  /** What a history has recorded is executed unless the flag was kept from before the buffer was last emptied and the
      first recorded command that has to do with reads relies on it. */
  lemma ExecutesUnlessStale(rules: Rules, history: seq<Event>)
    ensures var calls := Play(rules, history).calls;
            (Executes(calls) <==> !Strays(calls)) && (!KeptFlag(rules, history) ==> Executes(calls))
  {
    HistoryAgrees(rules, history);
  }

  /** A read, a reset of the buffer, a gather read: it is recorded, and there is nothing for it to continue. */
  lemma StaleGather()
    ensures var history := [Bound(64), Called(ReadFile(7, 0x1000, 64, 0)), WasReset, Called(ReadGather(64, 64))];
            Play(Ampr(), history).calls == [ReadGather(64, 64)] && !Executes(Play(Ampr(), history).calls)
  {
    var read, calls := ReadFile(7, 0x1000, 64, 0), [ReadGather(64, 64)];
    var one, two := [Bound(64)], [Bound(64), Called(read)];
    var three := two + [WasReset];
    PlayOn(Ampr(), [], Bound(64));
    PlayOn(Ampr(), one, Called(read));
    PlayOn(Ampr(), two, WasReset);
    PlayOn(Ampr(), three, Called(calls[0]));
    assert [] + one == one && one + [Called(read)] == two;
    assert Play(Ampr(), one) == State(false, false, Some(64), []);
    assert Play(Ampr(), two) == State(false, true, Some(64), [read]);
    assert Play(Ampr(), three) == State(false, true, Some(64), []);
    assert three + [Called(calls[0])] == [Bound(64), Called(read), WasReset, Called(calls[0])];
    assert [] + calls == calls && calls[..0] == [] && NeedsRead(calls[0]) && !HasRead(calls[..0]);
  }

  lemma PlayOn(rules: Rules, history: seq<Event>, e: Event)
    ensures Play(rules, history + [e]) == Next(rules, Play(rules, history), e)
  {
    assert (history + [e])[..|history|] == history;
  }
}
