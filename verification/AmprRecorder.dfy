/** Recording into a command buffer, and all histories of calls on one. */
module AmprRecorder {
  import opened Wrappers
  import opened Uleb128
  import opened AmprCommands

  // ----- What a call does, on values

  /** Whether a map is open, whether a read came since the last reset, the bound memory, and what it records. */
  datatype State = State(mapActive: bool, gatherValid: bool, capacity: Option<nat>, calls: seq<Call>)

  /** How calls are encoded and which arguments are valid; `AMPR` are the ones of this library. */
  datatype Rules = Rules(encode: Encoder, valid: Call -> bool)

  function Ampr(): Rules { Rules(Command, ValidArguments) }

  /** What a call checks before it looks at the memory. */
  function Checked(rules: Rules, mapActive: bool, gatherValid: bool, call: Call): Code {
    if !rules.valid(call) then Invalid
    else if NeedsRead(call) && !gatherValid then Invalid
    else if (OnCompletion(call) || call.MapBegin?) && mapActive then NotPermitted
    else if call.MapEnd? && !mapActive then NotPermitted
    else Success
  }

  function Verdict(rules: Rules, s: State, call: Call): Code {
    if Checked(rules, s.mapActive, s.gatherValid, call) != Success then Checked(rules, s.mapActive, s.gatherValid, call)
    else if s.capacity.None? || |Stream(rules.encode, s.calls)| + |rules.encode(call)| > s.capacity.value
    then BufferFull
    else Success
  }

  /** A call that fails changes nothing. */
  function After(rules: Rules, s: State, call: Call): State {
    if Verdict(rules, s, call) != Success then s
    else
      State(if call.MapBegin? then true else if call.MapEnd? then false else s.mapActive,
            if SetsRead(call) then true else if call.ResetGatherScatter? then false else s.gatherValid,
            s.capacity, s.calls + [call])
  }

  // ----- The buffer object

  class CommandBuffer {
    const rules: Rules
    var mapActive: bool
    var gatherValid: bool
    var offset: nat
    var numCommands: nat
    var size: nat
    var base: array?<Byte>
    ghost var calls: seq<Call>

    /** The first `offset` bytes are the recorded commands, `numCommands` of them, within the bound memory. */
    ghost predicate Valid()
      reads this, base
    {
      && offset <= size < 0x1_0000_0000 && numCommands == |calls| && offset == |Stream(rules.encode, calls)|
      && if base == null then size == 0 && calls == []
         else size <= base.Length && base[..offset] == Stream(rules.encode, calls)
    }

    ghost function Now(): State
      reads this
    {
      State(mapActive, gatherValid, if base == null then None else Some(size), calls)
    }

    constructor (rules: Rules)
      ensures Valid() && this.rules == rules && Now() == State(false, false, None, [])
    {
      this.rules := rules;
      mapActive, gatherValid, offset, numCommands, size, base, calls := false, false, 0, 0, 0, null, [];
    }

    method SetBuffer(memory: array<Byte>, bytes: nat)
      requires bytes <= memory.Length && bytes < 0x1_0000_0000
      modifies this
      ensures Valid() && Now() == State(old(mapActive), old(gatherValid), Some(bytes), [])
    {
      base, size, offset, numCommands, calls := memory, bytes, 0, 0, [];
    }

    /** The recording flags survive. */
    method Reset()
      requires Valid()
      modifies this
      ensures Valid() && Now() == old(Now()).(calls := [])
    {
      offset, numCommands, calls := 0, 0, [];
    }

    method ClearBuffer() returns (memory: array?<Byte>)
      modifies this
      ensures memory == old(base) && Valid() && Now() == State(old(mapActive), old(gatherValid), None, [])
    {
      memory := base;
      base, size, offset, numCommands, calls := null, 0, 0, 0, [];
    }

    /** Copies a command behind the others when it fits. */
    method Append(command: seq<Byte>, ghost call: Call) returns (code: Code)
      requires Valid() && command == rules.encode(call)
      modifies this`offset, this`numCommands, this`calls, base
      ensures Valid() && code == if old(base == null || offset + |command| > size) then BufferFull else Success
      ensures calls == if code == Success then old(calls) + [call] else old(calls)
      ensures code != Success && base != null ==> base[..] == old(base[..])
    {
      if base == null || |command| > size - offset { return BufferFull; }
      Copy(command, base, offset);
      assert (calls + [call])[..|calls|] == calls;
      offset, numCommands, calls := offset + |command|, numCommands + 1, calls + [call];
      code := Success;
    }

    method Record(call: Call) returns (code: Code)
      requires Valid()
      modifies this, base
      ensures Valid() && code == Verdict(rules, old(Now()), call) && Now() == After(rules, old(Now()), call)
      ensures code != Success && base != null ==> base[..] == old(base[..])
      ensures code == Success ==> offset == old(offset) + |rules.encode(call)|
    {
      code := Checked(rules, mapActive, gatherValid, call);
      if code != Success { return; }
      code := Append(rules.encode(call), call);
      if code == Success { SetFlags(call); }
    }

    method SetFlags(call: Call)
      modifies this`mapActive, this`gatherValid
      ensures mapActive == if call.MapBegin? then true else if call.MapEnd? then false else old(mapActive)
      ensures gatherValid == if SetsRead(call) then true else if call.ResetGatherScatter? then false
              else old(gatherValid)
    {
      if call.MapBegin? { mapActive := true; }
      if call.MapEnd? { mapActive := false; }
      if SetsRead(call) { gatherValid := true; }
      if call.ResetGatherScatter? { gatherValid := false; }
    }
  }

  method Copy(command: seq<Byte>, base: array<Byte>, offset: nat)
    requires offset + |command| <= base.Length
    modifies base
    ensures base[..offset + |command|] == old(base[..offset]) + command
  {
    for i := 0 to |command|
      invariant base[..offset] == old(base[..offset])
      invariant forall k :: 0 <= k < i ==> base[offset + k] == command[k]
    {
      base[offset + i] := command[i];
    }
    assert base[offset..offset + |command|] == command;
    assert base[..offset + |command|] == base[..offset] + base[offset..offset + |command|];
  }

  // ----- Histories

  datatype Event = Called(call: Call) | Bound(size: nat) | WasReset | Cleared

  function Next(rules: Rules, s: State, e: Event): State {
    match e
    case Called(call) => After(rules, s, call)
    case Bound(size) => State(s.mapActive, s.gatherValid, Some(size), [])
    case WasReset => s.(calls := [])
    case Cleared => State(s.mapActive, s.gatherValid, None, [])
  }

  function Play(rules: Rules, history: seq<Event>): State
    decreases |history|
  {
    if history == [] then State(false, false, None, [])
    else Next(rules, Play(rules, history[..|history| - 1]), history[|history| - 1])
  }

  /** Is event `i` a call that succeeded? */
  predicate Succeeds(rules: Rules, history: seq<Event>, i: nat)
    requires i < |history|
  {
    history[i].Called? && Verdict(rules, Play(rules, history[..i]), history[i].call) == Success
  }

  predicate Begins(rules: Rules, history: seq<Event>, i: nat)
    requires i < |history|
  {
    Succeeds(rules, history, i) && history[i].call.MapBegin?
  }

  predicate Ends(rules: Rules, history: seq<Event>, i: nat)
    requires i < |history|
  {
    Succeeds(rules, history, i) && history[i].call.MapEnd?
  }

  predicate Reads(rules: Rules, history: seq<Event>, i: nat)
    requires i < |history|
  {
    Succeeds(rules, history, i) && SetsRead(history[i].call)
  }

  predicate Forgets(rules: Rules, history: seq<Event>, i: nat)
    requires i < |history|
  {
    Succeeds(rules, history, i) && history[i].call.ResetGatherScatter?
  }

  /** How one event changes the two flags. */
  lemma FlagsStep(rules: Rules, history: seq<Event>, n: nat)
    requires n < |history|
    ensures var before, now := Play(rules, history[..n]), Play(rules, history[..n + 1]);
            && now.mapActive == (if Begins(rules, history, n) then true else if Ends(rules, history, n) then false
                                 else before.mapActive)
            && now.gatherValid == (if Reads(rules, history, n) then true else if Forgets(rules, history, n) then false
                                   else before.gatherValid)
            && (Begins(rules, history, n) ==> !before.mapActive) && (Ends(rules, history, n) ==> before.mapActive)
            && (Succeeds(rules, history, n) && NeedsRead(history[n].call) ==> before.gatherValid)
  {
    assert history[..n + 1][..n] == history[..n] && history[..n + 1][n] == history[n];
  }

  // ----- A flag that some events set and others clear

  /** Event `b` set the flag and none before event `n` cleared it again. */
  ghost predicate SetSince(sets: seq<bool>, clears: seq<bool>, b: nat, n: nat) {
    b < n <= |sets| == |clears| && sets[b] && forall k: nat :: b < k < n ==> !clears[k]
  }

  ghost predicate Latch(flag: seq<bool>, sets: seq<bool>, clears: seq<bool>) {
    && |flag| == |sets| + 1 == |clears| + 1 && !flag[0]
    && forall k: nat :: k < |sets| ==> flag[k + 1] == (if sets[k] then true else if clears[k] then false else flag[k])
  }

  /** The flag is on exactly when some event set it and none has cleared it since. */
  lemma {:induction false} LatchSet(flag: seq<bool>, sets: seq<bool>, clears: seq<bool>, n: nat)
    requires Latch(flag, sets, clears) && n < |flag| && forall k :: 0 <= k < |sets| ==> !(sets[k] && clears[k])
    ensures flag[n] <==> exists b: nat :: SetSince(sets, clears, b, n)
  {
    if n > 0 {
      LatchSet(flag, sets, clears, n - 1);
      assert flag[n - 1 + 1] == (if sets[n - 1] then true else if clears[n - 1] then false else flag[n - 1]);
      if b: nat :| SetSince(sets, clears, b, n) {
        if b < n - 1 { assert SetSince(sets, clears, b, n - 1) && !clears[n - 1]; }
      }
      if flag[n] {
        if sets[n - 1] {
          assert SetSince(sets, clears, n - 1, n);
        } else {
          var b: nat :| SetSince(sets, clears, b, n - 1);
          assert SetSince(sets, clears, b, n);
        }
      }
    }
  }

  function BeginsOf(rules: Rules, history: seq<Event>): (r: seq<bool>)
    ensures |r| == |history| && forall k: nat :: k < |r| ==> r[k] == Begins(rules, history, k)
  {
    seq(|history|, k requires 0 <= k < |history| => Begins(rules, history, k))
  }

  function EndsOf(rules: Rules, history: seq<Event>): (r: seq<bool>)
    ensures |r| == |history| && forall k: nat :: k < |r| ==> r[k] == Ends(rules, history, k)
  {
    seq(|history|, k requires 0 <= k < |history| => Ends(rules, history, k))
  }

  function ReadsOf(rules: Rules, history: seq<Event>): (r: seq<bool>)
    ensures |r| == |history| && forall k: nat :: k < |r| ==> r[k] == Reads(rules, history, k)
  {
    seq(|history|, k requires 0 <= k < |history| => Reads(rules, history, k))
  }

  function ForgetsOf(rules: Rules, history: seq<Event>): (r: seq<bool>)
    ensures |r| == |history| && forall k: nat :: k < |r| ==> r[k] == Forgets(rules, history, k)
  {
    seq(|history|, k requires 0 <= k < |history| => Forgets(rules, history, k))
  }

  /** A map is open exactly when some begin has not been ended. */
  lemma MapOpen(rules: Rules, history: seq<Event>, n: nat)
    requires n <= |history|
    ensures Play(rules, history[..n]).mapActive <==>
            exists b: nat :: SetSince(BeginsOf(rules, history), EndsOf(rules, history), b, n)
  {
    var flag := seq(|history| + 1, k requires 0 <= k <= |history| => Play(rules, history[..k]).mapActive);
    var sets, clears := BeginsOf(rules, history), EndsOf(rules, history);
    forall k: nat | k < |history|
      ensures flag[k + 1] == (if sets[k] then true else if clears[k] then false else flag[k])
    {
      FlagsStep(rules, history, k);
    }
    LatchSet(flag, sets, clears, n);
  }

  /** The gather state is valid exactly when some read has not been undone by a reset. */
  lemma GatherValid(rules: Rules, history: seq<Event>, n: nat)
    requires n <= |history|
    ensures Play(rules, history[..n]).gatherValid <==>
            exists b: nat :: SetSince(ReadsOf(rules, history), ForgetsOf(rules, history), b, n)
  {
    var flag := seq(|history| + 1, k requires 0 <= k <= |history| => Play(rules, history[..k]).gatherValid);
    var sets, clears := ReadsOf(rules, history), ForgetsOf(rules, history);
    forall k: nat | k < |history|
      ensures flag[k + 1] == (if sets[k] then true else if clears[k] then false else flag[k])
    {
      FlagsStep(rules, history, k);
    }
    LatchSet(flag, sets, clears, n);
  }

  // ----- What holds in every history

  /** Successful begins and ends strictly alternate, beginning with a begin: before an end the last of them is a begin,
      and before a begin it is not. */
  lemma MapsAlternate(rules: Rules, history: seq<Event>, j: nat)
    requires j < |history|
    ensures var begins, ends := BeginsOf(rules, history), EndsOf(rules, history);
            && (ends[j] ==> exists b: nat :: SetSince(begins, ends, b, j))
            && (begins[j] ==> !exists b: nat :: SetSince(begins, ends, b, j))
  {
    MapOpen(rules, history, j);
    FlagsStep(rules, history, j);
  }

  /** Between two successful begins lies a successful end, and between two successful ends a successful begin. */
  lemma OneBetween(rules: Rules, history: seq<Event>, i: nat, j: nat)
    requires i < j < |history|
    ensures Begins(rules, history, i) && Begins(rules, history, j) ==> exists k: nat ::
            i < k < j
            && EndsOf(rules, history)[k]
    ensures Ends(rules, history, i) && Ends(rules, history, j) ==> exists k: nat ::
            i < k < j
            && BeginsOf(rules, history)[k]
  {
    MapsAlternate(rules, history, j);
    var begins, ends := BeginsOf(rules, history), EndsOf(rules, history);
    if begins[i] && begins[j] { assert !SetSince(begins, ends, i, j); }
    if ends[i] && ends[j] {
      var b: nat :| SetSince(begins, ends, b, j);
      assert begins[b] && b != i && !(b < i);
    }
  }

  /** A gather or scatter read succeeds only after a read that no reset has undone. */
  lemma GatherAfterRead(rules: Rules, history: seq<Event>, n: nat)
    requires n < |history| && Succeeds(rules, history, n) && NeedsRead(history[n].call)
    ensures exists b: nat :: SetSince(ReadsOf(rules, history), ForgetsOf(rules, history), b, n)
  {
    FlagsStep(rules, history, n);
    GatherValid(rules, history, n);
  }

  /** The recorded bytes fit the bound memory, and every recorded call had valid arguments. */
  lemma {:induction false} PlayFits(rules: Rules, history: seq<Event>)
    ensures var s := Play(rules, history);
            && (if s.capacity.None? then s.calls == [] else |Stream(rules.encode, s.calls)| <= s.capacity.value)
            && forall call <- s.calls :: rules.valid(call)
    decreases |history|
  {
    if history != [] {
      var n := |history| - 1;
      PlayFits(rules, history[..n]);
      var before, e := Play(rules, history[..n]), history[n];
      if e.Called? { assert (before.calls + [e.call])[..|before.calls|] == before.calls; }
    }
  }

  /** A successful call grows the stream by its measured size, a no-operation with data by that of one word more. */
  lemma GrowsAsMeasured(s: State, call: Call)
    requires Verdict(Ampr(), s, call) == Success
    ensures Measure(MeasuredAs(call)) ==
            Some(|Stream(Command, After(Ampr(), s, call).calls)| - |Stream(Command, s.calls)|)
    ensures call.NopWithData? || Measure(call) == Measure(MeasuredAs(call))
  {
    MeasuredSize(call);
    assert After(Ampr(), s, call).calls == s.calls + [call];
    StreamMore(Command, s.calls, call);
  }

  lemma StreamMore(encode: Encoder, calls: seq<Call>, call: Call)
    ensures |Stream(encode, calls + [call])| == |Stream(encode, calls)| + |encode(call)|
  {
    assert (calls + [call])[..|calls|] == calls;
  }

  lemma {:induction false} CommandWithin(encode: Encoder, calls: seq<Call>, call: Call)
    requires call in calls
    ensures |encode(call)| <= |Stream(encode, calls)|
    decreases |calls|
  {
    var n := |calls| - 1;
    if call != calls[n] {
      assert calls == calls[..n] + [calls[n]];
      CommandWithin(encode, calls[..n], call);
    }
  }

  /** After any history on buffers below 4 GiB the recorded bytes cut into exactly the recorded commands. */
  lemma HistoryCuts(history: seq<Event>)
    requires forall e <- history :: e.Bound? ==> e.size < 0x1_0000_0000
    ensures var calls := Play(Ampr(), history).calls;
            Cut(Stream(Command, calls)) == Some(Commands(Command, calls)) && |Commands(Command, calls)| == |calls|
  {
    var s := Play(Ampr(), history);
    PlayFits(Ampr(), history);
    CapacityBound(history);
    forall call <- s.calls ensures |Command(call)| < 0x1_0000_0000 { CommandWithin(Command, s.calls, call); }
    StreamCuts(s.calls);
  }

  lemma {:induction false} CapacityBound(history: seq<Event>)
    requires forall e <- history :: e.Bound? ==> e.size < 0x1_0000_0000
    ensures var s := Play(Ampr(), history); s.capacity.Some? ==> s.capacity.value < 0x1_0000_0000
    decreases |history|
  {
    if history != [] {
      assert history[|history| - 1] in history;
      CapacityBound(history[..|history| - 1]);
    }
  }
}
