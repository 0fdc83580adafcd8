/** The preparation of a vertex module as a cursor over its words: three times, to learn about it, to find its inputs
and to write the patchable module. */
module VertexSpecializer {
  import opened Wrappers
  import opened Spirv
  import opened FragmentPlan
  import opened FragmentSpecializer
  import opened VertexInputs
  import opened VertexPreparation

  method ReadComponents(inputs: seq<Input>) returns (components: Option<map<nat, nat>>)
    ensures components == Components(inputs)
  {
    var known: map<nat, nat> := map[];
    for k := 0 to |inputs|
      invariant Components(inputs[k..], known) == Components(inputs)
    {
      assert inputs[k..][1..] == inputs[k + 1..];
      var i := inputs[k];
      if i.location >= MAX_RESOURCES || i.components == 0 || i.components > 4 || i.location in known { return None; }
      known := known[i.location := i.components];
    }
    components := Some(known);
  }

  lemma FindFirst(info: Info, components: map<nat, nat>, scalars: seq<nat>, f: Found, i: Instr, rest: seq<Instr>)
    requires |scalars| == 3 && f.Found?
    ensures Find(info, components, scalars, f, [i] + rest) ==
            if !IsInput(info, components, i) then Find(info, components, scalars, f, rest)
            else
              var id := Operand(i, 2);
              var location := info.locations[id];
              match InputPointers(f.d, scalars, components[location])
              case NoIds => NotFound
              case Ids(pointers, d) =>
                Find(info, components, scalars,
                     Found(d, f.choices[id := pointers], Emplace(f.pointers, id, location), f.variables + [i]), rest)
  {
    assert ([i] + rest)[1..] == rest;
  }

  /** Searching what is left of the words from here finds the whole. */
  ghost predicate Finds(info: Info, components: map<nat, nat>, scalars: seq<nat>, f: Found, words: seq<nat>,
                        cursor: nat, whole: Found) {
    |scalars| == 3 && cursor <= |words| && Parse(words[cursor..]).Some?
      && whole == Find(info, components, scalars, f, Parse(words[cursor..]).value)
  }

  lemma FindsNext(info: Info, components: map<nat, nat>, scalars: seq<nat>, f: Found, words: seq<nat>, cursor: nat,
                  whole: Found)
    requires Finds(info, components, scalars, f, words, cursor, whole) && cursor < |words| && f.Found?
    ensures !Truncated(words[cursor..]) && words[cursor] / HALF > 0
    ensures var i, next := At(words, cursor), cursor + words[cursor] / HALF;
            if !IsInput(info, components, i) then Finds(info, components, scalars, f, words, next, whole)
            else
              var id := Operand(i, 2);
              var location := info.locations[id];
              match InputPointers(f.d, scalars, components[location])
              case NoIds => whole == NotFound
              case Ids(pointers, d) =>
                Finds(info, components, scalars,
                      Found(d, f.choices[id := pointers], Emplace(f.pointers, id, location), f.variables + [i]), words,
                      next, whole)
  {
    ParseFrom(words, cursor);
    FindFirst(info, components, scalars, f, At(words, cursor), Parse(words[cursor + words[cursor] / HALF..]).value);
  }

  lemma FindsEnd(info: Info, components: map<nat, nat>, scalars: seq<nat>, f: Found, words: seq<nat>, whole: Found)
    requires Finds(info, components, scalars, f, words, |words|, whole)
    ensures whole == f
  {
    assert words[|words|..] == [];
  }

  method FindInputs(words: seq<nat>, info: Info, components: map<nat, nat>, scalars: seq<nat>, start: Found)
    returns (found: Found)
    requires |words| >= HEADER && Parse(words[HEADER..]).Some? && |scalars| == 3 && start.Found?
    ensures found == Find(info, components, scalars, start, Parse(words[HEADER..]).value)
  {
    found := start;
    var cursor := HEADER;
    ghost var whole := Find(info, components, scalars, start, Parse(words[HEADER..]).value);
    while cursor < |words|
      invariant found.Found? && Finds(info, components, scalars, found, words, cursor, whole)
      decreases |words| - cursor
    {
      FindsNext(info, components, scalars, found, words, cursor, whole);
      var i := At(words, cursor);
      if IsInput(info, components, i) {
        var id := Operand(i, 2);
        var location := info.locations[id];
        var pointers := InputPointers(found.d, scalars, components[location]);
        if pointers.NoIds? { return NotFound; }
        found := Found(pointers.d, found.choices[id := pointers.ids], Emplace(found.pointers, id, location),
                       found.variables + [i]);
      }
      cursor := cursor + words[cursor] / HALF;
    }
    FindsEnd(info, components, scalars, found, words, whole);
  }

  // ----- Writing the patchable module

  lemma PatchesOn(p: Prepared, rest: seq<Prepared>, at: nat)
    ensures Patches([p] + rest, at) == Patches([p], at) + Patches(rest, at + Count(p.instr))
  {
    assert ([p] + rest)[1..] == rest && [p][1..] == [];
  }

  lemma WordsOn(p: Prepared, rest: seq<Prepared>)
    ensures |StreamWords(Instrs([p] + rest))| == Count(p.instr) + |StreamWords(Instrs(rest))|
  {
    assert ([p] + rest)[1..] == rest;
    assert Instrs([p] + rest)[1..] == Instrs(rest);
  }

  lemma {:induction false} PatchesJoin(a: seq<Prepared>, b: seq<Prepared>, at: nat)
    ensures Patches(a + b, at) == Patches(a, at) + Patches(b, at + |StreamWords(Instrs(a))|)
  {
    if a == [] {
      assert a + b == b;
    } else {
      var p, rest := a[0], a[1..];
      assert a == [p] + rest && a + b == [p] + (rest + b);
      PatchesOn(p, rest, at);
      PatchesOn(p, rest + b, at);
      WordsOn(p, rest);
      PatchesJoin(rest, b, at + Count(p.instr));
      Associate(Patches([p], at), Patches(rest, at + Count(p.instr)),
                Patches(b, at + Count(p.instr) + |StreamWords(Instrs(rest))|));
    }
  }

  lemma Associate(x: seq<Patch>, y: seq<Patch>, z: seq<Patch>)
    ensures x + (y + z) == (x + y) + z
  {
  }

  /** A step appends the same instructions whatever stands before. */
  lemma StepAppends(plan: VertexPlan, pass: Pass, i: Instr)
    ensures var part := Step(plan, pass.(out := []), i); Step(plan, pass, i) == part.(out := pass.out + part.out)
  {
    var start := if i.op == OpFunction && !pass.inserted then Insert(plan, pass) else pass;
    var part := if i.op == OpFunction && !pass.inserted then Insert(plan, pass.(out := [])) else pass.(out := []);
    assert start == part.(out := pass.out + part.out);
    KeepAppends(plan, part, pass.out, i);
    KeepAppends(plan, part.(out := []), part.out, i);
    assert pass.out + [] == pass.out;
  }

  lemma KeepAppends(plan: VertexPlan, pass: Pass, before: seq<Prepared>, i: Instr)
    ensures Keep(plan, pass.(out := before + pass.out), i) ==
            Keep(plan, pass, i).(out := before + Keep(plan, pass, i).out)
  {
    var kept := Keep(plan, pass, i).out;
    if kept != pass.out {
      var last := kept[|kept| - 1];
      assert kept == pass.out + [last] && before + (pass.out + [last]) == before + pass.out + [last];
    }
  }

  /** The words and patches written so far are those of the pass. */
  ghost predicate Written(header: seq<nat>, pass: Pass, words: seq<nat>, patches: seq<Patch>) {
    |header| == HEADER && words == header + StreamWords(Instrs(pass.out)) && patches == Patches(pass.out, HEADER)
  }

  lemma WriteMore(header: seq<nat>, pass: Pass, part: Pass, words: seq<nat>, patches: seq<Patch>)
    requires Written(header, pass, words, patches)
    ensures Written(header, part.(out := pass.out + part.out), words + StreamWords(Instrs(part.out)),
                    patches + Patches(part.out, |words|))
  {
    WordsMore(header, pass.out, part.out);
    PatchesJoin(pass.out, part.out, HEADER);
  }

  lemma WordsMore(header: seq<nat>, a: seq<Prepared>, b: seq<Prepared>)
    ensures header + StreamWords(Instrs(a + b)) == header + StreamWords(Instrs(a)) + StreamWords(Instrs(b))
  {
    InstrsJoin(a, b);
    StreamJoins(Instrs(a), Instrs(b));
    Rejoin(header, StreamWords(Instrs(a)), StreamWords(Instrs(b)));
  }

  lemma Rejoin(a: seq<nat>, b: seq<nat>, c: seq<nat>)
    ensures a + (b + c) == a + b + c
  {
  }

  /** The state of the pass without its output. */
  datatype Maps = Maps(pointers: map<nat, nat>, loads: map<nat, nat>, inserted: bool)

  function MapsOf(pass: Pass): Maps { Maps(pass.pointers, pass.loads, pass.inserted) }

  /** Appends what one more instruction becomes, with its patches. */
  method TakeStep(plan: VertexPlan, maps: Maps, i: Instr, words: seq<nat>, patches: seq<Patch>, ghost header: seq<nat>,
                  ghost pass: Pass, ghost rest: seq<Instr>)
    returns (now: Maps, words': seq<nat>, patches': seq<Patch>, ghost next: Pass)
    requires maps == MapsOf(pass) && Written(header, pass, words, patches)
    ensures now == MapsOf(next) && Written(header, next, words', patches')
            && Rewrite(plan, pass, [i] + rest) == Rewrite(plan, next, rest)
  {
    var part := Step(plan, Pass([], maps.pointers, maps.loads, maps.inserted), i);
    StepAppends(plan, pass, i);
    WriteMore(header, pass, part, words, patches);
    next := Step(plan, pass, i);
    assert ([i] + rest)[1..] == rest;
    now, words', patches' := MapsOf(part), words + StreamWords(Instrs(part.out)), patches + Patches(part.out, |words|);
  }

  /** What is left of the words, rewritten from here, gives the whole pass. */
  ghost predicate Reaches(plan: VertexPlan, pass: Pass, words: seq<nat>, cursor: nat, whole: Pass) {
    cursor <= |words| && Parse(words[cursor..]).Some? && whole == Rewrite(plan, pass, Parse(words[cursor..]).value)
  }

  lemma ReachesEnd(plan: VertexPlan, pass: Pass, words: seq<nat>, whole: Pass)
    requires Reaches(plan, pass, words, |words|, whole)
    ensures whole == pass
  {
    assert words[|words|..] == [];
  }

  /** Takes the instruction at the cursor and moves past it. */
  method TakeNext(plan: VertexPlan, maps: Maps, words: seq<nat>, cursor: nat, result: seq<nat>, patches: seq<Patch>,
                  ghost header: seq<nat>, ghost pass: Pass, ghost whole: Pass)
    returns (next: nat, now: Maps, result': seq<nat>, patches': seq<Patch>, ghost after: Pass)
    requires cursor < |words| && maps == MapsOf(pass) && Written(header, pass, result, patches)
             && Reaches(plan, pass, words, cursor, whole)
    ensures cursor < next && now == MapsOf(after) && Written(header, after, result', patches')
            && Reaches(plan, after, words, next, whole)
  {
    ParseFrom(words, cursor);
    next := cursor + words[cursor] / HALF;
    now, result', patches', after := TakeStep(plan, maps, At(words, cursor), result, patches, header, pass,
                                              Parse(words[next..]).value);
  }

  method WriteModule(words: seq<nat>, plan: VertexPlan, inputs: map<nat, nat>, bound: nat)
    returns (inserted: bool, m: Module)
    requires |words| >= HEADER && Parse(words[HEADER..]).Some?
    ensures var pass := Rewrite(plan, Pass([], inputs, map[], false), Parse(words[HEADER..]).value);
            inserted == pass.inserted && Written(words[..HEADER][3 := bound], pass, m.words, m.patches)
  {
    var result: seq<nat>, patches, maps := words[..HEADER][3 := bound], [], Maps(inputs, map[], false);
    var cursor := HEADER;
    ghost var header := result;
    ghost var pass := Pass([], inputs, map[], false);
    ghost var whole := Rewrite(plan, pass, Parse(words[HEADER..]).value);
    while cursor < |words|
      invariant Reaches(plan, pass, words, cursor, whole) && Written(header, pass, result, patches)
                && maps == MapsOf(pass)
      decreases |words| - cursor
    {
      cursor, maps, result, patches, pass := TakeNext(plan, maps, words, cursor, result, patches, header, pass, whole);
    }
    ReachesEnd(plan, pass, words, whole);
    inserted, m := maps.inserted, Module(result, patches);
  }

  method PrepareVertexInputs(words: seq<nat>, inputs: seq<Input>) returns (m: Option<Module>)
    ensures m == Prepare(words, inputs)
  {
    if |words| < HEADER || words[0] != MAGIC { return None; }
    var components := ReadComponents(inputs);
    if components.None? { return None; }
    var info := ScanModule(words);
    if info.None? { return None; }
    var scalars := DeclareScalars(Declared(info.value.types, words[3], []));
    if scalars.NoScalars? || |scalars.types| != 3 { return None; }
    var found := FindInputs(words, info.value, components.value, scalars.types, Found(scalars.d, map[], map[], []));
    if found.NotFound? || |found.variables| != |inputs| { return None; }
    var inserted, written := WriteModule(words, PlanOf(scalars, components.value, found), found.pointers,
                                         found.d.bound);
    if !inserted || exists p <- written.patches :: p.word > MAX_ID { return None; }
    m := Some(written);
  }
}
