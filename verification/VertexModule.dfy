/** What the preparation of a vertex module promises of every specialization of it. */
module VertexModule {
  import opened Wrappers
  import opened Spirv
  import opened FragmentPlan
  import opened VertexInputs
  import opened VertexPreparation
  import opened VertexReads
  import opened VertexTypes
  import opened VertexTyping

  // ----- The parts of the prepared module

  /** The instructions that stay where they are: all but the input variables. */
  function Staying(ids: set<nat>, instrs: seq<Instr>): seq<Instr>
    decreases |instrs|
  {
    if instrs == [] then []
    else
      (if instrs[0].op == OpVariable && Count(instrs[0]) >= 3 && Operand(instrs[0], 2) in ids then []
       else [instrs[0]]) + Staying(ids, instrs[1..])
  }

  lemma {:induction false} KeptStays(plan: VertexPlan, r: Reads, instrs: seq<Instr>)
    ensures Instrs(KeptAll(plan, r, instrs)) == Staying(plan.choices.Keys, instrs)
    decreases |instrs|
  {
    if instrs != [] {
      var i, rest := instrs[0], KeptAll(plan, After(r, instrs[0]), instrs[1..]);
      KeptStays(plan, After(r, i), instrs[1..]);
      if Moves(plan, i) {
        assert [] + rest == rest;
      } else {
        assert ([Prepared(i, SlotOf(plan, r, i))] + rest)[1..] == rest;
      }
    }
  }

  lemma {:induction false} PlainInstrs(instrs: seq<Instr>)
    ensures Instrs(PlainAll(instrs)) == instrs
    decreases |instrs|
  {
    if instrs != [] {
      PlainInstrs(instrs[1..]);
      assert PlainAll(instrs)[1..] == PlainAll(instrs[1..]) && instrs == [instrs[0]] + instrs[1..];
    }
  }

  lemma {:induction false} VariableInstrs(plan: VertexPlan, inputs: map<nat, nat>, variables: seq<Instr>)
    requires forall i <- variables :: Operand(i, 2) in plan.choices && Operand(i, 2) in inputs
                                      && inputs[Operand(i, 2)] in plan.components
    ensures Instrs(InputVariables(plan, inputs, variables)) == variables
    decreases |variables|
  {
    if variables != [] {
      assert variables[0] in variables;
      VariableInstrs(plan, inputs, variables[1..]);
      var all := InputVariables(plan, inputs, variables);
      assert all[1..] == InputVariables(plan, inputs, variables[1..]) && variables == [variables[0]] + variables[1..];
    }
  }

  /** The prepared instructions: everything as it was, but new types and then the input variables before the first
      function. */
  function PreparedOf(ids: set<nat>, instrs: seq<Instr>, added: seq<Instr>, variables: seq<Instr>): seq<Instr> {
    var f := FirstFunction(instrs);
    Staying(ids, instrs[..f]) + (added + (variables + Staying(ids, instrs[f..])))
  }

  lemma PartsInstrs(plan: VertexPlan, inputs: map<nat, nat>, instrs: seq<Instr>)
    requires VariablesKnown(plan, inputs)
    ensures Instrs(All(PartsOf(plan, inputs, instrs))) ==
            PreparedOf(plan.choices.Keys, instrs, plan.declarations, plan.variables)
  {
    var ps, f, r := PartsOf(plan, inputs, instrs), FirstFunction(instrs), Reads(inputs, map[]);
    KeptStays(plan, r, instrs[..f]);
    KeptStays(plan, r, instrs[f..]);
    PlainInstrs(plan.declarations);
    VariableInstrs(plan, inputs, plan.variables);
    InstrsJoin(ps.variables, ps.functions);
    InstrsJoin(ps.declared, ps.variables + ps.functions);
    InstrsJoin(ps.front, ps.declared + (ps.variables + ps.functions));
  }

  // ----- Everything fits

  lemma {:induction false} StayingFits(ids: set<nat>, instrs: seq<Instr>)
    requires AllFit(instrs)
    ensures AllFit(Staying(ids, instrs))
    decreases |instrs|
  {
    if instrs != [] {
      assert Fits(instrs[0]);
      StayingFits(ids, instrs[1..]);
    }
  }

  lemma PreparedFits(ids: set<nat>, instrs: seq<Instr>, added: seq<Instr>, variables: seq<Instr>)
    requires AllFit(instrs) && AllTypes(added) && forall i <- variables :: i in instrs
    ensures AllFit(PreparedOf(ids, instrs, added, variables))
  {
    var f := FirstFunction(instrs);
    forall i <- instrs[..f] ensures Fits(i) { assert i in instrs; }
    forall i <- instrs[f..] ensures Fits(i) { assert i in instrs; }
    StayingFits(ids, instrs[..f]);
    StayingFits(ids, instrs[f..]);
    forall i <- variables ensures Fits(i) { assert i in instrs; }
  }

  lemma ChosenFits(ps: seq<Prepared>, classes: seq<nat>)
    requires AllFit(Instrs(ps)) && forall p <- ps :: Choosable(p, classes) && Mild(p)
    ensures AllFit(ChosenAll(ps, classes))
  {
    var code := ChosenAll(ps, classes);
    forall i <- code ensures Fits(i) {
      var k :| 0 <= k < |code| && code[k] == i;
      InstrsAt(ps, k);
      assert Instrs(ps)[k] in Instrs(ps) && ps[k] in ps;
      ChosenMild(ps[k], classes);
    }
  }

  // ----- Locations and classes

  lemma {:induction false} ComponentsFrom(inputs: seq<Input>, known: map<nat, nat>, location: nat)
    requires Components(inputs, known).Some? && location in Components(inputs, known).value
    ensures location in known || exists x <- inputs :: x.location == location
    decreases |inputs|
  {
    if inputs != [] {
      var i := inputs[0];
      ComponentsFrom(inputs[1..], known[i.location := i.components], location);
      if location !in known {
        if location == i.location { assert i in inputs; } else {
          var x :| x in inputs[1..] && x.location == location;
          assert x in inputs;
        }
      }
    }
  }

  /** A class for every input. */
  ghost predicate ClassesFor(inputs: seq<Input>, classes: seq<nat>) {
    forall x <- inputs :: x.location < |classes| && classes[x.location] < CLASSES
  }

  // ----- What the preparation works with

  /** What a preparation that succeeds has found and planned. */
  datatype Work = Work(instrs: seq<Instr>, info: Info, components: map<nat, nat>, d: Declared, plan: VertexPlan,
                       locations: map<nat, nat>)

  function WorkOf(words: seq<nat>, inputs: seq<Input>): Work
    requires Prepare(words, inputs).Some?
  {
    var components, instrs := Components(inputs).value, Parse(words[HEADER..]).value;
    var info := ScanAll(instrs);
    var scalars := DeclareScalars(Declared(info.types, words[3], []));
    var f := Find(info, components, scalars.types, Found(scalars.d, map[], map[], []), instrs);
    Work(instrs, info, components, f.d, PlanOf(scalars, components, f), f.pointers)
  }

  lemma WorkSettled(words: seq<nat>, inputs: seq<Input>)
    requires Prepare(words, inputs).Some?
    ensures var w := WorkOf(words, inputs);
            && Setting(w.d, w.plan, w.info, w.components, w.instrs, words[3])
            && w.locations == Locations(w.info, w.plan.variables)
            && (forall id <- w.plan.choices :: |w.plan.choices[id]| == 3)
  {
    var components, instrs := Components(inputs).value, Parse(words[HEADER..]).value;
    var info := ScanAll(instrs);
    var start := Declared(info.types, words[3], []);
    var scalars := DeclareScalars(start);
    ScalarsNamed(start);
    ScalarsAccounted(info.types, words[3], start);
    var f0 := Found(scalars.d, map[], map[], []);
    var f := Find(info, components, scalars.types, f0, instrs);
    var variables := InputsOf(info, components, instrs);
    InputsAre(info, components, instrs);
    assert IdsOf([]) == {} && Locations(info, []) == map[];
    assert [] + variables == variables;
    FindSo(info, components, scalars.types, words[3], f0, [], instrs, f, variables);
    FindTyped(info, components, scalars.types, f0, instrs);
    PlanIsTyped(info, components, scalars, f0, f);
    ChoicesSized(info, components, scalars.types, f);
  }

  lemma ChoicesSized(info: Info, components: map<nat, nat>, types: seq<nat>, f: Found)
    requires FoundTyped(info, components, types, f) && f.choices.Keys == IdsOf(f.variables)
             && forall i <- f.variables :: IsInput(info, components, i)
    ensures forall id <- f.choices :: |f.choices[id]| == 3
  {
    forall id <- f.choices ensures |f.choices[id]| == 3 {
      assert id in IdsOf(f.variables);
      var i :| i in f.variables && Operand(i, 2) == id;
      assert Pointers(f.d, types, f.choices[id], components[info.locations[id]]);
    }
  }

  function OutOf(w: Work): seq<Prepared> { All(PartsOf(w.plan, w.locations, w.instrs)) }

  /** The prepared module is made of those parts. */
  lemma PreparedIs(words: seq<nat>, inputs: seq<Input>)
    requires Prepare(words, inputs).Some? && LaidOut(Parse(words[HEADER..]).value)
    ensures var w, m := WorkOf(words, inputs), Prepare(words, inputs).value;
            && m.words == words[..HEADER][3 := w.d.bound] + StreamWords(Instrs(OutOf(w)))
            && m.patches == Patches(OutOf(w), HEADER)
            && forall p <- m.patches :: p.word <= MAX_ID
  {
    var w := WorkOf(words, inputs);
    RewriteShape(w.plan, Pass([], w.locations, map[], false), w.instrs);
    AssembledParts(w.plan, w.locations, w.instrs);
    assert [] + Assembled(w.plan, Reads(w.locations, map[]), w.instrs) ==
        Assembled(w.plan, Reads(w.locations, map[]), w.instrs);
  }

  lemma WorkClassified(words: seq<nat>, inputs: seq<Input>, classes: seq<nat>)
    requires Prepare(words, inputs).Some? && ClassesFor(inputs, classes)
    ensures Classified(WorkOf(words, inputs).locations, classes)
  {
    var w := WorkOf(words, inputs);
    WorkSettled(words, inputs);
    VariablesSettled(w.d, w.plan, w.info, w.components, w.instrs, words[3]);
    forall id <- w.locations ensures w.locations[id] < |classes| && classes[w.locations[id]] < CLASSES {
      ComponentsFrom(inputs, map[], w.locations[id]);
    }
  }

  lemma WorkFits(words: seq<nat>, inputs: seq<Input>)
    requires Prepare(words, inputs).Some? && Words32(words)
    ensures var w := WorkOf(words, inputs);
            && Instrs(OutOf(w)) == PreparedOf(w.plan.choices.Keys, w.instrs, w.d.added, w.plan.variables)
            && AllFit(Instrs(OutOf(w)))
  {
    var w := WorkOf(words, inputs);
    WorkSettled(words, inputs);
    VariablesSettled(w.d, w.plan, w.info, w.components, w.instrs, words[3]);
    PartsInstrs(w.plan, w.locations, w.instrs);
    forall x <- words[HEADER..] ensures x < WORD { assert x in words; }
    StreamParse(words[HEADER..]);
    PreparedFits(w.plan.choices.Keys, w.instrs, w.d.added, w.plan.variables);
  }

  // ----- The theorem

  /** Patches lie in the module behind its header and rise strictly, so they hit pairwise different words. */
  ghost predicate PatchesApart(m: Module) {
    && (forall j :: 0 <= j < |m.patches| ==> HEADER <= m.patches[j].word < |m.words|)
    && forall j, k :: 0 <= j < k < |m.patches| ==> m.patches[j].word < m.patches[k].word
  }

  lemma ApartPatches(header: seq<nat>, out: seq<Prepared>, m: Module, classes: seq<nat>)
    requires |header| == HEADER && m.words == header + StreamWords(Instrs(out)) && m.patches == Patches(out, HEADER)
    requires forall p <- out :: Choosable(p, classes)
    ensures PatchesApart(m)
  {
    forall p <- out ensures p.slot.Some? ==> p.slot.value.word < Count(p.instr) {}
    forall j | 0 <= j < |m.patches| ensures HEADER <= m.patches[j].word < |m.words| { PatchesAhead(out, HEADER, j); }
    forall j, k | 0 <= j < k < |m.patches| ensures m.patches[j].word < m.patches[k].word {
      PatchesRise(out, HEADER, j, k);
    }
  }

  /** The module holds the instructions of the original, with new types under the ids from the old bound on and then its
      input variables before the first function; its patches hit pairwise different words inside it. */
  ghost predicate PreparedFrom(words: seq<nat>, instrs: seq<Instr>, variables: seq<Instr>, m: Module,
                               prepared: seq<Instr>, added: seq<Instr>)
    requires |words| >= HEADER && |m.words| >= HEADER
  {
    && Parse(m.words[HEADER..]) == Some(prepared) && prepared == PreparedOf(IdsOf(variables), instrs, added, variables)
    && AllTypes(added) && Numbered(added, words[3]) && m.words[..HEADER] == words[..HEADER][3 := words[3] + |added|]
    && PatchesApart(m) && forall p <- m.patches :: p.word <= MAX_ID
  }

  /** Patching gives a stream of as many instructions with the same boundaries, and every read of an input is typed by
      the class of its location. */
  ghost predicate SpecializedTo(m: Module, locations: map<nat, nat>, components: map<nat, nat>, prepared: seq<Instr>,
                                code: seq<Instr>, types: seq<nat>, classes: seq<nat>)
    requires |m.words| >= HEADER
  {
    && Apply(m.words, m.patches, classes) == Some(m.words[..HEADER] + StreamWords(code))
    && Parse(StreamWords(code)) == Some(code)
    && |code| == |prepared| && (forall k :: 0 <= k < |code| ==> Count(code[k]) == Count(prepared[k]))
    && forall k :: 0 <= k < |code| ==> ReadTyped(locations, components, prepared, code, k, types, classes)
  }

  lemma WorkPrepared(words: seq<nat>, inputs: seq<Input>, classes: seq<nat>)
    requires Prepare(words, inputs).Some? && Words32(words) && LaidOut(Parse(words[HEADER..]).value)
             && ClassesFor(inputs, classes)
    ensures var w, m := WorkOf(words, inputs), Prepare(words, inputs).value;
            && |m.words| >= HEADER && PreparedFrom(words, w.instrs, w.plan.variables, m, Instrs(OutOf(w)), w.d.added)
            && (forall p <- OutOf(w) :: Choosable(p, classes))
            && SpecializedTo(m, w.locations, w.components, Instrs(OutOf(w)), ChosenAll(OutOf(w), classes), w.plan.types,
                             classes)
  {
    WorkSettled(words, inputs);
    PreparedIs(words, inputs);
    WorkClassified(words, inputs, classes);
    WorkFits(words, inputs);
    GivenWork(WorkOf(words, inputs), words, Prepare(words, inputs).value, classes);
  }

  lemma GivenWork(w: Work, words: seq<nat>, m: Module, classes: seq<nat>)
    requires |words| >= HEADER && Setting(w.d, w.plan, w.info, w.components, w.instrs, words[3])
             && w.locations == Locations(w.info, w.plan.variables)
    requires LaidOut(w.instrs) && Classified(w.locations, classes)
             && forall id <- w.plan.choices :: |w.plan.choices[id]| == 3
    requires Instrs(OutOf(w)) == PreparedOf(w.plan.choices.Keys, w.instrs, w.d.added, w.plan.variables)
             && AllFit(Instrs(OutOf(w)))
    requires m.words == words[..HEADER][3 := w.d.bound] + StreamWords(Instrs(OutOf(w)))
             && m.patches == Patches(OutOf(w), HEADER)
    requires forall p <- m.patches :: p.word <= MAX_ID
    ensures |m.words| >= HEADER && PreparedFrom(words, w.instrs, w.plan.variables, m, Instrs(OutOf(w)), w.d.added)
    ensures forall p <- OutOf(w) :: Choosable(p, classes)
    ensures SpecializedTo(m, w.locations, w.components, Instrs(OutOf(w)), ChosenAll(OutOf(w), classes), w.plan.types,
                          classes)
  {
    CodeTyped(w.d, w.plan, w.info, w.components, w.instrs, words[3], classes);
    StreamSpecialized(words[..HEADER][3 := w.d.bound], OutOf(w), m, w.locations, w.components, w.plan.types, classes);
    StreamPrepared(w.d, words, OutOf(w), m, w.instrs, w.plan.variables);
  }

  lemma StreamSpecialized(header: seq<nat>, out: seq<Prepared>, m: Module, locations: map<nat, nat>,
                          components: map<nat, nat>, types: seq<nat>, classes: seq<nat>)
    requires |header| == HEADER && m.words == header + StreamWords(Instrs(out)) && m.patches == Patches(out, HEADER)
    requires AllFit(Instrs(out)) && forall p <- out :: Choosable(p, classes) && Mild(p)
    requires forall k :: 0 <= k < |out| ==>
             ReadTyped(locations, components, Instrs(out), ChosenAll(out, classes), k, types, classes)
    ensures |m.words| >= HEADER && SpecializedTo(m, locations, components, Instrs(out), ChosenAll(out, classes), types,
                                                 classes)
    ensures m.words[..HEADER] == header && Parse(m.words[HEADER..]) == Some(Instrs(out)) && PatchesApart(m)
  {
    SpecializedStream(header, out, m, classes);
  }

  lemma StreamPrepared(d: Declared, words: seq<nat>, out: seq<Prepared>, m: Module, instrs: seq<Instr>,
                       variables: seq<Instr>)
    requires |words| >= HEADER && |m.words| >= HEADER && m.words[..HEADER] == words[..HEADER][3 := d.bound]
             && Parse(m.words[HEADER..]) == Some(Instrs(out))
    requires d.bound == words[3] + |d.added| && AllTypes(d.added) && Numbered(d.added, words[3]) && PatchesApart(m)
    requires Instrs(out) == PreparedOf(IdsOf(variables), instrs, d.added, variables)
             && forall p <- m.patches :: p.word <= MAX_ID
    ensures PreparedFrom(words, instrs, variables, m, Instrs(out), d.added)
  {
  }

  /** For every class of every input, a prepared module specializes to a well-formed stream with the same instruction
      boundaries in which every input variable, every one-index access chain into an input, every load and every cast of
      a loaded value is typed by the class of the location its input is decorated with, by types that stand before
      it. */
  lemma PreparedSpecializes(words: seq<nat>, inputs: seq<Input>, classes: seq<nat>)
    returns (prepared: seq<Instr>, code: seq<Instr>, added: seq<Instr>, types: seq<nat>)
    requires Prepare(words, inputs).Some? && Words32(words) && LaidOut(Parse(words[HEADER..]).value)
             && ClassesFor(inputs, classes)
    ensures var m, instrs, components := Prepare(words, inputs).value, Parse(words[HEADER..]).value,
            Components(inputs).value;
            var info := ScanAll(instrs);
            var variables := InputsOf(info, components, instrs);
            && (forall i <- variables :: Operand(i, 2) in info.locations)
            && |m.words| >= HEADER && PreparedFrom(words, instrs, variables, m, prepared, added)
            && SpecializedTo(m, Locations(info, variables), components, prepared, code, types, classes)
  {
    var w := WorkOf(words, inputs);
    WorkSettled(words, inputs);
    WorkPrepared(words, inputs, classes);
    prepared, code, added, types := Instrs(OutOf(w)), ChosenAll(OutOf(w), classes), w.d.added, w.plan.types;
  }

  /** The stream of a module, and what patching it gives. */
  lemma SpecializedStream(header: seq<nat>, out: seq<Prepared>, m: Module, classes: seq<nat>)
    requires |header| == HEADER && m.words == header + StreamWords(Instrs(out)) && m.patches == Patches(out, HEADER)
    requires AllFit(Instrs(out)) && forall p <- out :: Choosable(p, classes) && Mild(p)
    ensures m.words[..HEADER] == header && Parse(m.words[HEADER..]) == Some(Instrs(out)) && PatchesApart(m)
    ensures var code := ChosenAll(out, classes);
            && Apply(m.words, m.patches, classes) == Some(m.words[..HEADER] + StreamWords(code))
            && Parse(StreamWords(code)) == Some(code)
            && |code| == |Instrs(out)| && forall k :: 0 <= k < |code| ==> Count(code[k]) == Count(Instrs(out)[k])
  {
    HeaderThen(header, StreamWords(Instrs(out)));
    ParseStream(Instrs(out));
    ChosenFits(out, classes);
    ParseStream(ChosenAll(out, classes));
    ApartPatches(header, out, m, classes);
    ApplyChooses(header, out, classes);
    SameCounts(out, classes);
  }

  lemma HeaderThen(header: seq<nat>, rest: seq<nat>)
    requires |header| == HEADER
    ensures (header + rest)[..HEADER] == header && (header + rest)[HEADER..] == rest
  {
  }

  lemma SameCounts(out: seq<Prepared>, classes: seq<nat>)
    requires forall p <- out :: Choosable(p, classes)
    ensures forall k :: 0 <= k < |out| ==> Count(ChosenAll(out, classes)[k]) == Count(Instrs(out)[k])
  {
    forall k | 0 <= k < |out| ensures Count(ChosenAll(out, classes)[k]) == Count(Instrs(out)[k]) { InstrsAt(out, k); }
  }
}
