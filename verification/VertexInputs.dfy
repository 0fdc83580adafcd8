/** Preparing a vertex module so that the numeric class of each input, float, signed or unsigned, can be chosen later by
patching words in place. */
module VertexInputs {
  import opened Wrappers
  import opened Spirv
  const OpBitcastHead: nat := 4 * HALF + OpBitcast
  const OpCopyHead: nat := 4 * HALF + OpCopyObject
  const StorageClassInput: nat := 1
  const MAX_RESOURCES: nat := 32
  const CLASSES: nat := 3

  /** What a patched instruction is to its input. */
  datatype Role = Variable(components: nat) | Chain | Load | Cast

  /** A word of an instruction, counted from its first, that depends on the class of a location. */
  datatype Slot = Slot(location: nat, word: nat, values: seq<nat>, role: Role)

  datatype Prepared = Prepared(instr: Instr, slot: Option<Slot>)

  datatype Patch = Patch(location: nat, word: nat, values: seq<nat>)

  // ----- Patching words

  function Instrs(ps: seq<Prepared>): (instrs: seq<Instr>)
    ensures |instrs| == |ps|
  {
    if ps == [] then [] else [ps[0].instr] + Instrs(ps[1..])
  }

  lemma {:induction false} InstrsJoin(a: seq<Prepared>, b: seq<Prepared>)
    ensures Instrs(a + b) == Instrs(a) + Instrs(b)
  {
    if a == [] {
      assert a + b == b;
    } else {
      assert (a + b)[1..] == a[1..] + b;
      InstrsJoin(a[1..], b);
    }
  }

  /** The patches of a stream that starts at word `at`. */
  function Patches(ps: seq<Prepared>, at: nat): seq<Patch> {
    if ps == [] then []
    else
      (if ps[0].slot.Some? then [Patch(ps[0].slot.value.location, at + ps[0].slot.value.word, ps[0].slot.value.values)]
       else [])
      + Patches(ps[1..], at + Count(ps[0].instr))
  }

  predicate ValidPatch(p: Patch, classes: seq<nat>, words: nat) {
    p.location < |classes| && classes[p.location] < |p.values| && p.word < words
  }

  /** None where a patch is invalid. */
  function Apply(words: seq<nat>, patches: seq<Patch>, classes: seq<nat>): Option<seq<nat>>
    decreases |patches|
  {
    if patches == [] then Some(words)
    else if !ValidPatch(patches[0], classes, |words|) then None
    else Apply(words[patches[0].word := patches[0].values[classes[patches[0].location]]], patches[1..], classes)
  }

  method SpecializeVertexInputTypes(words: seq<nat>, patches: seq<Patch>, classes: seq<nat>)
    returns (result: Option<seq<nat>>)
    ensures result == Apply(words, patches, classes)
  {
    var now: seq<nat> := words;
    for k := 0 to |patches|
      invariant |now| == |words| && Apply(now, patches[k..], classes) == Apply(words, patches, classes)
    {
      var p := patches[k];
      assert patches[k..][1..] == patches[k + 1..];
      if !ValidPatch(p, classes, |now|) { return None; }
      now := now[p.word := p.values[classes[p.location]]];
    }
    result := Some(now);
  }

  /** The instruction under given classes: another head word, or another first operand. */
  function Chosen(p: Prepared, classes: seq<nat>): Instr
    requires Choosable(p, classes)
  {
    if p.slot.None? then p.instr
    else
      var s := p.slot.value;
      if s.word == 0 then Instr(s.values[classes[s.location]] % HALF, p.instr.operands)
      else Instr(p.instr.op, p.instr.operands[0 := s.values[classes[s.location]]])
  }

  /** The slot lies in the instruction, has a value for the class, and a new head word keeps the word count. */
  ghost predicate Choosable(p: Prepared, classes: seq<nat>) {
    p.slot.Some? ==>
      var s := p.slot.value;
      && s.location < |classes| && classes[s.location] < |s.values| && s.word <= 1 && Fits(p.instr)
      && (s.word == 1 ==> p.instr.operands != [])
      && (s.word == 0 ==> forall v <- s.values :: v / HALF == Count(p.instr) && v < WORD)
  }

  function ChosenAll(ps: seq<Prepared>, classes: seq<nat>): (instrs: seq<Instr>)
    requires forall p <- ps :: Choosable(p, classes)
    ensures |instrs| == |ps| && forall k :: 0 <= k < |ps| ==> instrs[k] == Chosen(ps[k], classes)
                                                              && Count(instrs[k]) == Count(ps[k].instr)
  {
    if ps == [] then [] else [Chosen(ps[0], classes)] + ChosenAll(ps[1..], classes)
  }

  lemma ChosenWords(p: Prepared, classes: seq<nat>)
    requires p.slot.Some? && Choosable(p, classes)
    ensures var s := p.slot.value;
            s.word < Count(p.instr) && InstrWords(Chosen(p, classes)) ==
                InstrWords(p.instr)[s.word := s.values[classes[s.location]]]
  {
    var s := p.slot.value;
    if s.word == 0 {
      var v := s.values[classes[s.location]];
      assert v in s.values;
      assert HeadWord(Chosen(p, classes)) == (v / HALF * HALF + v % HALF) % WORD == v;
    }
  }

  lemma {:induction false} PatchesAhead(ps: seq<Prepared>, at: nat, k: nat)
    requires k < |Patches(ps, at)| && forall p <- ps :: p.slot.Some? ==> p.slot.value.word < Count(p.instr)
    ensures at <= Patches(ps, at)[k].word < at + |StreamWords(Instrs(ps))|
    decreases |ps|
  {
    if ps != [] {
      var first := if ps[0].slot.Some? then 1 else 0;
      assert ps[0] in ps;
      assert Instrs(ps)[1..] == Instrs(ps[1..]);
      if k >= first { PatchesAhead(ps[1..], at + Count(ps[0].instr), k - first); }
    }
  }

  /** Patches are in range and rise strictly, so no word is patched twice. */
  lemma {:induction false} PatchesRise(ps: seq<Prepared>, at: nat, j: nat, k: nat)
    requires j < k < |Patches(ps, at)| && forall p <- ps :: p.slot.Some? ==> p.slot.value.word < Count(p.instr)
    ensures Patches(ps, at)[j].word < Patches(ps, at)[k].word
    decreases |ps|
  {
    var first := if ps[0].slot.Some? then 1 else 0;
    assert ps[0] in ps;
    if j >= first {
      PatchesRise(ps[1..], at + Count(ps[0].instr), j - first, k - first);
    } else {
      PatchesAhead(ps[1..], at + Count(ps[0].instr), k - first);
    }
  }

  lemma UpdateBetween(a: seq<nat>, b: seq<nat>, c: seq<nat>, k: nat, v: nat)
    requires k < |b|
    ensures (a + b + c)[|a| + k := v] == a + b[k := v] + c
  {
  }

  lemma StreamFirst(i: Instr, rest: seq<Instr>)
    ensures StreamWords([i] + rest) == InstrWords(i) + StreamWords(rest)
  {
    assert ([i] + rest)[1..] == rest;
  }

  /** One prepared instruction and its patch, if it has one. */
  lemma FirstChooses(before: seq<nat>, p: Prepared, tail: seq<nat>, patches: seq<Patch>, classes: seq<nat>)
    requires Choosable(p, classes)
    ensures Apply(before + InstrWords(p.instr) + tail, Patches([p], |before|) + patches, classes)
         == Apply(before + InstrWords(Chosen(p, classes)) + tail, patches, classes)
  {
    assert [p][1..] == [];
    if p.slot.Some? {
      var s := p.slot.value;
      ChosenWords(p, classes);
      UpdateBetween(before, InstrWords(p.instr), tail, s.word, s.values[classes[s.location]]);
      var patch := Patch(s.location, |before| + s.word, s.values);
      assert Patches([p], |before|) + patches == [patch] + patches && ([patch] + patches)[1..] == patches;
    } else {
      assert Patches([p], |before|) + patches == patches;
    }
  }

  /** Patching the words of a stream chooses its instructions: same boundaries, the words of each location by its
      class. */
  lemma {:induction false} ApplyChooses(before: seq<nat>, ps: seq<Prepared>, classes: seq<nat>)
    requires forall p <- ps :: Choosable(p, classes)
    ensures Apply(before + StreamWords(Instrs(ps)), Patches(ps, |before|), classes) ==
            Some(before + StreamWords(ChosenAll(ps, classes)))
    decreases |ps|
  {
    if ps != [] {
      var p, rest := ps[0], ps[1..];
      assert p in ps && ps == [p] + rest;
      ApplyChooses(before + InstrWords(Chosen(p, classes)), rest, classes);
      ApplyFirst(before, p, rest, StreamWords(Instrs(rest)), StreamWords(ChosenAll(rest, classes)), classes);
      StreamFirst(p.instr, Instrs(rest));
      StreamFirst(Chosen(p, classes), ChosenAll(rest, classes));
    }
  }

  /** One instruction more in front of instructions that are chosen already. */
  lemma ApplyFirst(before: seq<nat>, p: Prepared, rest: seq<Prepared>, tail: seq<nat>, chosen: seq<nat>,
                   classes: seq<nat>)
    requires Choosable(p, classes)
    requires var now := before + InstrWords(Chosen(p, classes));
             Apply(now + tail, Patches(rest, |now|), classes) == Some(now + chosen)
    ensures Apply(before + (InstrWords(p.instr) + tail), Patches([p] + rest, |before|), classes) ==
            Some(before + (InstrWords(Chosen(p, classes)) + chosen))
  {
    var now := before + InstrWords(Chosen(p, classes));
    FirstChooses(before, p, tail, Patches(rest, |now|), classes);
    PatchesFirst(p, rest, |before|);
    SameCount(p, classes);
    Regroup(before, InstrWords(p.instr), tail);
    Regroup(before, InstrWords(Chosen(p, classes)), chosen);
  }

  lemma SameCount(p: Prepared, classes: seq<nat>)
    requires Choosable(p, classes)
    ensures |InstrWords(Chosen(p, classes))| == Count(p.instr)
  {
  }

  lemma Regroup(a: seq<nat>, b: seq<nat>, c: seq<nat>)
    ensures a + (b + c) == a + b + c
  {
  }

  lemma PatchesFirst(p: Prepared, rest: seq<Prepared>, at: nat)
    ensures Patches([p] + rest, at) == Patches([p], at) + Patches(rest, at + Count(p.instr))
  {
    assert ([p] + rest)[1..] == rest && [p][1..] == [];
  }
}
