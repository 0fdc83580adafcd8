/** A module that is specialized to words that are no stream: its entry point has no room for one more interface id. */
module FragmentFull {
  import opened Wrappers
  import opened Spirv
  import opened FragmentPlan
  import opened FragmentOutputs
  import opened FragmentModule

  const CROWD: nat := 65534

  function Crowded(): Instr { Instr(OpEntryPoint, seq(CROWD, k => 4)) }
  function Place(): Instr { Instr(OpDecorate, [4, DecorationLocation, 0]) }
  function Float(): Instr { Instr(OpTypeFloat, [1, 32]) }
  function Vector(): Instr { Instr(OpTypeVector, [2, 1, 4]) }
  function Pointer(): Instr { Instr(OpTypePointer, [3, StorageClassOutput, 2]) }
  function Variable(): Instr { Instr(OpVariable, [3, 4, StorageClassOutput]) }
  function Function(): Instr { Instr(OpFunction, [5, 6, 0, 7]) }

  /** One float4 output at location 0, named often enough to fill the entry point. */
  function FullModule(): (instrs: seq<Instr>)
    ensures |instrs| == 7
  {
    [Crowded(), Place(), Float(), Vector(), Pointer(), Variable(), Function()]
  }

  function FullWords(): seq<nat> { [MAGIC, 0, 0, 9, 0] + StreamWords(FullModule()) }

  /** Blending in reversed order, every component its own. */
  function Reversed(): seq<Constant> { [Constant(REVERSED_BLEND, 1)] }

  function FloatKey(): seq<nat> { [OpTypeFloat, 32] }
  function VectorKey(): seq<nat> { [OpTypeVector, 1, 4] }
  function PointerKey(): seq<nat> { [OpTypePointer, StorageClassOutput, 2] }

  function FullInfo(): Info {
    Info(map[4 := 0], {}, map[1 := FloatKey(), 2 := VectorKey(), 3 := PointerKey()],
         map[FloatKey() := 1, VectorKey() := 2, PointerKey() := 3], map[4 := 3])
  }

  function Nothing(): Info { Info(map[], {}, map[], map[], map[]) }
  function Placed(): Info { Info(map[4 := 0], {}, map[], map[], map[]) }
  function WithFloat(): Info { Info(map[4 := 0], {}, map[1 := FloatKey()], map[FloatKey() := 1], map[]) }
  function WithVector(): Info {
    Info(map[4 := 0], {}, map[1 := FloatKey(), 2 := VectorKey()], map[FloatKey() := 1, VectorKey() := 2], map[])
  }
  function WithPointer(): Info { FullInfo().(outputs := map[]) }

  lemma {:induction false} ScanSteps(instrs: seq<Instr>, infos: seq<Info>)
    requires |infos| == |instrs| + 1 && forall k :: 0 <= k < |instrs| ==> infos[k + 1] == Scan(infos[k], instrs[k])
    ensures ScanAll(instrs, infos[0]) == infos[|instrs|]
    decreases |instrs|
  {
    if instrs != [] {
      forall k | 0 <= k < |instrs| - 1 ensures infos[1..][k + 1] == Scan(infos[1..][k], instrs[1..][k]) {
        assert infos[k + 1 + 1] == Scan(infos[k + 1], instrs[k + 1]);
      }
      ScanSteps(instrs[1..], infos[1..]);
      assert infos[0 + 1] == Scan(infos[0], instrs[0]);
    }
  }

  lemma ScanFloat()
    ensures Scan(Placed(), Float()) == WithFloat()
  {
    assert TypeKey(Float()) == FloatKey();
  }

  lemma ScanVector()
    ensures Scan(WithFloat(), Vector()) == WithVector()
  {
    assert TypeKey(Vector()) == VectorKey();
  }

  lemma ScanPointer()
    ensures Scan(WithVector(), Pointer()) == WithPointer()
  {
    assert TypeKey(Pointer()) == PointerKey();
  }

  lemma FullScan()
    ensures ScanAll(FullModule()) == FullInfo()
  {
    ScanFloat();
    ScanVector();
    ScanPointer();
    var infos := [Nothing(), Nothing(), Placed(), WithFloat(), WithVector(), WithPointer(), FullInfo(), FullInfo()];
    assert Scan(Nothing(), Crowded()) == Nothing();
    assert Scan(Nothing(), Place()) == Placed();
    assert Scan(WithPointer(), Variable()) == FullInfo();
    assert Scan(FullInfo(), Function()) == FullInfo();
    ScanSteps(FullModule(), infos);
  }

  lemma {:induction false} NonePacked(info: Info, location: nat)
    requires location <= 8
    ensures Retyped(info, {}, {}, location) == Some({})
    decreases 8 - location
  {
    if location < 8 { NonePacked(info, location + 1); }
  }

  lemma FullBlended()
    ensures Blended(FullInfo(), Request({}, false, 1), {}) == Some(4)
  {
    var info := FullInfo();
    assert AtLocation(info, 0) == {4};
    assert OutputAt(info, 0) == Some(4);
    assert FloatVectorPointer(info, 3);
  }

  /** The plan needs a second color variable. */
  lemma FullPlan() returns (plan: Plan)
    ensures MakePlan(FullInfo(), Request({}, false, 1), {}, 9) == Ready(plan, 12)
    ensures plan.secondColor == 11 && plan.blended == 4 && plan.retyped == {} && plan.secondSource == 0
  {
    NonePacked(FullInfo(), 0);
    FullBlended();
    plan := MakePlan(FullInfo(), Request({}, false, 1), {}, 9).plan;
  }

  lemma {:induction false} AllExpanded(expand: Expander, instrs: seq<Instr>, bound: nat)
    requires forall i, b: nat :: i in instrs ==> expand(i, b).Expansion?
    ensures AllExpand(Expansions(expand, instrs, bound))
    decreases |instrs|
  {
    if instrs != [] {
      assert instrs[0] in instrs;
      AllExpanded(expand, instrs[1..], expand(instrs[0], bound).bound);
    }
  }

  lemma FullFits()
    ensures AllFit(FullModule())
  {
  }

  lemma FullParses()
    ensures Parse(FullWords()[HEADER..]) == Some(FullModule())
  {
    FullFits();
    HeaderFirst([MAGIC, 0, 0, 9, 0], StreamWords(FullModule()));
    ParseStream(FullModule());
  }

  lemma HeaderFirst(header: seq<nat>, rest: seq<nat>)
    requires |header| == HEADER
    ensures (header + rest)[HEADER..] == rest && (header + rest)[..HEADER] == header
            && forall k :: 0 <= k < HEADER ==> (header + rest)[k] == header[k]
  {
  }

  lemma FullAsked()
    ensures Requested(Reversed()) == Some(Request({}, false, 1))
  {
    assert ValidCode(1);
    assert Reversed()[1..] == [];
  }

  lemma {:induction false} HasFunction(instrs: seq<Instr>, k: nat)
    requires k < |instrs| && instrs[k].op == OpFunction
    ensures FirstFunction(instrs) < |instrs|
    decreases |instrs|
  {
    if k > 0 { HasFunction(instrs[1..], k - 1); }
  }

  /** What the entry point becomes comes first. */
  lemma FirstOut(plan: Plan, instrs: seq<Instr>, bound: nat)
    requires instrs != [] && instrs[0] == Crowded() && plan.secondColor != 0
    ensures var es := Expansions(ExpanderOf(plan), instrs, bound);
            var out := Assembled(plan, instrs, es, FirstFunction(instrs));
            out != [] && out[0] == Instr(OpEntryPoint, Crowded().operands + [plan.secondColor])
  {
    var es, f := Expansions(ExpanderOf(plan), instrs, bound), FirstFunction(instrs);
    var full := Instr(OpEntryPoint, Crowded().operands + [plan.secondColor]);
    assert f > 0 && es[0] == Expansion([full], bound);
    assert es[..f][0] == es[0];
    assert Flatten(es[..f]) == [full] + Flatten(es[..f][1..]);
  }

  /** A stream whose first count has wrapped around to zero. */
  lemma WrapsToNothing(out: seq<Instr>)
    requires out != [] && out[0].op == OpEntryPoint && Count(out[0]) == HALF
    ensures StreamWords(out) != [] && Parse(StreamWords(out)) == None
  {
    assert HeadWord(out[0]) == (HALF * HALF + OpEntryPoint) % WORD == OpEntryPoint;
    assert StreamWords(out)[0] == OpEntryPoint;
  }

  lemma FullRewrites(plan: Plan)
    requires plan.retyped == {} && plan.secondColor != 0 && plan.blended == 4 && plan.secondSource == 0
    ensures AllExpand(Expansions(ExpanderOf(plan), FullModule(), 12))
  {
    var expand := ExpanderOf(plan);
    forall i, b: nat | i in FullModule() ensures expand(i, b).Expansion? {}
    AllExpanded(expand, FullModule(), 12);
  }

  lemma SpecializedIs(words: seq<nat>, instrs: seq<Instr>, request: Request, plan: Plan, bound: nat)
    requires |words| >= HEADER && words[0] == MAGIC && Parse(words[HEADER..]) == Some(instrs)
    requires Requested(Reversed()) == Some(request) && request.reversed != 0
    requires MakePlan(ScanAll(instrs), request, {}, words[3]) == Ready(plan, bound)
    ensures var pass := Rewrite(plan, ExpanderOf(plan), Pass([], bound, false, plan.variables), instrs);
            pass.Pass? && pass.inserted ==>
              Specialized(words, Reversed(), {}) == Some(words[..HEADER][3 := pass.bound] + StreamWords(pass.out))
  {
  }

  /** It is specialized, to words that do not even begin with an instruction. */
  lemma FullOverflows()
    ensures var r := Specialized(FullWords(), Reversed(), {});
            r.Some? && |r.value| > HEADER && Parse(r.value[HEADER..]) == None
  {
    var header, instrs := [MAGIC, 0, 0, 9, 0], FullModule();
    FullParses();
    FullScan();
    FullAsked();
    var plan := FullPlan();
    var expand := ExpanderOf(plan);
    ExpanderDrops(plan);
    FullRewrites(plan);
    HasFunction(instrs, 6);
    RewriteShape(plan, expand, instrs, 12);
    var out, final := Assembled(plan, instrs, Expansions(expand, instrs, 12), FirstFunction(instrs)),
        FinalBound(expand, instrs, 12);
    FirstOut(plan, instrs, 12);
    WrapsToNothing(out);
    HeaderFirst(header, StreamWords(instrs));
    HeaderFirst(header[3 := final], StreamWords(out));
    SpecializedIs(FullWords(), instrs, Request({}, false, 1), plan, 12);
    assert Specialized(FullWords(), Reversed(), {}) == Some(header[3 := final] + StreamWords(out));
  }
}
