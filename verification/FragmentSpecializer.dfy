/** The specializer itself: a cursor over the words, twice, first to learn about the module and then to rewrite it. */
module FragmentSpecializer {
  import opened Wrappers
  import opened Spirv
  import opened FragmentPlan
  import opened FragmentOutputs
  method ReadRequest(constants: seq<Constant>) returns (request: Option<Request>)
    ensures request == Requested(constants)
  {
    var r := Request({}, false, 0);
    for i := 0 to |constants|
      invariant Requested(constants[i..], r) == Requested(constants)
    {
      assert constants[i..][1..] == constants[i + 1..];
      var next := Note(r, constants[i]);
      if next.None? { return None; }
      r := next.value;
    }
    request := Some(r);
  }

  /** The instruction at the cursor. */
  function At(words: seq<nat>, cursor: nat): (i: Instr)
    requires cursor < |words| && !Truncated(words[cursor..])
  {
    First(words[cursor..])
  }

  lemma ParseFrom(words: seq<nat>, cursor: nat)
    requires cursor < |words|
    ensures Truncated(words[cursor..]) ==> Parse(words[cursor..]).None?
    ensures !Truncated(words[cursor..]) ==>
              var next := cursor + words[cursor] / HALF;
              next <= |words| && Parse(words[cursor..]) == match Parse(words[next..]) { case Some(rest) =>
                  Some([At(words, cursor)] + rest) case None => None }
  {
    if !Truncated(words[cursor..]) {
      assert words[cursor..][words[cursor] / HALF..] == words[cursor + words[cursor] / HALF..];
    }
  }

  /** Learns about the module; None when an instruction is cut off. */
  method ScanModule(words: seq<nat>) returns (info: Option<Info>)
    requires |words| >= HEADER
    ensures info == match Parse(words[HEADER..]) { case Some(instrs) => Some(ScanAll(instrs)) case None => None }
  {
    var known := Info(map[], {}, map[], map[], map[]);
    var cursor := HEADER;
    while cursor < |words|
      invariant HEADER <= cursor <= |words|
      invariant Parse(words[HEADER..]).Some? <==> Parse(words[cursor..]).Some?
      invariant Parse(words[cursor..]).Some? ==>
                ScanAll(Parse(words[HEADER..]).value) == ScanAll(Parse(words[cursor..]).value, known)
      decreases |words| - cursor
    {
      ParseFrom(words, cursor);
      if Truncated(words[cursor..]) { return None; }
      known := Scan(known, At(words, cursor));
      cursor := cursor + words[cursor] / HALF;
    }
    assert words[cursor..] == [];
    info := Some(known);
  }

  /** The words, bound, flag and variables are those of the pass. */
  ghost predicate Holds(pass: Pass, out: seq<nat>, bound: nat, inserted: bool, variables: seq<Instr>) {
    pass.Pass? && out == StreamWords(pass.out) && bound == pass.bound && inserted == pass.inserted
      && variables == pass.variables
  }

  /** Appends what an instruction becomes. */
  method Append(plan: Plan, expand: Expander, ghost pass: Pass, i: Instr, out: seq<nat>, bound: nat, inserted: bool,
                variables: seq<Instr>)
    returns (threw: bool, out': seq<nat>, bound': nat, inserted': bool, variables': seq<Instr>)
    requires Holds(pass, out, bound, inserted, variables)
    ensures threw <==> Step(plan, expand, pass, i).Failed?
    ensures !threw ==> Holds(Step(plan, expand, pass, i), out', bound', inserted', variables')
  {
    threw, out', bound', inserted', variables' := false, out, bound, inserted, variables;
    var e := expand(i, bound);
    if e.Throws? { threw := true; return; }
    if IsPackedVariable(plan, i) {
      variables' := variables + [NewVariable(plan, i)];
      return;
    }
    StreamStep(plan, pass, i, e);
    if i.op == OpFunction && !inserted {
      out', inserted' := out + StreamWords(plan.declarations + variables), true;
    }
    out', bound' := out' + StreamWords(e.instrs), e.bound;
  }

  /** Rewrites the instruction at the cursor. */
  method RewriteNext(words: seq<nat>, cursor: nat, plan: Plan, expand: Expander, ghost pass: Pass, out: seq<nat>,
                     bound: nat, inserted: bool, variables: seq<Instr>)
    returns (threw: bool, next: nat, out': seq<nat>, bound': nat, inserted': bool, variables': seq<Instr>,
             ghost pass': Pass)
    requires cursor < |words| && Parse(words[cursor..]).Some? && Holds(pass, out, bound, inserted, variables)
    ensures var whole := Rewrite(plan, expand, pass, Parse(words[cursor..]).value);
            if threw then whole.Failed?
            else
              && cursor < next <= |words| && Parse(words[next..]).Some?
              && whole == Rewrite(plan, expand, pass', Parse(words[next..]).value)
              && Holds(pass', out', bound', inserted', variables')
  {
    RewriteOn(words, plan, expand, cursor, pass);
    var i := At(words, cursor);
    pass', next := Step(plan, expand, pass, i), cursor + words[cursor] / HALF;
    threw, out', bound', inserted', variables' := Append(plan, expand, pass, i, out, bound, inserted, variables);
    if threw { RewriteFails(plan, expand, pass', Parse(words[next..]).value); }
  }

  /** Rewrites the module; None where the rewriting throws. */
  method RewriteModule(words: seq<nat>, plan: Plan, expand: Expander, bound: nat) returns (result: Option<seq<nat>>)
    requires |words| >= HEADER && Parse(words[HEADER..]).Some?
    ensures var pass := Rewrite(plan, expand, Pass([], bound, false, plan.variables), Parse(words[HEADER..]).value);
            result == if pass.Failed? || !pass.inserted then None
                else Some(words[..HEADER][3 := pass.bound] + StreamWords(pass.out))
  {
    var out: seq<nat>, last, inserted, variables := [], bound, false, plan.variables;
    var cursor := HEADER;
    ghost var pass := Pass([], bound, false, plan.variables);
    ghost var whole := Rewrite(plan, expand, pass, Parse(words[HEADER..]).value);
    while cursor < |words|
      invariant HEADER <= cursor <= |words| && Parse(words[cursor..]).Some?
      invariant whole == Rewrite(plan, expand, pass, Parse(words[cursor..]).value)
                && Holds(pass, out, last, inserted, variables)
      decreases |words| - cursor
    {
      var threw;
      threw, cursor, out, last, inserted, variables, pass :=
        RewriteNext(words, cursor, plan, expand, pass, out, last, inserted, variables);
      if threw { return None; }
    }
    RewriteEnds(words, plan, expand, pass);
    if !inserted { return None; }
    result := Some(words[..HEADER][3 := last] + out);
  }

  /** Rewriting goes on behind the instruction at the cursor. */
  lemma RewriteOn(words: seq<nat>, plan: Plan, expand: Expander, cursor: nat, pass: Pass)
    requires cursor < |words| && Parse(words[cursor..]).Some? && pass.Pass?
    ensures !Truncated(words[cursor..]) && cursor < cursor + words[cursor] / HALF <= |words|
    ensures var next := cursor + words[cursor] / HALF;
            Parse(words[next..]).Some? && Rewrite(plan, expand, pass, Parse(words[cursor..]).value)
                                       == Rewrite(plan, expand, Step(plan, expand, pass, At(words, cursor)),
                                                  Parse(words[next..]).value)
  {
    ParseFrom(words, cursor);
    RewriteStep(plan, expand, pass, At(words, cursor), Parse(words[cursor + words[cursor] / HALF..]).value);
  }

  lemma RewriteFails(plan: Plan, expand: Expander, pass: Pass, rest: seq<Instr>)
    requires pass.Failed?
    ensures Rewrite(plan, expand, pass, rest).Failed?
  {
  }

  lemma RewriteEnds(words: seq<nat>, plan: Plan, expand: Expander, pass: Pass)
    ensures Parse(words[|words|..]) == Some([]) && Rewrite(plan, expand, pass, []) == pass
  {
  }

  lemma RewriteStep(plan: Plan, expand: Expander, pass: Pass, i: Instr, rest: seq<Instr>)
    requires pass.Pass?
    ensures Rewrite(plan, expand, pass, [i] + rest) == Rewrite(plan, expand, Step(plan, expand, pass, i), rest)
  {
    assert ([i] + rest)[1..] == rest;
  }

  /** The words of a pass after one more instruction. */
  lemma StreamStep(plan: Plan, pass: Pass, i: Instr, e: Expansion)
    requires pass.Pass? && e.Expansion?
    ensures StreamWords(pass.out + e.instrs) == StreamWords(pass.out) + StreamWords(e.instrs)
    ensures StreamWords(pass.out + (plan.declarations + pass.variables) + e.instrs)
         == StreamWords(pass.out) + StreamWords(plan.declarations + pass.variables) + StreamWords(e.instrs)
  {
    StreamJoins(pass.out, e.instrs);
    StreamJoins(pass.out, plan.declarations + pass.variables);
    StreamJoins(pass.out + (plan.declarations + pass.variables), e.instrs);
  }

  method SpecializeFragmentOutputs(words: seq<nat>, constants: seq<Constant>, specialized: set<nat>)
    returns (result: Option<seq<nat>>)
    ensures result == Specialized(words, constants, specialized)
  {
    var request := ReadRequest(constants);
    if request.None? { return None; }
    var r := request.value;
    if r.packed == {} && !r.dualSource && r.reversed == 0 { return Some(words); }
    if |words| < HEADER || words[0] != MAGIC { return None; }
    var info := ScanModule(words);
    if info.None? { return None; }
    match MakePlan(info.value, r, specialized, words[3]) {
      case Refused => result := None;
      case Unchanged => result := Some(words);
      case Ready(plan, bound) =>
        result := RewriteModule(words, plan, ExpanderOf(plan), bound);
    }
  }
}
