/** Specializing a whole module: the shape of the result, its ids, its word stream, and every path through it. */
module FragmentModule {
  import opened Wrappers
  import opened Spirv
  import opened FragmentPlan
  import opened FragmentOutputs
  import opened FragmentMeaning
  import opened FragmentChoice

  // ----- The shape of the result

  /** What each instruction becomes, ids being handed out in order. */
  function Expansions(expand: Expander, instrs: seq<Instr>, bound: nat): (r: seq<Expansion>)
    ensures |r| == |instrs|
    decreases |instrs|
  {
    if instrs == [] then []
    else
      var e := expand(instrs[0], bound);
      [e] + Expansions(expand, instrs[1..], if e.Throws? then bound else e.bound)
  }

  ghost predicate AllExpand(es: seq<Expansion>) { forall e <- es :: e.Expansion? }

  function Flatten(es: seq<Expansion>): seq<Instr>
    decreases |es|
  {
    if es == [] then [] else (if es[0].Throws? then [] else es[0].instrs) + Flatten(es[1..])
  }

  /** The variables that move to the declarations. */
  function Moved(plan: Plan, instrs: seq<Instr>): seq<Instr>
    decreases |instrs|
  {
    if instrs == [] then [] else (if IsPackedVariable(plan, instrs[0]) then [NewVariable(plan, instrs[0])]
                                  else []) + Moved(plan, instrs[1..])
  }

  /** The id bound after all instructions. */
  function FinalBound(expand: Expander, instrs: seq<Instr>, bound: nat): nat
    decreases |instrs|
  {
    if instrs == [] then bound
    else
      var e := expand(instrs[0], bound);
      FinalBound(expand, instrs[1..], if e.Throws? then bound else e.bound)
  }

  /** A packed variable expands to nothing and takes no ids. */
  ghost predicate Drops(plan: Plan, expand: Expander) {
    forall i, bound: nat :: IsPackedVariable(plan, i) && expand(i, bound).Expansion? ==>
        expand(i, bound) == Expansion([], bound)
  }

  lemma ExpanderDrops(plan: Plan)
    ensures Drops(plan, ExpanderOf(plan))
  {
  }

  lemma Regroup(a: seq<Instr>, b: seq<Instr>, c: seq<Instr>)
    ensures a + (b + c) == a + b + c
  {
  }

  /** A step that does not insert the declarations appends what the instruction becomes. */
  lemma StepAppends(plan: Plan, expand: Expander, pass: Pass, i: Instr)
    requires pass.Pass? && Drops(plan, expand) && (i.op != OpFunction || pass.inserted)
    ensures var e, next := expand(i, pass.bound), Step(plan, expand, pass, i);
            if e.Throws? then next == Failed
            else next == Pass(pass.out + e.instrs, e.bound, pass.inserted,
                              pass.variables + if IsPackedVariable(plan, i) then [NewVariable(plan, i)] else [])
  {
    var e := expand(i, pass.bound);
    assert pass.out + [] == pass.out && pass.variables + [] == pass.variables;
  }

  /** Once the declarations are in, each instruction is replaced where it stands. */
  lemma {:induction false} RewriteAfter(plan: Plan, expand: Expander, pass: Pass, instrs: seq<Instr>)
    requires pass.Pass? && pass.inserted && Drops(plan, expand)
    ensures var es, r := Expansions(expand, instrs, pass.bound), Rewrite(plan, expand, pass, instrs);
            && (r.Pass? <==> AllExpand(es))
            && (r.Pass? ==> r.inserted && r.out == pass.out + Flatten(es)
                            && r.bound == FinalBound(expand, instrs, pass.bound))
    decreases |instrs|
  {
    if instrs != [] {
      var next := Step(plan, expand, pass, instrs[0]);
      var e := expand(instrs[0], pass.bound);
      var es := Expansions(expand, instrs[1..], if e.Throws? then pass.bound else e.bound);
      ExpandAll(e, es);
      StepAppends(plan, expand, pass, instrs[0]);
      if next.Pass? {
        RewriteAfter(plan, expand, next, instrs[1..]);
        Regroup(pass.out, e.instrs, Flatten(es));
      }
    }
  }

  lemma ExpandAll(e: Expansion, es: seq<Expansion>)
    ensures AllExpand([e] + es) <==> e.Expansion? && AllExpand(es)
    ensures Flatten([e] + es) == (if e.Throws? then [] else e.instrs) + Flatten(es)
  {
    if AllExpand([e] + es) {
      assert e in [e] + es;
      forall x <- es ensures x.Expansion? { assert x in [e] + es; }
    }
    assert ([e] + es)[1..] == es;
  }

  /** Before the first function nothing but the packed variables moves. */
  lemma {:induction false} RewriteBefore(plan: Plan, expand: Expander, pass: Pass, instrs: seq<Instr>)
    requires pass.Pass? && !pass.inserted && Drops(plan, expand) && FirstFunction(instrs) == |instrs|
    ensures var es, r := Expansions(expand, instrs, pass.bound), Rewrite(plan, expand, pass, instrs);
            && (r.Pass? <==> AllExpand(es))
            && (r.Pass? ==> r == Pass(pass.out + Flatten(es), FinalBound(expand, instrs, pass.bound), false,
                                      pass.variables + Moved(plan, instrs)))
    decreases |instrs|
  {
    if instrs != [] {
      var next := Step(plan, expand, pass, instrs[0]);
      var e := expand(instrs[0], pass.bound);
      var es := Expansions(expand, instrs[1..], if e.Throws? then pass.bound else e.bound);
      ExpandAll(e, es);
      StepAppends(plan, expand, pass, instrs[0]);
      if next.Pass? {
        RewriteBefore(plan, expand, next, instrs[1..]);
        Regroup(pass.out, e.instrs, Flatten(es));
        Regroup(pass.variables, if IsPackedVariable(plan, instrs[0]) then [NewVariable(plan, instrs[0])]
                else [], Moved(plan, instrs[1..]));
      }
    }
  }

  lemma {:induction false} RewriteJoins(plan: Plan, expand: Expander, pass: Pass, a: seq<Instr>, b: seq<Instr>)
    ensures Rewrite(plan, expand, pass, a + b) == Rewrite(plan, expand, Rewrite(plan, expand, pass, a), b)
    decreases |a|
  {
    if a == [] {
      assert a + b == b;
    } else if pass.Pass? {
      assert (a + b)[1..] == a[1..] + b;
      RewriteJoins(plan, expand, Step(plan, expand, pass, a[0]), a[1..], b);
    }
  }

  lemma {:induction false} ExpansionsJoin(expand: Expander, a: seq<Instr>, b: seq<Instr>, bound: nat)
    ensures Expansions(expand, a + b, bound) == Expansions(expand, a, bound)
            + Expansions(expand, b, FinalBound(expand, a, bound))
    ensures FinalBound(expand, a + b, bound) == FinalBound(expand, b, FinalBound(expand, a, bound))
    decreases |a|
  {
    if a == [] {
      assert a + b == b;
    } else {
      assert (a + b)[1..] == a[1..] + b && (a + b)[0] == a[0];
      var e := expand(a[0], bound);
      var next := if e.Throws? then bound else e.bound;
      ExpansionsJoin(expand, a[1..], b, next);
      assert [e] + (Expansions(expand, a[1..], next) + Expansions(expand, b, FinalBound(expand, a[1..], next)))
          == [e] + Expansions(expand, a[1..], next) + Expansions(expand, b, FinalBound(expand, a[1..], next));
    }
  }

  /** The rewritten module when its expansions are `es` and its first function is instruction `f`. */
  function Assembled(plan: Plan, instrs: seq<Instr>, es: seq<Expansion>, f: nat): seq<Instr>
    requires f <= |instrs| == |es|
  {
    Flatten(es[..f]) + (plan.declarations + (plan.variables + Moved(plan, instrs[..f]))) + Flatten(es[f..])
  }

  lemma FirstFunctionAt(instrs: seq<Instr>)
    ensures var f := FirstFunction(instrs); FirstFunction(instrs[..f]) == f
                                            && (f < |instrs| ==> instrs[f].op == OpFunction)
  {
    if instrs != [] && instrs[0].op != OpFunction {
      FirstFunctionAt(instrs[1..]);
      var f := FirstFunction(instrs);
      assert instrs[..f][1..] == instrs[1..][..f - 1];
    }
  }

  lemma StepInserts(plan: Plan, expand: Expander, pass: Pass, i: Instr)
    requires pass.Pass? && !pass.inserted && i.op == OpFunction && expand(i, pass.bound).Expansion?
    ensures var e := expand(i, pass.bound);
            Step(plan, expand, pass, i) == Pass(pass.out + (plan.declarations + pass.variables) + e.instrs, e.bound,
                                                true, pass.variables)
  {
  }

  /** Every instruction is replaced where it stands, and the declarations come before the first function. */
  lemma RewriteShape(plan: Plan, expand: Expander, instrs: seq<Instr>, bound: nat)
    requires Drops(plan, expand)
    ensures var es, f := Expansions(expand, instrs, bound), FirstFunction(instrs);
            var r := Rewrite(plan, expand, Pass([], bound, false, plan.variables), instrs);
            && (r.Pass? && r.inserted <==> f < |instrs| && AllExpand(es))
            && (r.Pass? && r.inserted ==> r.out == Assembled(plan, instrs, es, f)
                                          && r.bound == FinalBound(expand, instrs, bound))
  {
    var f := FirstFunction(instrs);
    var before, after := instrs[..f], instrs[f..];
    var start := Pass([], bound, false, plan.variables);
    FirstFunctionAt(instrs);
    assert instrs == before + after;
    RewriteJoins(plan, expand, start, before, after);
    RewriteBefore(plan, expand, start, before);
    ExpansionsJoin(expand, before, after, bound);
    var mid := FinalBound(expand, before, bound);
    var es1, es2 := Expansions(expand, before, bound), Expansions(expand, after, mid);
    ExpandJoin(es1, es2);
    assert [] + Flatten(es1) == Flatten(es1);
    if f < |instrs| && AllExpand(es1) {
      RewriteFrom(plan, expand, Pass(Flatten(es1), mid, false, plan.variables + Moved(plan, before)), after);
    }
  }

  lemma RewriteFrom(plan: Plan, expand: Expander, pass: Pass, instrs: seq<Instr>)
    requires Drops(plan, expand) && pass.Pass? && !pass.inserted && instrs != [] && instrs[0].op == OpFunction
    ensures var es, r := Expansions(expand, instrs, pass.bound), Rewrite(plan, expand, pass, instrs);
            && (r.Pass? <==> AllExpand(es))
            && (r.Pass? ==> r.inserted && r.bound == FinalBound(expand, instrs, pass.bound)
                            && r.out == pass.out + (plan.declarations + pass.variables) + Flatten(es))
  {
    var e := expand(instrs[0], pass.bound);
    var es := Expansions(expand, instrs[1..], if e.Throws? then pass.bound else e.bound);
    ExpandAll(e, es);
    if e.Expansion? {
      StepInserts(plan, expand, pass, instrs[0]);
      var next := Step(plan, expand, pass, instrs[0]);
      RewriteAfter(plan, expand, next, instrs[1..]);
      Regroup(pass.out + (plan.declarations + pass.variables), e.instrs, Flatten(es));
    }
  }

  lemma ExpandJoin(a: seq<Expansion>, b: seq<Expansion>)
    ensures AllExpand(a + b) <==> AllExpand(a) && AllExpand(b)
  {
    if AllExpand(a + b) {
      forall e <- a ensures e.Expansion? { assert e in a + b; }
      forall e <- b ensures e.Expansion? { assert e in a + b; }
    }
  }

  // ----- Ids

  /** Which operand is the result, of the instructions that a rewriting can add; zero for other instructions. */
  function ResultAt(op: nat): nat {
    if IsType(op) then 1
    else if op == OpConstant || op == OpVariable || op == OpBitcast || op == OpCompositeExtract
        || op == OpCompositeConstruct then 2
    else 0
  }

  predicate Defines(i: Instr) { ResultAt(i.op) > 0 }

  function ResultId(i: Instr): nat { Operand(i, ResultAt(i.op)) }

  /** The ids from `limit` on that a run of instructions defines, in order. */
  function NewIds(instrs: seq<Instr>, limit: nat): seq<nat>
    decreases |instrs|
  {
    if instrs == [] then []
    else (if Defines(instrs[0]) && ResultId(instrs[0]) >= limit then [ResultId(instrs[0])]
          else []) + NewIds(instrs[1..], limit)
  }

  function Range(from: nat, to: nat): (r: seq<nat>)
    requires from <= to
    ensures |r| == to - from && forall k :: 0 <= k < |r| ==> r[k] == from + k
  {
    seq(to - from, k requires 0 <= k < to - from => from + k)
  }

  lemma {:induction false} NewIdsJoin(a: seq<Instr>, b: seq<Instr>, limit: nat)
    ensures NewIds(a + b, limit) == NewIds(a, limit) + NewIds(b, limit)
    decreases |a|
  {
    if a == [] {
      assert a + b == b;
    } else {
      assert (a + b)[1..] == a[1..] + b;
      NewIdsJoin(a[1..], b, limit);
    }
  }

  lemma NewIdsOne(i: Instr, limit: nat)
    ensures NewIds([i], limit) == if Defines(i) && ResultId(i) >= limit then [ResultId(i)] else []
  {
    var one := [i];
    assert one[1..] == [];
  }

  lemma NewIdsTwo(i: Instr, j: Instr, limit: nat)
    ensures NewIds([i, j], limit) == NewIds([i], limit) + NewIds([j], limit)
  {
    assert [i, j] == [i] + [j];
    NewIdsJoin([i], [j], limit);
  }

  /** An instruction of the original module, all of whose ids lie below its bound. */
  ghost predicate Native(i: Instr, limit: nat) { Defines(i) ==> ResultId(i) < limit }

  /** The new ids in what an instruction becomes are consecutive from `bound` on. */
  ghost predicate Consecutive(e: Expansion, bound: nat, limit: nat) {
    e.Expansion? ==> bound <= e.bound && NewIds(e.instrs, limit) == Range(bound, e.bound)
  }

  lemma PackedStoreIds(plan: Plan, i: Instr, bound: nat, limit: nat)
    requires IsPackedStore(plan, i) && limit <= bound
    ensures Consecutive(PackedStore(plan, i, bound), bound, limit)
  {
    if bound < MAX_ID {
      var cast, store := Instr(OpBitcast, [plan.vectorType, bound, Operand(i, 2)]),
          Instr(OpStore, i.operands[1 := bound]);
      NewIdsTwo(cast, store, limit);
      NewIdsOne(cast, limit);
      NewIdsOne(store, limit);
      assert Range(bound, bound + 1) == [bound];
    }
  }

  lemma TwoExtracts(plan: Plan, bound: nat, color: nat, k: nat, limit: nat)
    requires limit <= bound
    ensures NewIds([Extract(plan, bound, color, k), Extract(plan, bound, color, k + 1)], limit) ==
            [bound + k, bound + k + 1]
  {
    NewIdsTwo(Extract(plan, bound, color, k), Extract(plan, bound, color, k + 1), limit);
    NewIdsOne(Extract(plan, bound, color, k), limit);
    NewIdsOne(Extract(plan, bound, color, k + 1), limit);
  }

  lemma ExtractIds(plan: Plan, color: nat, bound: nat, limit: nat)
    requires limit <= bound
    ensures NewIds(Extracts(plan, color, bound), limit) == [bound, bound + 1, bound + 2, bound + 3]
  {
    var e0, e1, e2, e3 := Extract(plan, bound, color, 0), Extract(plan, bound, color, 1),
        Extract(plan, bound, color, 2), Extract(plan, bound, color, 3);
    assert Extracts(plan, color, bound) == [e0, e1] + [e2, e3];
    NewIdsJoin([e0, e1], [e2, e3], limit);
    TwoExtracts(plan, bound, color, 0, limit);
    TwoExtracts(plan, bound, color, 2, limit);
  }

  lemma SecondStoreIds(plan: Plan, color: nat, bound: nat, limit: nat)
    requires limit <= bound
    ensures NewIds(SecondStore(plan, color, bound), limit) == [bound, bound + 1, bound + 2, bound + 3] + [bound + 4]
  {
    var construct, store := Routed(plan, SECOND, bound, bound + 4), Instr(OpStore, [plan.secondColor, bound + 4]);
    NewIdsJoin(Extracts(plan, color, bound), [construct, store], limit);
    ExtractIds(plan, color, bound, limit);
    NewIdsTwo(construct, store, limit);
    NewIdsOne(construct, limit);
    NewIdsOne(store, limit);
  }

  lemma BlendedStoreIds(plan: Plan, i: Instr, bound: nat, limit: nat)
    requires IsBlendedStore(plan, i) && limit <= bound
    ensures Consecutive(BlendedStore(plan, i, bound), bound, limit)
  {
    var e := BlendedStore(plan, i, bound);
    if e.Expansion? {
      BlendedStoreParts(plan, i, bound);
      NewIdsJoin(SecondStore(plan, Operand(i, 2), bound), ColorStore(plan, i, bound), limit);
      SecondStoreIds(plan, Operand(i, 2), bound, limit);
      ColorStoreIds(plan, i, bound, limit);
      FiveOrSix(bound, ColorRouted(plan));
    }
  }

  lemma BlendedStoreParts(plan: Plan, i: Instr, bound: nat)
    requires IsBlendedStore(plan, i) && BlendedStore(plan, i, bound).Expansion?
    ensures BlendedStore(plan, i, bound) ==
            Expansion(SecondStore(plan, Operand(i, 2), bound) + ColorStore(plan, i, bound), bound + if ColorRouted(plan)
                      then 6 else 5)
  {
  }

  lemma FiveOrSix(bound: nat, six: bool)
    ensures Range(bound, bound + if six then 6 else 5) == [bound, bound + 1, bound + 2, bound + 3] + [bound + 4]
            + if six then [bound + 5] else []
  {
  }

  lemma ColorStoreIds(plan: Plan, i: Instr, bound: nat, limit: nat)
    requires IsBlendedStore(plan, i) && limit <= bound
    ensures NewIds(ColorStore(plan, i, bound), limit) == if ColorRouted(plan) then [bound + 5] else []
  {
    if ColorRouted(plan) {
      var recolor, last := Routed(plan, COLOR, bound, bound + 5), Instr(OpStore, i.operands[1 := bound + 5]);
      NewIdsTwo(recolor, last, limit);
      NewIdsOne(recolor, limit);
      NewIdsOne(last, limit);
    } else {
      NewIdsOne(i, limit);
    }
  }

  lemma ExpandIds(plan: Plan, i: Instr, bound: nat, limit: nat)
    requires Native(i, limit) && limit <= bound
    ensures Consecutive(Expand(plan, i, bound), bound, limit)
  {
    if IsPackedStore(plan, i) {
      PackedStoreIds(plan, i, bound, limit);
    } else if IsBlendedStore(plan, i) {
      BlendedStoreIds(plan, i, bound, limit);
    } else {
      NoIds(plan, i, bound, limit);
    }
  }

  lemma NoIds(plan: Plan, i: Instr, bound: nat, limit: nat)
    requires Native(i, limit) && limit <= bound && !IsPackedStore(plan, i) && !IsBlendedStore(plan, i)
    ensures Consecutive(Expand(plan, i, bound), bound, limit)
  {
    assert Range(bound, bound) == [];
    NewIdsOne(i, limit);
    if IsLocation(i, plan.secondSource) {
      DecorationIds(plan.secondSource, limit);
    } else if IsLocation(i, plan.blended) {
      DecorationIds(plan.secondColor, limit);
      NewIdsJoin([i], IndexDecorations(plan.secondColor), limit);
    } else if i.op == OpEntryPoint {
      NewIdsOne(Instr(OpEntryPoint, i.operands + [plan.secondColor]), limit);
    }
  }

  lemma DecorationIds(id: nat, limit: nat)
    ensures NewIds(IndexDecorations(id), limit) == []
  {
    NewIdsTwo(Instr(OpDecorate, [id, DecorationLocation, 0]), Instr(OpDecorate, [id, DecorationIndex, 1]), limit);
    NewIdsOne(Instr(OpDecorate, [id, DecorationLocation, 0]), limit);
    NewIdsOne(Instr(OpDecorate, [id, DecorationIndex, 1]), limit);
  }

  lemma RangesJoin(a: nat, b: nat, c: nat)
    requires a <= b <= c
    ensures Range(a, b) + Range(b, c) == Range(a, c)
  {
  }

  /** All instructions get consecutive ids, wherever the bound has got to. */
  ghost predicate GivesConsecutive(expand: Expander, instrs: seq<Instr>, limit: nat) {
    forall i, bound: nat :: i in instrs && limit <= bound ==> Consecutive(expand(i, bound), bound, limit)
  }

  /** Over the whole module the new ids are consecutive, so pairwise distinct and between the old and the new bound. */
  lemma {:induction false} FlattenIds(expand: Expander, instrs: seq<Instr>, bound: nat, limit: nat)
    requires GivesConsecutive(expand, instrs, limit) && limit <= bound && AllExpand(Expansions(expand, instrs, bound))
    ensures bound <= FinalBound(expand, instrs, bound)
    ensures NewIds(Flatten(Expansions(expand, instrs, bound)), limit) == Range(bound, FinalBound(expand, instrs, bound))
    decreases |instrs|
  {
    if instrs == [] {
      assert Range(bound, bound) == [];
    } else {
      var i := instrs[0];
      var e := expand(i, bound);
      assert instrs[0] in instrs && Consecutive(e, bound, limit);
      var rest := Expansions(expand, instrs[1..], if e.Throws? then bound else e.bound);
      ExpandAll(e, rest);
      FlattenIds(expand, instrs[1..], e.bound, limit);
      NewIdsJoin(e.instrs, Flatten(rest), limit);
      RangesJoin(bound, e.bound, FinalBound(expand, instrs, bound));
    }
  }

  // ----- The word stream

  /** An entry point that has no room for one more interface id. */
  predicate Full(plan: Plan, i: Instr) { i.op == OpEntryPoint && plan.secondColor != 0 && Count(i) + 1 >= HALF }

  lemma ExpandFits(plan: Plan, i: Instr, bound: nat)
    requires Fits(i) && Expand(plan, i, bound).Expansion?
    ensures AllFit(Expand(plan, i, bound).instrs) <==> !Full(plan, i)
  {
    var e := Expand(plan, i, bound);
    if Full(plan, i) {
      assert e.instrs == [Instr(OpEntryPoint, i.operands + [plan.secondColor])];
      assert e.instrs[0] in e.instrs && !Fits(e.instrs[0]);
    }
  }

  /** Whether what an instruction becomes fits does not depend on the ids. */
  ghost predicate FitsUnlessFull(plan: Plan, expand: Expander, instrs: seq<Instr>) {
    forall i, bound: nat :: i in instrs && expand(i, bound).Expansion? ==>
        (AllFit(expand(i, bound).instrs) <==> !Full(plan, i))
  }

  lemma {:induction false} FlattenFits(plan: Plan, expand: Expander, instrs: seq<Instr>, bound: nat)
    requires FitsUnlessFull(plan, expand, instrs) && AllExpand(Expansions(expand, instrs, bound))
    ensures AllFit(Flatten(Expansions(expand, instrs, bound))) <==> forall i <- instrs :: !Full(plan, i)
    decreases |instrs|
  {
    if instrs != [] {
      var i, rest := instrs[0], instrs[1..];
      var e := expand(i, bound);
      assert e in Expansions(expand, instrs, bound);
      ExpandAll(e, Expansions(expand, rest, e.bound));
      FlattenFits(plan, expand, rest, e.bound);
      FitsJoin(e.instrs, Flatten(Expansions(expand, rest, e.bound)));
      assert instrs == [i] + rest;
    }
  }

  lemma FitsJoin(a: seq<Instr>, b: seq<Instr>)
    ensures AllFit(a + b) <==> AllFit(a) && AllFit(b)
  {
    if AllFit(a + b) {
      forall i <- a ensures Fits(i) { assert i in a + b; }
      forall i <- b ensures Fits(i) { assert i in a + b; }
    }
  }

  lemma {:induction false} MovedFits(plan: Plan, instrs: seq<Instr>)
    requires AllFit(instrs)
    ensures AllFit(Moved(plan, instrs))
    decreases |instrs|
  {
    if instrs != [] {
      assert Fits(instrs[0]);
      MovedFits(plan, instrs[1..]);
    }
  }

  // ----- Paths

  /** Runs the blocks of a path, one after another. */
  function RunPath(others: Others, limit: nat, blocks: seq<seq<Instr>>, path: seq<nat>, s: State): State
    requires forall k :: 0 <= k < |path| ==> path[k] < |blocks|
    decreases |path|
  {
    if path == [] then s else RunPath(others, limit, blocks, path[1..], Run(others, limit, blocks[path[0]], s))
  }

  function Blocks(es: seq<Expansion>): (blocks: seq<seq<Instr>>)
    ensures |blocks| == |es|
  {
    seq(|es|, n requires 0 <= n < |es| => if es[n].Throws? then [] else es[n].instrs)
  }

  function Originals(instrs: seq<Instr>): (blocks: seq<seq<Instr>>)
    ensures |blocks| == |instrs|
  {
    seq(|instrs|, n requires 0 <= n < |instrs| => [instrs[n]])
  }

  lemma {:induction false} ExpansionAt(expand: Expander, instrs: seq<Instr>, bound: nat, limit: nat, n: nat)
    returns (at: nat)
    requires GivesConsecutive(expand, instrs, limit) && limit <= bound && AllExpand(Expansions(expand, instrs, bound))
             && n < |instrs|
    ensures at >= bound && Expansions(expand, instrs, bound)[n] == expand(instrs[n], at)
    decreases |instrs|
  {
    var e := expand(instrs[0], bound);
    var rest := Expansions(expand, instrs[1..], if e.Throws? then bound else e.bound);
    assert Expansions(expand, instrs, bound) == [e] + rest;
    ExpandAll(e, rest);
    assert instrs[0] in instrs && Consecutive(e, bound, limit);
    if n == 0 {
      at := bound;
    } else {
      at := ExpansionAt(expand, instrs[1..], e.bound, limit, n - 1);
    }
  }

  /** Along every path the two modules stay alike: packed outputs hold the same bits, the blended ones the routed
      color. */
  lemma {:induction false} PathMeans(others: Others, plan: Plan, instrs: seq<Instr>, limit: nat, bound: nat,
                                     path: seq<nat>, s: State, t: State)
    requires Local(others, plan, limit, instrs) && PlanIds(plan, limit, bound) && Sim(plan, limit, s, t)
    requires GivesConsecutive(ExpanderOf(plan), instrs, limit) && AllExpand(Expansions(ExpanderOf(plan), instrs, bound))
    requires forall k :: 0 <= k < |path| ==> path[k] < |instrs| && Body(plan, limit, instrs[path[k]])
    ensures var es := Expansions(ExpanderOf(plan), instrs, bound);
            Sim(plan, limit, RunPath(others, limit, Originals(instrs), path, s),
                RunPath(others, limit, Blocks(es), path, t))
    decreases |path|
  {
    if path != [] {
      var n, expand := path[0], ExpanderOf(plan);
      var es := Expansions(expand, instrs, bound);
      var at := ExpansionAt(expand, instrs, bound, limit, n);
      assert es[n] in es;
      RunOne(others, limit, instrs[n], s);
      ExpansionMeans(others, plan, limit, at, instrs, instrs[n], s, t);
      PathMeans(others, plan, instrs, limit, bound, path[1..], Run(others, limit, Originals(instrs)[n], s),
                Run(others, limit, Blocks(es)[n], t));
    }
  }

  // ----- The specialized module

  /** What a module's own bound promises of the ids that matter here. */
  ghost predicate Bounded(info: Info, instrs: seq<Instr>, limit: nat) {
    (forall id <- info.outputs :: id < limit) && forall i <- instrs :: Native(i, limit)
  }

  lemma RetypedAreOutputs(info: Info, packed: set<nat>, specialized: set<nat>, limit: nat)
    requires forall id <- info.outputs :: id < limit
    ensures var r := Retyped(info, packed, specialized); r.Some? ==> forall id <- r.value :: id < limit
  {
  }

  /** The ids of a plan lie where the meaning of the rewritten code needs them. */
  lemma ReadyPlanIds(info: Info, request: Request, specialized: set<nat>, limit: nat)
    requires MakePlan(info, request, specialized, limit).Ready? && forall id <- info.outputs :: id < limit
    ensures var r := MakePlan(info, request, specialized, limit); PlanIds(r.plan, limit, r.bound)
  {
    RetypedAreOutputs(info, request.packed, specialized, limit);
    var types := PackedTypes(Declared(info.types, limit, []));
    if types.PackedIds? { var word := PackedTypesTyped(info.types, limit); }
  }

  lemma DeclareFits(d: Declared, key: seq<nat>)
    requires AllFit(d.added) && 0 < |key| < 10 && key[0] < HALF
    ensures Declare(d, key).Id? ==> AllFit(Declare(d, key).d.added)
  {
  }

  lemma PackedTypesFit(d: Declared)
    requires AllFit(d.added)
    ensures PackedTypes(d).PackedIds? ==> AllFit(PackedTypes(d).d.added)
  {
    DeclareFits(d, [OpTypeInt, 32, 0]);
    var first := Declare(d, [OpTypeInt, 32, 0]);
    if first.Id? {
      DeclareFits(first.d, [OpTypeVector, first.id, 4]);
      var second := Declare(first.d, [OpTypeVector, first.id, 4]);
      if second.Id? { DeclareFits(second.d, [OpTypePointer, StorageClassOutput, second.id]); }
    }
  }

  // ----- The ids of the declarations

  lemma RangeFirst(from: nat, to: nat)
    requires from < to
    ensures Range(from, to) == [from] + Range(from + 1, to)
  {
  }

  lemma {:induction false} NumberedIds(instrs: seq<Instr>, bound: nat, limit: nat)
    requires Numbered(instrs, bound) && limit <= bound && forall i <- instrs :: IsType(i.op)
    ensures NewIds(instrs, limit) == Range(bound, bound + |instrs|)
    decreases |instrs|
  {
    if instrs != [] {
      assert instrs[0] in instrs && Defines(instrs[0]) && ResultId(instrs[0]) == bound;
      NumberedIds(instrs[1..], bound + 1, limit);
      RangeFirst(bound, bound + |instrs|);
    }
  }

  lemma PackedTypesOnly(types: map<seq<nat>, nat>, bound: nat)
    ensures var r := PackedTypes(Declared(types, bound, [])); r.PackedIds? ==> forall i <- r.d.added :: IsType(i.op)
  {
  }

  /** What blending adds behind the declared types: two constants and a variable. */
  ghost predicate AddsBlend(plan: Plan, d: Declared) {
    && plan.zero == d.bound && plan.one == d.bound + 1 && plan.secondColor == d.bound + 2
    && plan.declarations == d.added + [Instr(OpConstant, [plan.floatType, plan.zero, 0]),
                                       Instr(OpConstant, [plan.floatType, plan.one, FLOAT_ONE])]
    && |plan.variables| == 1 && plan.variables[0].op == OpVariable && Operand(plan.variables[0], 2) == plan.secondColor
  }

  /** What a plan that needs no packed type starts from, or one that needs it. */
  function TypesFor(info: Info, retyped: set<nat>, limit: nat): Declared {
    var types := PackedTypes(Declared(info.types, limit, []));
    if retyped != {} && types.PackedIds? then types.d else Declared(info.types, limit, [])
  }

  lemma TypesForShape(info: Info, retyped: set<nat>, limit: nat)
    ensures var d := TypesFor(info, retyped, limit);
            d.bound == limit + |d.added| && Numbered(d.added, limit) && forall i <- d.added :: IsType(i.op)
  {
    if retyped != {} && PackedTypes(Declared(info.types, limit, [])).PackedIds? {
      var word := PackedTypesTyped(info.types, limit);
      PackedTypesOnly(info.types, limit);
    }
  }

  /** A plan's declarations are the declared types, with or without what blending adds. */
  lemma ReadyShape(info: Info, request: Request, specialized: set<nat>, limit: nat)
    requires MakePlan(info, request, specialized, limit).Ready?
    ensures var r := MakePlan(info, request, specialized, limit);
            var d := TypesFor(info, r.plan.retyped, limit);
            if r.plan.blended == 0 then r.plan.declarations == d.added && r.plan.variables == [] && r.bound == d.bound
            else AddsBlend(r.plan, d) && r.bound == d.bound + 3
  {
  }

  /** The types, constants and the variable that a plan adds have the ids from the module's bound on, in order. */
  lemma ReadyIds(info: Info, request: Request, specialized: set<nat>, limit: nat)
    requires MakePlan(info, request, specialized, limit).Ready?
    ensures var r := MakePlan(info, request, specialized, limit);
            limit <= r.bound && NewIds(r.plan.declarations + r.plan.variables, limit) == Range(limit, r.bound)
  {
    var plan := MakePlan(info, request, specialized, limit).plan;
    ReadyShape(info, request, specialized, limit);
    TypesForShape(info, plan.retyped, limit);
    AddedIds(plan, TypesFor(info, plan.retyped, limit), limit);
  }

  lemma AddedIds(plan: Plan, d: Declared, limit: nat)
    requires d.bound == limit + |d.added| && Numbered(d.added, limit) && forall i <- d.added :: IsType(i.op)
    requires if plan.blended == 0 then plan.declarations == d.added && plan.variables == [] else AddsBlend(plan, d)
    ensures NewIds(plan.declarations + plan.variables, limit) ==
            Range(limit, if plan.blended == 0 then d.bound else d.bound + 3)
  {
    NumberedIds(d.added, limit, limit);
    if plan.blended == 0 { assert d.added + [] == d.added; } else { BlendIds(plan, d, limit); }
  }

  /** Two constants and a variable behind the types. */
  lemma BlendIds(plan: Plan, d: Declared, limit: nat)
    requires limit <= d.bound && NewIds(d.added, limit) == Range(limit, d.bound) && AddsBlend(plan, d)
    ensures NewIds(plan.declarations + plan.variables, limit) == Range(limit, d.bound + 3)
  {
    var zero, one := Instr(OpConstant, [plan.floatType, plan.zero, 0]),
        Instr(OpConstant, [plan.floatType, plan.one, FLOAT_ONE]);
    ConstantIds(zero, one, limit);
    NewIdsJoin(d.added, [zero, one], limit);
    NewIdsJoin(plan.declarations, plan.variables, limit);
    assert plan.variables == [plan.variables[0]];
    NewIdsOne(plan.variables[0], limit);
    ThreeMore(limit, d.bound);
  }

  lemma ConstantIds(zero: Instr, one: Instr, limit: nat)
    requires zero.op == OpConstant && one.op == OpConstant && ResultId(zero) >= limit && ResultId(one) >= limit
    ensures NewIds([zero, one], limit) == [ResultId(zero), ResultId(one)]
  {
    NewIdsTwo(zero, one, limit);
    NewIdsOne(zero, limit);
    NewIdsOne(one, limit);
  }

  lemma ThreeMore(a: nat, b: nat)
    requires a <= b
    ensures Range(a, b) + [b, b + 1] + [b + 2] == Range(a, b + 3)
  {
  }

  /** Among these instructions one declares this type. */
  ghost predicate DeclaredIn(instrs: seq<Instr>, key: seq<nat>, id: nat) { exists i <- instrs :: Declares(i, key, id) }

  /** The type of packed outputs is a pointer to four 32-bit words, declared by the module or its additions. */
  ghost predicate PackedTyped(instrs: seq<Instr>, plan: Plan) {
    exists word: nat :: DeclaredIn(instrs, [OpTypeInt, 32, 0], word)
        && DeclaredIn(instrs, [OpTypeVector, word, 4], plan.vectorType)
                        && DeclaredIn(instrs, [OpTypePointer, StorageClassOutput, plan.vectorType], plan.pointerType)
  }

  lemma KnownDeclared(instrs: seq<Instr>, d: Declared, key: seq<nat>)
    requires TypesDeclared(ScanAll(instrs).types, d) && key in d.types
    ensures DeclaredIn(instrs + d.added, key, d.types[key])
  {
    var id := d.types[key];
    if key in ScanAll(instrs).types && ScanAll(instrs).types[key] == id {
      ScannedTypes(instrs, Info(map[], {}, map[], map[], map[]), key);
      var i :| i in instrs && IsType(i.op) && Declares(i, key, id);
      assert i in instrs + d.added;
    } else {
      assert Instr(key[0], [id] + key[1..]) in instrs + d.added;
    }
  }

  lemma ReadyTyped(instrs: seq<Instr>, request: Request, specialized: set<nat>, limit: nat)
    requires MakePlan(ScanAll(instrs), request, specialized, limit).Ready?
    ensures var plan := MakePlan(ScanAll(instrs), request, specialized, limit).plan;
            plan.retyped != {} ==> PackedTyped(instrs + plan.declarations, plan)
  {
    var plan := MakePlan(ScanAll(instrs), request, specialized, limit).plan;
    if plan.retyped != {} {
      var types := ScanAll(instrs).types;
      var word := PackedTypesTyped(types, limit);
      var d := PackedTypes(Declared(types, limit, [])).d;
      KnownDeclared(instrs, d, [OpTypeInt, 32, 0]);
      KnownDeclared(instrs, d, [OpTypeVector, word, 4]);
      KnownDeclared(instrs, d, [OpTypePointer, StorageClassOutput, plan.vectorType]);
      DeclaredMore(instrs, d.added, plan.declarations, [OpTypeInt, 32, 0], word);
      DeclaredMore(instrs, d.added, plan.declarations, [OpTypeVector, word, 4], plan.vectorType);
      DeclaredMore(instrs, d.added, plan.declarations, [OpTypePointer, StorageClassOutput, plan.vectorType],
                   plan.pointerType);
    }
  }

  lemma DeclaredMore(instrs: seq<Instr>, a: seq<Instr>, b: seq<Instr>, key: seq<nat>, id: nat)
    requires DeclaredIn(instrs + a, key, id) && a <= b
    ensures DeclaredIn(instrs + b, key, id)
  {
    var i :| i in instrs + a && Declares(i, key, id);
    assert i in instrs + b;
  }

  lemma ReadyDeclarations(info: Info, request: Request, specialized: set<nat>, limit: nat)
    requires MakePlan(info, request, specialized, limit).Ready?
    ensures var r := MakePlan(info, request, specialized, limit);
            AllFit(r.plan.declarations) && AllFit(r.plan.variables)
  {
    PackedTypesFit(Declared(info.types, limit, []));
  }

  lemma AllNewIds(added: seq<Instr>, rewritten: seq<Instr>, limit: nat, middle: nat, final: nat)
    requires limit <= middle <= final && NewIds(added, limit) == Range(limit, middle)
             && NewIds(rewritten, limit) == Range(middle, final)
    ensures NewIds(added + rewritten, limit) == Range(limit, final)
  {
    NewIdsJoin(added, rewritten, limit);
    RangesJoin(limit, middle, final);
  }

  /** The specialized module: each instruction replaced where it stands; all new ids, of types, constants, the second
      color variable and rewritten stores, consecutive from the old bound on up to the new one; packed outputs of a
      declared type; and a well-formed stream exactly when no entry point is full. */
  lemma SpecializedModule(words: seq<nat>, constants: seq<Constant>, specialized: set<nat>, instrs: seq<Instr>,
                          request: Request)
    requires Requested(constants) == Some(request) && |words| > HEADER && Words32(words)
             && Parse(words[HEADER..]) == Some(instrs)
    requires Specialized(words, constants, specialized).Some?
    requires MakePlan(ScanAll(instrs), request, specialized, words[3]).Ready?
             && Bounded(ScanAll(instrs), instrs, words[3])
    requires request.packed != {} || request.dualSource || request.reversed != 0
    ensures var r := MakePlan(ScanAll(instrs), request, specialized, words[3]);
            var es := Expansions(ExpanderOf(r.plan), instrs, r.bound);
            var final := FinalBound(ExpanderOf(r.plan), instrs, r.bound);
            var out := Assembled(r.plan, instrs, es, FirstFunction(instrs));
            && Chosen(constants, instrs, r.plan) && PlanIds(r.plan, words[3], r.bound) && AllExpand(es)
            && r.bound <= final
            && Specialized(words, constants, specialized).value == words[..HEADER][3 := final] + StreamWords(out)
            && NewIds(r.plan.declarations + r.plan.variables + Flatten(es), words[3]) == Range(words[3], final)
            && (r.plan.retyped != {} ==> PackedTyped(instrs + r.plan.declarations, r.plan))
            && (AllFit(out) <==> forall i <- instrs :: !Full(r.plan, i))
            && (AllFit(out) ==> Parse(StreamWords(out)) == Some(out))
  {
    var info, limit := ScanAll(instrs), words[3];
    var r := MakePlan(info, request, specialized, limit);
    var expand := ExpanderOf(r.plan);
    ExpanderDrops(r.plan);
    ReadyPlanIds(info, request, specialized, limit);
    PlanChooses(constants, specialized, instrs, request, limit);
    RewriteShape(r.plan, expand, instrs, r.bound);
    forall i, bound: nat | i in instrs && limit <= bound ensures Consecutive(expand(i, bound), bound, limit) {
      ExpandIds(r.plan, i, bound, limit);
    }
    FlattenIds(expand, instrs, r.bound, limit);
    ReadyIds(info, request, specialized, limit);
    ReadyTyped(instrs, request, specialized, limit);
    AllNewIds(r.plan.declarations + r.plan.variables, Flatten(Expansions(expand, instrs, r.bound)), limit, r.bound,
              FinalBound(expand, instrs, r.bound));
    AssembledFits(info, request, specialized, limit, words, instrs);
    var out := Assembled(r.plan, instrs, Expansions(expand, instrs, r.bound), FirstFunction(instrs));
    if AllFit(out) { ParseStream(out); }
  }

  lemma AssembledFits(info: Info, request: Request, specialized: set<nat>, limit: nat, words: seq<nat>,
                      instrs: seq<Instr>)
    requires Words32(words) && |words| > HEADER && Parse(words[HEADER..]) == Some(instrs)
             && MakePlan(info, request, specialized, limit).Ready?
    requires var r := MakePlan(info, request, specialized, limit);
             AllExpand(Expansions(ExpanderOf(r.plan), instrs, r.bound))
    ensures var r := MakePlan(info, request, specialized, limit);
            var es := Expansions(ExpanderOf(r.plan), instrs, r.bound);
            AllFit(Assembled(r.plan, instrs, es, FirstFunction(instrs))) <==> forall i <- instrs :: !Full(r.plan, i)
  {
    var r := MakePlan(info, request, specialized, limit);
    var expand, f := ExpanderOf(r.plan), FirstFunction(instrs);
    var es := Expansions(expand, instrs, r.bound);
    forall w <- words[HEADER..] ensures w < WORD { assert w in words; }
    StreamParse(words[HEADER..]);
    ReadyDeclarations(info, request, specialized, limit);
    forall i <- instrs[..f] ensures Fits(i) { assert i in instrs; }
    MovedFits(r.plan, instrs[..f]);
    forall i, bound: nat | i in instrs && expand(i, bound).Expansion? ensures AllFit(expand(i, bound).instrs) <==>
        !Full(r.plan, i) {
      ExpandFits(r.plan, i, bound);
    }
    FlattenFits(r.plan, expand, instrs, r.bound);
    FlattenSplits(es, f);
    FitsJoin(Flatten(es[..f]), Flatten(es[f..]));
    FitsJoin(r.plan.variables, Moved(r.plan, instrs[..f]));
    FitsJoin(r.plan.declarations, r.plan.variables + Moved(r.plan, instrs[..f]));
    FitsJoin(Flatten(es[..f]), r.plan.declarations + (r.plan.variables + Moved(r.plan, instrs[..f])));
    FitsJoin(Flatten(es[..f]) + (r.plan.declarations + (r.plan.variables + Moved(r.plan, instrs[..f]))),
             Flatten(es[f..]));
  }

  lemma {:induction false} FlattenSplits(es: seq<Expansion>, f: nat)
    requires f <= |es|
    ensures Flatten(es) == Flatten(es[..f]) + Flatten(es[f..])
    decreases |es|
  {
    if f == 0 {
      assert es[..0] == [] && es[0..] == es;
    } else {
      FlattenSplits(es[1..], f - 1);
      assert es[..f][1..] == es[1..][..f - 1] && es[1..][f - 1..] == es[f..];
    }
  }

  // ----- What the specialized module means

  /** The state in which the specialized module starts: that of the original with the declared constants defined. */
  function Begun(plan: Plan, s: State): State {
    if plan.blended == 0 then s else s.(env := s.env[plan.zero := [0]][plan.one := [FLOAT_ONE]])
  }

  lemma BegunAlike(plan: Plan, limit: nat, bound: nat, s: State)
    requires PlanIds(plan, limit, bound) && (plan.blended != 0 ==> plan.blended !in s.memory)
    ensures Sim(plan, limit, s, Begun(plan, s))
  {
  }

  /** From any state with nothing stored in the blended output, along every path through the functions, the specialized
      module leaves the bits the original leaves in every output, except that the blended output and the one beside it
      hold the colors the route code selects. */
  lemma SpecializedMeans(words: seq<nat>, constants: seq<Constant>, specialized: set<nat>, instrs: seq<Instr>,
                         request: Request, others: Others, path: seq<nat>, s: State)
    requires Requested(constants) == Some(request) && |words| > HEADER && Words32(words)
             && Parse(words[HEADER..]) == Some(instrs)
    requires Specialized(words, constants, specialized).Some?
    requires MakePlan(ScanAll(instrs), request, specialized, words[3]).Ready?
             && Bounded(ScanAll(instrs), instrs, words[3])
    requires request.packed != {} || request.dualSource || request.reversed != 0
    requires var plan := MakePlan(ScanAll(instrs), request, specialized, words[3]).plan;
             && Local(others, plan, words[3], instrs) && (plan.blended != 0 ==> plan.blended !in s.memory)
             && forall k :: 0 <= k < |path| ==> path[k] < |instrs| && Body(plan, words[3], instrs[path[k]])
    ensures var r := MakePlan(ScanAll(instrs), request, specialized, words[3]);
            var es := Expansions(ExpanderOf(r.plan), instrs, r.bound);
            && Specialized(words, constants, specialized).value[HEADER..] ==
               StreamWords(Assembled(r.plan, instrs, es, FirstFunction(instrs)))
            && Sim(r.plan, words[3], RunPath(others, words[3], Originals(instrs), path, s),
                   RunPath(others, words[3], Blocks(es), path, Begun(r.plan, s)))
  {
    var r, limit := MakePlan(ScanAll(instrs), request, specialized, words[3]), words[3];
    var expand := ExpanderOf(r.plan);
    SpecializedModule(words, constants, specialized, instrs, request);
    forall i, bound: nat | i in instrs && limit <= bound ensures Consecutive(expand(i, bound), bound, limit) {
      ExpandIds(r.plan, i, bound, limit);
    }
    BegunAlike(r.plan, limit, r.bound, s);
    PathMeans(others, r.plan, instrs, limit, r.bound, path, s, Begun(r.plan, s));
    AfterHeader(words[..HEADER][3 := FinalBound(expand, instrs, r.bound)],
                StreamWords(Assembled(r.plan, instrs, Expansions(expand, instrs, r.bound), FirstFunction(instrs))));
  }

  lemma AfterHeader(header: seq<nat>, rest: seq<nat>)
    requires |header| == HEADER
    ensures (header + rest)[HEADER..] == rest
  {
  }
}
