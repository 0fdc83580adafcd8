/** Rewriting a fragment module for its output plan, instruction by instruction. */
module FragmentOutputs {
  import opened Wrappers
  import opened Spirv
  import opened FragmentPlan

  // ----- Route codes

  /** Route `k` of a code, counted in pairs of bits. */
  function Route(code: nat, k: nat): nat { if k == 0 then code % 4 else Route(code / 4, k - 1) }

  const COLOR: nat := 4
  const SECOND: nat := 8

  /** The component a route selects: its own, the first, zero or one. */
  function Pick(plan: Plan, route: nat, source: nat, k: nat): nat {
    if route == 0 then source + k else if route == 1 then source else if route == 2 then plan.zero else plan.one
  }

  /** The routed color, from components `source..source + 4`. */
  function Routed(plan: Plan, shift: nat, source: nat, id: nat): Instr {
    Instr(OpCompositeConstruct,
          [plan.colorType, id, Pick(plan, Route(plan.reversed, shift), source, 0),
           Pick(plan, Route(plan.reversed, shift + 1), source, 1),
           Pick(plan, Route(plan.reversed, shift + 2), source, 2),
               Pick(plan, Route(plan.reversed, shift + 3), source, 3)])
  }

  function Extract(plan: Plan, source: nat, color: nat, k: nat): Instr {
    Instr(OpCompositeExtract, [plan.floatType, source + k, color, k])
  }

  predicate ColorRouted(plan: Plan) { plan.reversed / 256 % 256 != 0 }

  // ----- What an instruction becomes

  /** The instructions in its place and the id bound after them. */
  datatype Expansion = Expansion(instrs: seq<Instr>, bound: nat) | Throws

  predicate IsPackedVariable(plan: Plan, i: Instr) {
    i.op == OpVariable && Count(i) >= 3 && Operand(i, 2) in plan.retyped
  }

  predicate IsLocation(i: Instr, id: nat) {
    i.op == OpDecorate && Count(i) == 4 && id != 0 && Operand(i, 1) == id && Operand(i, 2) == DecorationLocation
  }

  predicate IsPackedStore(plan: Plan, i: Instr) { i.op == OpStore && Count(i) >= 3 && Operand(i, 1) in plan.retyped }

  predicate IsBlendedStore(plan: Plan, i: Instr) {
    i.op == OpStore && Count(i) >= 3 && plan.blended != 0 && Operand(i, 1) == plan.blended
  }

  /** Does the instruction use the pointer otherwise than by a whole store? */
  predicate UsesPointer(i: Instr, ids: set<nat>) {
    || ((i.op == OpLoad || i.op == OpAccessChain || i.op == OpInBoundsAccessChain || i.op == OpPtrAccessChain
         || i.op == OpInBoundsPtrAccessChain
         || i.op == OpCopyObject) && Operand(i, 3) in ids)
    || ((i.op == OpCopyMemory || i.op == OpCopyMemorySized) && (Operand(i, 1) in ids || Operand(i, 2) in ids))
  }

  function Guarded(plan: Plan): set<nat> { plan.retyped + if plan.blended != 0 then {plan.blended} else {} }

  function IndexDecorations(id: nat): seq<Instr> {
    [Instr(OpDecorate, [id, DecorationLocation, 0]), Instr(OpDecorate, [id, DecorationIndex, 1])]
  }

  function PackedStore(plan: Plan, i: Instr, bound: nat): Expansion
    requires IsPackedStore(plan, i)
  {
    if bound >= MAX_ID then Throws
    else Expansion([Instr(OpBitcast, [plan.vectorType, bound, Operand(i, 2)]), Instr(OpStore, i.operands[1 := bound])],
                   bound + 1)
  }

  function Extracts(plan: Plan, color: nat, bound: nat): seq<Instr> {
    [Extract(plan, bound, color, 0), Extract(plan, bound, color, 1), Extract(plan, bound, color, 2),
     Extract(plan, bound, color, 3)]
  }

  function BlendedStore(plan: Plan, i: Instr, bound: nat): Expansion
    requires IsBlendedStore(plan, i)
  {
    var color := Operand(i, 2);
    var second := [Routed(plan, SECOND, bound, bound + 4), Instr(OpStore, [plan.secondColor, bound + 4])];
    if bound + 5 > MAX_ID then Throws
    else if !ColorRouted(plan) then Expansion(Extracts(plan, color, bound) + second + [i], bound + 5)
    else if bound + 6 > MAX_ID then Throws
    else Expansion(Extracts(plan, color, bound) + second
                   + [Routed(plan, COLOR, bound, bound + 5), Instr(OpStore, i.operands[1 := bound + 5])], bound + 6)
  }

  function Expand(plan: Plan, i: Instr, bound: nat): Expansion {
    if IsPackedVariable(plan, i) then if Count(i) != 4 then Throws else Expansion([], bound)
    else if IsLocation(i, plan.secondSource) then Expansion(IndexDecorations(plan.secondSource), bound)
    else if IsLocation(i, plan.blended) then Expansion([i] + IndexDecorations(plan.secondColor), bound)
    else if i.op == OpEntryPoint && plan.secondColor != 0
    then Expansion([Instr(OpEntryPoint, i.operands + [plan.secondColor])], bound)
    else if IsPackedStore(plan, i) then PackedStore(plan, i, bound)
    else if IsBlendedStore(plan, i) then BlendedStore(plan, i, bound)
    else if UsesPointer(i, Guarded(plan)) then Throws
    else Expansion([i], bound)
  }

  // ----- The whole module

  /** The instructions so far, the id bound, whether the declarations are in, and the variables that go with them. */
  datatype Pass = Pass(out: seq<Instr>, bound: nat, inserted: bool, variables: seq<Instr>) | Failed

  type Expander = (Instr, nat) -> Expansion

  function ExpanderOf(plan: Plan): Expander { (i: Instr, bound: nat) => Expand(plan, i, bound) }

  function Step(plan: Plan, expand: Expander, pass: Pass, i: Instr): Pass
    requires pass.Pass?
  {
    var e := expand(i, pass.bound);
    if e.Throws? then Failed
    else if IsPackedVariable(plan, i) then pass.(variables := pass.variables + [NewVariable(plan, i)])
    else if i.op == OpFunction && !pass.inserted
    then Pass(pass.out + (plan.declarations + pass.variables) + e.instrs, e.bound, true, pass.variables)
    else pass.(out := pass.out + e.instrs, bound := e.bound)
  }

  /** A packed output's variable with its new type. */
  function NewVariable(plan: Plan, i: Instr): Instr
    requires i.operands != []
  {
    Instr(OpVariable, i.operands[0 := plan.pointerType])
  }

  function Rewrite(plan: Plan, expand: Expander, pass: Pass, instrs: seq<Instr>): Pass
    decreases |instrs|
  {
    if pass.Failed? || instrs == [] then pass
    else Rewrite(plan, expand, Step(plan, expand, pass, instrs[0]), instrs[1..])
  }

  /** What the specializer makes of a module; None where it throws. */
  function Specialized(words: seq<nat>, constants: seq<Constant>, specialized: set<nat>): Option<seq<nat>> {
    match Requested(constants)
    case None => None
    case Some(request) =>
      if request.packed == {} && !request.dualSource && request.reversed == 0 then Some(words)
      else if |words| < HEADER || words[0] != MAGIC then None
      else
        match Parse(words[HEADER..])
        case None => None
        case Some(instrs) =>
          match MakePlan(ScanAll(instrs), request, specialized, words[3])
          case Refused => None
          case Unchanged => Some(words)
          case Ready(plan, bound) =>
            var pass := Rewrite(plan, ExpanderOf(plan), Pass([], bound, false, plan.variables), instrs);
            if pass.Failed? || !pass.inserted then None
            else Some(words[..HEADER][3 := pass.bound] + StreamWords(pass.out))
  }
}
