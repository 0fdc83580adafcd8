/** What rewritten code means. Values are bit patterns; what instructions other than stores do is a parameter. */
module FragmentMeaning {
  import opened Powers
  import opened Spirv
  import opened FragmentPlan
  import opened FragmentOutputs

  /** A value as its 32-bit words. */
  type Value = seq<nat>

  /** Values of ids, and what the variables hold. */
  datatype State = State(env: map<nat, Value>, memory: map<nat, Value>)

  function Of(m: map<nat, Value>, id: nat): Value { if id in m then m[id] else [] }

  function Component(v: Value, k: nat): nat { if k < |v| then v[k] else 0 }

  /** What an instruction of the original module does, stores aside. */
  type Others = (Instr, State) -> State

  /** One instruction. Those that define an id from `limit` on are new: a bit cast, an extraction or a construction. */
  function Run1(others: Others, limit: nat, i: Instr, s: State): State {
    if i.op == OpStore && Count(i) >= 3 then s.(memory := s.memory[Operand(i, 1) := Of(s.env, Operand(i, 2))])
    else if Operand(i, 2) >= limit && i.op == OpBitcast then Defined(s, i, Of(s.env, Operand(i, 3)))
    else if Operand(i, 2) >= limit && i.op == OpCompositeExtract
    then Defined(s, i, [Component(Of(s.env, Operand(i, 3)), Operand(i, 4))])
    else if Operand(i, 2) >= limit && i.op == OpCompositeConstruct then
      Defined(s, i, Of(s.env, Operand(i, 3)) + Of(s.env, Operand(i, 4)) + Of(s.env, Operand(i, 5))
              + Of(s.env, Operand(i, 6)))
    else others(i, s)
  }

  function Defined(s: State, i: Instr, v: Value): State { s.(env := s.env[Operand(i, 2) := v]) }

  function Run(others: Others, limit: nat, instrs: seq<Instr>, s: State): State
    decreases |instrs|
  {
    if instrs == [] then s else Run(others, limit, instrs[1..], Run1(others, limit, instrs[0], s))
  }

  /** The component that a route selects from a color. */
  function Selected(route: nat, v: Value, k: nat): nat {
    if route == 0 then Component(v, k) else if route == 1 then Component(v, 0) else if route == 2 then 0 else FLOAT_ONE
  }

  /** `now` is the color `v` routed by the four routes from `shift` on, counted in pairs of bits. */
  ghost predicate IsRouted(code: nat, shift: nat, v: Value, now: Value) {
    forall k: nat :: k < 4 ==> Component(now, k) == Selected(code / Power(4, shift + k) % 4, v, k)
  }

  /** The same by the routes as the rewriting counts them off. */
  ghost predicate ByRoutes(code: nat, shift: nat, v: Value, now: Value) {
    forall k: nat :: k < 4 ==> Component(now, k) == Selected(Route(code, shift + k), v, k)
  }

  lemma RoutesAreBits(code: nat, shift: nat, v: Value, now: Value)
    requires ByRoutes(code, shift, v, now)
    ensures IsRouted(code, shift, v, now)
  {
    forall k: nat | k < 4 ensures Component(now, k) == Selected(code / Power(4, shift + k) % 4, v, k) {
      RouteIs(code, shift + k);
    }
  }

  lemma {:induction false} RouteIs(code: nat, k: nat)
    ensures Route(code, k) == code / Power(4, k) % 4
  {
    if k > 0 {
      RouteIs(code / 4, k - 1);
      DividedTwice(code, 4, Power(4, k - 1));
    }
  }

  /** Only the blended output and the one beside it may differ. */
  ghost predicate Agree(plan: Plan, limit: nat, s: State, t: State) {
    && (forall id: nat :: id < limit ==> Of(s.env, id) == Of(t.env, id))
    && (forall v: nat :: v < limit && (plan.blended == 0 || v != plan.blended) ==> Of(s.memory, v) == Of(t.memory, v))
  }

  /** The states of the two modules: packed outputs hold the same bits, the blended ones the routed color. */
  ghost predicate Sim(plan: Plan, limit: nat, s: State, t: State) {
    Agree(plan, limit, s, t) && (plan.blended != 0 ==> BlendSim(plan, s, t))
  }

  ghost predicate BlendSim(plan: Plan, s: State, t: State) {
    && Of(t.env, plan.zero) == [0] && Of(t.env, plan.one) == [FLOAT_ONE]
    && (plan.blended in s.memory ==>
          IsRouted(plan.reversed, 4, Of(s.memory, plan.blended), Of(t.memory, plan.blended))
          && IsRouted(plan.reversed, 8, Of(s.memory, plan.blended), Of(t.memory, plan.secondColor)))
  }

  predicate Mentions(i: Instr, ids: set<nat>) { exists k :: 0 <= k < |i.operands| && i.operands[k] in ids }

  /** Guarded outputs are operands only of stores, of their variables, and of decorations, names and entry points. */
  ghost predicate Discreet(plan: Plan, code: seq<Instr>) {
    forall i <- code ::
      Mentions(i, Guarded(plan)) ==> i.op == OpStore || i.op == OpVariable || i.op == OpDecorate || i.op == OpName
                                     || i.op == OpEntryPoint
  }

  /** The other instructions of the module neither see nor touch what is new, nor the guarded outputs, which they do not
      have as operands. */
  ghost predicate Local(others: Others, plan: Plan, limit: nat, code: seq<Instr>) {
    && Discreet(plan, code)
    && forall i, s, t :: i in code && Plain(plan, i) && !Mentions(i, Guarded(plan)) && Agree(plan, limit, s, t) ==>
       LocalOn(others, plan, limit, i, s, t)
  }

  /** An instruction that is left as it is. */
  ghost predicate Plain(plan: Plan, i: Instr) {
    !(i.op == OpStore && Count(i) >= 3) && !UsesPointer(i, Guarded(plan))
  }

  ghost predicate LocalOn(others: Others, plan: Plan, limit: nat, i: Instr, s: State, t: State) {
    Agree(plan, limit, others(i, s), others(i, t)) && Untouched(plan, limit, s, others(i, s))
      && Untouched(plan, limit, t, others(i, t))
  }

  ghost predicate Untouched(plan: Plan, limit: nat, s: State, s': State) {
    && (forall id: nat :: id >= limit ==> Of(s'.env, id) == Of(s.env, id) && Of(s'.memory, id) == Of(s.memory, id))
    && (plan.blended != 0 ==> Of(s'.memory, plan.blended) == Of(s.memory, plan.blended)
                              && (plan.blended in s'.memory <==> plan.blended in s.memory))
  }

  /** The ids the plan adds lie between the module's bound and the rewriting's. */
  ghost predicate PlanIds(plan: Plan, limit: nat, bound: nat) {
    && limit <= bound && (forall v <- plan.retyped :: v < limit)
    && (plan.blended != 0 ==>
          plan.blended < limit && plan.blended !in plan.retyped
          && limit <= plan.zero < bound && limit <= plan.one < bound && limit <= plan.secondColor < bound
          && plan.zero != plan.one)
  }

  /** An instruction of a function body that defines and uses ids of the module. */
  ghost predicate Body(plan: Plan, limit: nat, i: Instr) {
    && i.op != OpDecorate && i.op != OpName && i.op != OpEntryPoint
    && (i.op == OpVariable ==> !Mentions(i, Guarded(plan))) && !IsPackedVariable(plan, i)
    && (i.op == OpBitcast || i.op == OpCompositeExtract || i.op == OpCompositeConstruct ==> Operand(i, 2) < limit)
    && (i.op == OpStore ==> Count(i) >= 3 && Operand(i, 1) < limit && Operand(i, 2) < limit)
  }

  // ----- Runs

  lemma {:induction false} RunJoins(others: Others, limit: nat, a: seq<Instr>, b: seq<Instr>, s: State)
    ensures Run(others, limit, a + b, s) == Run(others, limit, b, Run(others, limit, a, s))
    decreases |a|
  {
    if a == [] {
      assert a + b == b;
    } else {
      assert (a + b)[1..] == a[1..] + b;
      RunJoins(others, limit, a[1..], b, Run1(others, limit, a[0], s));
    }
  }

  lemma RunOne(others: Others, limit: nat, i: Instr, s: State)
    ensures Run(others, limit, [i], s) == Run1(others, limit, i, s)
  {
    var one := [i];
    assert one[1..] == [];
  }

  lemma RunFirst(others: Others, limit: nat, i: Instr, rest: seq<Instr>, s: State)
    ensures Run(others, limit, [i] + rest, s) == Run(others, limit, rest, Run1(others, limit, i, s))
  {
    RunJoins(others, limit, [i], rest, s);
    RunOne(others, limit, i, s);
  }

  // ----- Packed stores

  /** Storing `color` under a packed output. */
  lemma PackedStoreRuns(others: Others, plan: Plan, limit: nat, bound: nat, i: Instr, t: State)
    requires limit <= bound < MAX_ID && IsPackedStore(plan, i)
    ensures Run(others, limit, PackedStore(plan, i, bound).instrs, t) ==
            State(t.env[bound := Of(t.env, Operand(i, 2))], t.memory[Operand(i, 1) := Of(t.env, Operand(i, 2))])
  {
    var cast := Instr(OpBitcast, [plan.vectorType, bound, Operand(i, 2)]);
    var store := Instr(OpStore, i.operands[1 := bound]);
    assert [cast, store] == [cast] + [store];
    RunFirst(others, limit, cast, [store], t);
    RunOne(others, limit, store, Run1(others, limit, cast, t));
  }

  /** A packed output receives the same bits. */
  lemma PackedStoreMeans(others: Others, plan: Plan, limit: nat, bound: nat, i: Instr, s: State, t: State)
    requires Sim(plan, limit, s, t) && PlanIds(plan, limit, bound) && Body(plan, limit, i) && IsPackedStore(plan, i)
             && bound < MAX_ID
    ensures Sim(plan, limit, Run1(others, limit, i, s), Run(others, limit, PackedStore(plan, i, bound).instrs, t))
  {
    PackedStoreRuns(others, plan, limit, bound, i, t);
    var v := Of(t.env, Operand(i, 2));
    StoredAgree(plan, limit, bound, Operand(i, 1), v, s, t);
  }

  /** Writing one value under one variable on both sides, and a new id on one of them. */
  lemma StoredAgree(plan: Plan, limit: nat, bound: nat, variable: nat, v: Value, s: State, t: State)
    requires Sim(plan, limit, s, t) && PlanIds(plan, limit, bound) && variable < limit
             && (plan.blended == 0 || variable != plan.blended)
    ensures Sim(plan, limit, State(s.env, s.memory[variable := v]), State(t.env[bound := v], t.memory[variable := v]))
  {
    var s', t' := State(s.env, s.memory[variable := v]), State(t.env[bound := v], t.memory[variable := v]);
    forall id: nat | id < limit ensures Of(s'.env, id) == Of(t'.env, id) { assert Of(s.env, id) == Of(t.env, id); }
    forall w: nat | w < limit && (plan.blended == 0 || w != plan.blended) ensures Of(s'.memory, w) == Of(t'.memory, w) {
      assert Of(s.memory, w) == Of(t.memory, w);
    }
  }

  // ----- Blended stores

  /** Components from `source` on are those of `v`, and the constants are there. */
  ghost predicate Sources(plan: Plan, source: nat, v: Value, t: State) {
    && (forall k: nat :: k < 4 ==> Of(t.env, source + k) == [Component(v, k)])
    && Of(t.env, plan.zero) == [0] && Of(t.env, plan.one) == [FLOAT_ONE]
  }

  function WithComponents(t: State, source: nat, v: Value): State {
    t.(env := t.env[source := [Component(v, 0)]][source + 1 := [Component(v, 1)]][source + 2 :=
        [Component(v, 2)]][source + 3 := [Component(v, 3)]])
  }

  lemma ExtractsRun(others: Others, plan: Plan, limit: nat, bound: nat, color: nat, t: State)
    requires color < limit <= bound
    ensures Run(others, limit, Extracts(plan, color, bound), t) == WithComponents(t, bound, Of(t.env, color))
  {
    var e0, e1, e2, e3 := Extract(plan, bound, color, 0), Extract(plan, bound, color, 1),
        Extract(plan, bound, color, 2), Extract(plan, bound, color, 3);
    assert Extracts(plan, color, bound) == [e0] + ([e1] + ([e2] + [e3]));
    var t1 := Run1(others, limit, e0, t);
    var t2 := Run1(others, limit, e1, t1);
    var t3 := Run1(others, limit, e2, t2);
    RunFirst(others, limit, e0, [e1] + ([e2] + [e3]), t);
    RunFirst(others, limit, e1, [e2] + [e3], t1);
    RunFirst(others, limit, e2, [e3], t2);
    RunOne(others, limit, e3, t3);
  }

  lemma ComponentsThere(plan: Plan, limit: nat, source: nat, v: Value, t: State)
    requires plan.zero < source && plan.one < source && Of(t.env, plan.zero) == [0]
             && Of(t.env, plan.one) == [FLOAT_ONE]
    ensures Sources(plan, source, v, WithComponents(t, source, v))
  {
  }

  lemma PickMeans(plan: Plan, source: nat, v: Value, t: State, route: nat, k: nat)
    requires Sources(plan, source, v, t) && k < 4
    ensures Of(t.env, Pick(plan, route, source, k)) == [Selected(route, v, k)]
  {
    assert Of(t.env, source + 0) == [Component(v, 0)];
  }

  function RoutedColor(code: nat, shift: nat, v: Value): Value {
    [Selected(Route(code, shift), v, 0), Selected(Route(code, shift + 1), v, 1), Selected(Route(code, shift + 2), v, 2),
     Selected(Route(code, shift + 3), v, 3)]
  }

  lemma RoutedColorRouted(code: nat, shift: nat, v: Value)
    ensures ByRoutes(code, shift, v, RoutedColor(code, shift, v))
  {
    forall k: nat | k < 4 ensures Component(RoutedColor(code, shift, v), k) == Selected(Route(code, shift + k), v, k) {
      assert k == 0 || k == 1 || k == 2 || k == 3;
    }
  }

  /** The constructed color is the routed one. */
  lemma RoutedRuns(others: Others, plan: Plan, limit: nat, shift: nat, source: nat, id: nat, v: Value, t: State)
    requires limit <= id && Sources(plan, source, v, t)
    ensures Run1(others, limit, Routed(plan, shift, source, id), t) ==
            t.(env := t.env[id := RoutedColor(plan.reversed, shift, v)])
  {
    PickMeans(plan, source, v, t, Route(plan.reversed, shift), 0);
    PickMeans(plan, source, v, t, Route(plan.reversed, shift + 1), 1);
    PickMeans(plan, source, v, t, Route(plan.reversed, shift + 2), 2);
    PickMeans(plan, source, v, t, Route(plan.reversed, shift + 3), 3);
    var i := Routed(plan, shift, source, id);
    assert Operand(i, 2) == id && Operand(i, 3) == Pick(plan, Route(plan.reversed, shift), source, 0);
    assert Of(t.env, Operand(i, 3)) + Of(t.env, Operand(i, 4)) + Of(t.env, Operand(i, 5)) + Of(t.env, Operand(i, 6)) ==
        RoutedColor(plan.reversed, shift, v);
  }

  lemma RouteShifts(code: nat, k: nat)
    ensures Route(code, COLOR + k) == Route(code / 256, k)
  {
    assert Route(code, 4 + k) == Route(code / 4, 3 + k) == Route(code / 4 / 4, 2 + k) ==
        Route(code / 4 / 4 / 4, 1 + k) == Route(code / 4 / 4 / 4 / 4, k);
    assert code / 4 / 4 / 4 / 4 == code / 256;
  }

  /** The low four routes of a multiple of 256 are zero. */
  lemma {:induction false} NoRoutes(d: nat, scale: nat, k: nat)
    requires (scale == 4 || scale == 16 || scale == 64 || scale == 256)
             && (k == 0 || (k == 1 && scale > 4) || (k == 2 && scale > 16) || (k == 3 && scale > 64))
    ensures Route(scale * d, k) == 0
    decreases k
  {
    if scale == 4 { assert (4 * d) % 4 == 0; }
    if scale == 16 { assert (16 * d) % 4 == 0 && (16 * d) / 4 == 4 * d; }
    if scale == 64 { assert (64 * d) % 4 == 0 && (64 * d) / 4 == 16 * d; }
    if scale == 256 { assert (256 * d) % 4 == 0 && (256 * d) / 4 == 64 * d; }
    if k > 0 { NoRoutes(d, scale / 4, k - 1); }
  }

  /** A code whose color routes are all zero selects the color itself. */
  lemma OwnRoutes(plan: Plan, v: Value)
    requires !ColorRouted(plan)
    ensures ByRoutes(plan.reversed, COLOR, v, v)
  {
    var c := plan.reversed / 256;
    assert c == 256 * (c / 256);
    forall k: nat | k < 4 ensures Component(v, k) == Selected(Route(plan.reversed, COLOR + k), v, k) {
      RouteShifts(plan.reversed, k);
      NoRoutes(c / 256, 256, k);
    }
  }

  /** The state after the second color is stored. */
  function WithSecond(plan: Plan, bound: nat, v: Value, t: State): State {
    var second := RoutedColor(plan.reversed, SECOND, v);
    State(WithComponents(t, bound, v).env[bound + 4 := second], t.memory[plan.secondColor := second])
  }

  /** The state after the color itself is stored. */
  function WithColor(plan: Plan, bound: nat, v: Value, t: State): State {
    if ColorRouted(plan) then
      var color := RoutedColor(plan.reversed, COLOR, v);
      State(t.env[bound + 5 := color], t.memory[plan.blended := color])
    else t.(memory := t.memory[plan.blended := v])
  }

  /** The components, the second color and its store. */
  function SecondStore(plan: Plan, color: nat, bound: nat): seq<Instr> {
    Extracts(plan, color, bound) + [Routed(plan, SECOND, bound, bound + 4),
                                    Instr(OpStore, [plan.secondColor, bound + 4])]
  }

  lemma SecondRuns(others: Others, plan: Plan, limit: nat, bound: nat, color: nat, t: State)
    requires limit <= bound && color < limit && plan.zero < bound && plan.one < bound
    requires Of(t.env, plan.zero) == [0] && Of(t.env, plan.one) == [FLOAT_ONE]
    ensures Run(others, limit, SecondStore(plan, color, bound), t) == WithSecond(plan, bound, Of(t.env, color), t)
  {
    var v := Of(t.env, color);
    var construct, store := Routed(plan, SECOND, bound, bound + 4), Instr(OpStore, [plan.secondColor, bound + 4]);
    var t1 := WithComponents(t, bound, v);
    ExtractsRun(others, plan, limit, bound, color, t);
    ComponentsThere(plan, limit, bound, v, t);
    RoutedRuns(others, plan, limit, SECOND, bound, bound + 4, v, t1);
    assert [construct, store] == [construct] + [store];
    RunJoins(others, limit, Extracts(plan, color, bound), [construct, store], t);
    RunFirst(others, limit, construct, [store], t1);
    RunOne(others, limit, store, t1.(env := t1.env[bound + 4 := RoutedColor(plan.reversed, SECOND, v)]));
  }

  lemma SecondSources(plan: Plan, bound: nat, v: Value, t: State)
    requires plan.zero < bound && plan.one < bound && Of(t.env, plan.zero) == [0] && Of(t.env, plan.one) == [FLOAT_ONE]
    ensures Sources(plan, bound, v, WithSecond(plan, bound, v, t))
  {
    ComponentsThere(plan, 0, bound, v, t);
    forall k: nat | k < 4 ensures Of(WithSecond(plan, bound, v, t).env, bound + k) == [Component(v, k)] {
      assert Of(WithComponents(t, bound, v).env, bound + k) == [Component(v, k)];
    }
  }

  /** What follows the second store. */
  function ColorStore(plan: Plan, i: Instr, bound: nat): seq<Instr>
    requires Count(i) >= 3
  {
    if ColorRouted(plan) then [Routed(plan, COLOR, bound, bound + 5), Instr(OpStore, i.operands[1 := bound + 5])]
    else [i]
  }

  lemma ColorRuns(others: Others, plan: Plan, limit: nat, bound: nat, i: Instr, v: Value, t: State)
    requires limit <= bound && IsBlendedStore(plan, i) && Sources(plan, bound, v, t) && Of(t.env, Operand(i, 2)) == v
    ensures Run(others, limit, ColorStore(plan, i, bound), t) == WithColor(plan, bound, v, t)
  {
    if ColorRouted(plan) {
      var recolor, last := Routed(plan, COLOR, bound, bound + 5), Instr(OpStore, i.operands[1 := bound + 5]);
      RoutedRuns(others, plan, limit, COLOR, bound, bound + 5, v, t);
      assert [recolor, last] == [recolor] + [last];
      RunFirst(others, limit, recolor, [last], t);
      RunOne(others, limit, last, t.(env := t.env[bound + 5 := RoutedColor(plan.reversed, COLOR, v)]));
    } else {
      RunOne(others, limit, i, t);
    }
  }

  /** Both stores of a blended color. */
  lemma BlendedStoreRuns(others: Others, plan: Plan, limit: nat, bound: nat, i: Instr, t: State)
    requires PlanIds(plan, limit, bound) && IsBlendedStore(plan, i) && Operand(i, 2) < limit
             && BlendedStore(plan, i, bound).Expansion?
    requires Of(t.env, plan.zero) == [0] && Of(t.env, plan.one) == [FLOAT_ONE]
    ensures var v := Of(t.env, Operand(i, 2));
            Run(others, limit, BlendedStore(plan, i, bound).instrs, t) ==
                WithColor(plan, bound, v, WithSecond(plan, bound, v, t))
  {
    var v := Of(t.env, Operand(i, 2));
    assert BlendedStore(plan, i, bound).instrs == SecondStore(plan, Operand(i, 2), bound) + ColorStore(plan, i, bound);
    RunJoins(others, limit, SecondStore(plan, Operand(i, 2), bound), ColorStore(plan, i, bound), t);
    SecondRuns(others, plan, limit, bound, Operand(i, 2), t);
    SecondSources(plan, bound, v, t);
    ColorRuns(others, plan, limit, bound, i, v, WithSecond(plan, bound, v, t));
  }

  /** The pair of stores leaves the routed colors in the blended output and the one beside it, and nothing else
      changed. */
  lemma BlendedStoreMeans(others: Others, plan: Plan, limit: nat, bound: nat, i: Instr, s: State, t: State)
    requires Sim(plan, limit, s, t) && PlanIds(plan, limit, bound) && Body(plan, limit, i)
    requires IsBlendedStore(plan, i) && BlendedStore(plan, i, bound).Expansion?
    ensures Sim(plan, limit, Run1(others, limit, i, s), Run(others, limit, BlendedStore(plan, i, bound).instrs, t))
  {
    BlendedStoreRuns(others, plan, limit, bound, i, t);
    var v := Of(t.env, Operand(i, 2));
    assert Of(s.env, Operand(i, 2)) == v;
    RoutedColorRouted(plan.reversed, SECOND, v);
    RoutedColorRouted(plan.reversed, COLOR, v);
    RoutesAreBits(plan.reversed, SECOND, v, RoutedColor(plan.reversed, SECOND, v));
    RoutesAreBits(plan.reversed, COLOR, v, RoutedColor(plan.reversed, COLOR, v));
    if !ColorRouted(plan) {
      OwnRoutes(plan, v);
      RoutesAreBits(plan.reversed, COLOR, v, v);
    }
    BlendedAgree(plan, limit, bound, v, s, t);
  }

  lemma BlendedAgree(plan: Plan, limit: nat, bound: nat, v: Value, s: State, t: State)
    requires Agree(plan, limit, s, t) && PlanIds(plan, limit, bound) && plan.blended != 0
    requires Of(t.env, plan.zero) == [0] && Of(t.env, plan.one) == [FLOAT_ONE]
    ensures var t' := WithColor(plan, bound, v, WithSecond(plan, bound, v, t));
            && Agree(plan, limit, s.(memory := s.memory[plan.blended := v]), t')
            && Of(t'.env, plan.zero) == [0] && Of(t'.env, plan.one) == [FLOAT_ONE]
            && Of(t'.memory, plan.secondColor) == RoutedColor(plan.reversed, SECOND, v)
            && Of(t'.memory, plan.blended) == if ColorRouted(plan) then RoutedColor(plan.reversed, COLOR, v) else v
  {
    var t' := WithColor(plan, bound, v, WithSecond(plan, bound, v, t));
    var s' := s.(memory := s.memory[plan.blended := v]);
    forall id: nat | id < limit ensures Of(s'.env, id) == Of(t'.env, id) { assert Of(s.env, id) == Of(t.env, id); }
    forall w: nat | w < limit && w != plan.blended ensures Of(s'.memory, w) == Of(t'.memory, w) {
      assert Of(s.memory, w) == Of(t.memory, w);
    }
  }

  // ----- Any instruction, any path

  /** One instruction and what it becomes keep the states alike. */
  lemma ExpansionMeans(others: Others, plan: Plan, limit: nat, bound: nat, code: seq<Instr>, i: Instr, s: State,
                       t: State)
    requires Local(others, plan, limit, code) && i in code && Sim(plan, limit, s, t) && PlanIds(plan, limit, bound)
             && Body(plan, limit, i)
    requires Expand(plan, i, bound).Expansion?
    ensures Sim(plan, limit, Run1(others, limit, i, s), Run(others, limit, Expand(plan, i, bound).instrs, t))
  {
    if IsPackedStore(plan, i) {
      PackedStoreMeans(others, plan, limit, bound, i, s, t);
    } else if IsBlendedStore(plan, i) {
      BlendedStoreMeans(others, plan, limit, bound, i, s, t);
    } else {
      RunOne(others, limit, i, t);
      if i.op == OpStore {
        OtherStoreMeans(plan, limit, i, s, t);
      } else {
        assert Plain(plan, i) && !Mentions(i, Guarded(plan));
        assert LocalOn(others, plan, limit, i, s, t);
        PlainMeans(others, plan, limit, bound, i, s, t);
      }
    }
  }

  lemma OtherStoreMeans(plan: Plan, limit: nat, i: Instr, s: State, t: State)
    requires Sim(plan, limit, s, t) && Body(plan, limit, i) && i.op == OpStore && !IsBlendedStore(plan, i)
             && (plan.blended != 0 ==> limit <= plan.secondColor)
    ensures Sim(plan, limit, s.(memory := s.memory[Operand(i, 1) := Of(s.env, Operand(i, 2))]),
                t.(memory := t.memory[Operand(i, 1) := Of(t.env, Operand(i, 2))]))
  {
    var s', t' := s.(memory := s.memory[Operand(i, 1) := Of(s.env, Operand(i, 2))]),
        t.(memory := t.memory[Operand(i, 1) := Of(t.env, Operand(i, 2))]);
    forall id: nat | id < limit ensures Of(s'.env, id) == Of(t'.env, id) { assert Of(s.env, id) == Of(t.env, id); }
    forall w: nat | w < limit && (plan.blended == 0 || w != plan.blended) ensures Of(s'.memory, w) == Of(t'.memory, w) {
      assert Of(s.memory, w) == Of(t.memory, w) && Of(s.env, Operand(i, 2)) == Of(t.env, Operand(i, 2));
    }
  }

  lemma PlainMeans(others: Others, plan: Plan, limit: nat, bound: nat, i: Instr, s: State, t: State)
    requires Sim(plan, limit, s, t) && PlanIds(plan, limit, bound) && LocalOn(others, plan, limit, i, s, t)
    ensures Sim(plan, limit, others(i, s), others(i, t))
  {
    if plan.blended != 0 {
      assert Of(others(i, t).env, plan.zero) == Of(t.env, plan.zero)
          && Of(others(i, t).env, plan.one) == Of(t.env, plan.one);
      assert Of(others(i, t).memory, plan.secondColor) == Of(t.memory, plan.secondColor);
    }
  }
}
