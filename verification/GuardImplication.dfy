/** The syntactic guard prover. A guard is a boolean value, or None for "always". */
module GuardImplication {
  import opened Wrappers
  import opened ShaderIr

  type Guard = Option<nat>

  predicate Known(p: Program, g: Guard) { g.Some? ==> g.value < |p.values| }

  /** Is the guard literally `expected`? No guard counts as literally true. */
  predicate Boolean(p: Program, g: Guard, expected: bool)
    requires Known(p, g)
  {
    if g.None? then expected
    else
      var n := p.values[g.value];
      n.ty.Bool? && n.immediate.Some? && (n.immediate.value != 0) == expected
  }

  predicate Implies(p: Program, left: Guard, right: Guard, depth: nat := 0)
    requires WellFormed(p) && Known(p, left) && Known(p, right)
    decreases 33 - depth
  {
    if depth > 32 then false
    else if left == right || Boolean(p, left, false) || Boolean(p, right, true) then true
    else if left.None? || right.None? then false
    else
      var a, b := p.values[left.value], p.values[right.value];
      if a.opcode.LogicalAnd? then
        Implies(p, Some(a.arguments[0]), right, depth + 1) || Implies(p, Some(a.arguments[1]), right, depth + 1)
      else if b.opcode.LogicalAnd? then
        Implies(p, left, Some(b.arguments[0]), depth + 1) && Implies(p, left, Some(b.arguments[1]), depth + 1)
      else if a.opcode.LogicalOr? then
        Implies(p, Some(a.arguments[0]), right, depth + 1) && Implies(p, Some(a.arguments[1]), right, depth + 1)
      else if b.opcode.LogicalOr? then
        Implies(p, left, Some(b.arguments[0]), depth + 1) || Implies(p, left, Some(b.arguments[1]), depth + 1)
      else false
  }

  /** The guard is computed by the lane. */
  ghost predicate Computed(w: Wave, l: Lane, g: Guard) { g.Some? ==> w.runs(l, g.value) }

  ghost predicate True(w: Wave, l: Lane, g: Guard) { g.Some? ==> Holds(w, l, g.value) }

  /** What the logical opcodes and boolean immediates mean to one lane: a boolean valuation. */
  ghost predicate BooleanModel(p: Program, w: Wave, l: Lane) {
    forall v: nat :: w.runs(l, v) && v < |p.values| ==> BooleanValue(p.values[v], w, l, v)
  }

  ghost predicate BooleanValue(n: IrValue, w: Wave, l: Lane, v: nat) {
    && (n.immediate.Some? && n.ty.Bool? ==> (Holds(w, l, v) <==> n.immediate.value != 0))
    && ((n.opcode.LogicalAnd? || n.opcode.LogicalOr?) && |n.arguments| == 2 ==>
          w.runs(l, n.arguments[0]) && w.runs(l, n.arguments[1]))
    && (n.opcode.LogicalAnd? && |n.arguments| == 2 ==>
          (Holds(w, l, v) <==> Holds(w, l, n.arguments[0]) && Holds(w, l, n.arguments[1])))
    && (n.opcode.LogicalOr? && |n.arguments| == 2 ==>
          (Holds(w, l, v) <==> Holds(w, l, n.arguments[0]) || Holds(w, l, n.arguments[1])))
  }

  /** Every execution gives each lane such a valuation. */
  lemma ConsistentIsBoolean(p: Program, w: Wave, l: Lane)
    requires WellFormed(p) && Consistent(p, w)
    ensures BooleanModel(p, w, l)
  {
    forall v: nat | w.runs(l, v) && v < |p.values| ensures BooleanValue(p.values[v], w, l, v) {
      assert ArityOk(p.values[v]) && Computes(p, w, l, v);
    }
  }

  /** Under every valuation, a true guard implies only true guards. */
  lemma {:induction false} ImpliesSound(p: Program, w: Wave, l: Lane, left: Guard, right: Guard, depth: nat)
    requires WellFormed(p) && BooleanModel(p, w, l)
    requires Known(p, left) && Known(p, right) && Computed(w, l, left) && Computed(w, l, right)
    requires Implies(p, left, right, depth) && True(w, l, left)
    ensures True(w, l, right)
    decreases 33 - depth
  {
    if left != right && !Boolean(p, left, false) && !Boolean(p, right, true) {
      var a, b := p.values[left.value], p.values[right.value];
      assert ArityOk(a) && ArityOk(b);
      if a.opcode.LogicalAnd? {
        var i := if Implies(p, Some(a.arguments[0]), right, depth + 1) then 0 else 1;
        ImpliesSound(p, w, l, Some(a.arguments[i]), right, depth + 1);
      } else if b.opcode.LogicalAnd? {
        ImpliesSound(p, w, l, left, Some(b.arguments[0]), depth + 1);
        ImpliesSound(p, w, l, left, Some(b.arguments[1]), depth + 1);
      } else if a.opcode.LogicalOr? {
        var i := if Holds(w, l, a.arguments[0]) then 0 else 1;
        ImpliesSound(p, w, l, Some(a.arguments[i]), right, depth + 1);
      } else {
        var i := if Implies(p, left, Some(b.arguments[0]), depth + 1) then 0 else 1;
        ImpliesSound(p, w, l, left, Some(b.arguments[i]), depth + 1);
      }
    }
  }

  /** `GuardImplies` lives outside this model; all that is asked of its answers is that they are right. */
  type Oracle = (nat, nat) -> bool

  predicate GuardImplies(oracle: Oracle, condition: Guard, consequence: Guard) {
    condition.Some? && consequence.Some? && oracle(condition.value, consequence.value)
  }

  ghost predicate OracleSound(w: Wave, l: Lane, oracle: Oracle) {
    forall c: nat, q: nat :: oracle(c, q) && w.runs(l, c) && w.runs(l, q) && Holds(w, l, c) ==> Holds(w, l, q)
  }
}
