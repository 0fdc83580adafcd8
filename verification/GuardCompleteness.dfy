/** How much the guard prover proves. It says yes only to what is true of every valuation; where the left guard is an OR
of guards that are neither AND nor OR, it also says yes to everything that is, whatever the right guard is made of. An
AND on the left has to imply the right guard with one operand alone, so there it misses some. */
module GuardCompleteness {
  import opened Wrappers
  import opened ShaderIr
  import opened GuardImplication

  /** Whenever the left guard is true, so is the right one. */
  ghost predicate Entails(p: Program, left: Guard, right: Guard) {
    forall w: Wave, l: Lane ::
      BooleanModel(p, w, l) && Computed(w, l, left) && Computed(w, l, right) && True(w, l, left) ==> True(w, l, right)
  }

  type Heights = nat -> nat

  /** Operands lie lower than what uses them. */
  ghost predicate Lies(p: Program, height: Heights) {
    WellFormed(p) && forall v, i :: 0 <= v < |p.values| && 0 <= i < |p.values[v].arguments| ==>
        height(p.values[v].arguments[i]) < height(v)
  }

  predicate IsJunction(n: IrValue) { n.opcode.LogicalAnd? || n.opcode.LogicalOr? }

  lemma JunctionOperands(p: Program, height: Heights, v: nat)
    requires Lies(p, height) && v < |p.values| && IsJunction(p.values[v])
    ensures var a := p.values[v].arguments;
            |a| == 2 && a[0] < |p.values| && a[1] < |p.values| && height(a[0]) < height(v) && height(a[1]) < height(v)
  {
    assert ArityOk(p.values[v]);
  }

  /** An OR, of any depth, of values that are neither AND nor OR. */
  ghost predicate IsDisjunction(p: Program, height: Heights, v: nat)
    requires Lies(p, height) && v < |p.values|
    decreases height(v)
  {
    if p.values[v].opcode.LogicalOr? then
      JunctionOperands(p, height, v);
      IsDisjunction(p, height, p.values[v].arguments[0]) && IsDisjunction(p, height, p.values[v].arguments[1])
    else !p.values[v].opcode.LogicalAnd?
  }

  // ----- The valuation in which nothing is true that need not be

  /** Is a value true when, of all that is neither AND nor OR, only `atom` and the literally true are? */
  ghost predicate Least(p: Program, height: Heights, atom: nat, v: nat)
    requires Lies(p, height) && v < |p.values|
    decreases height(v)
  {
    if IsJunction(p.values[v]) then
      JunctionOperands(p, height, v);
      var x, y := Least(p, height, atom, p.values[v].arguments[0]), Least(p, height, atom, p.values[v].arguments[1]);
      if p.values[v].opcode.LogicalAnd? then x && y else x || y
    else v == atom || Boolean(p, Some(v), true)
  }

  ghost function LeastWave(p: Program, height: Heights, atom: nat): Wave
    requires Lies(p, height)
  {
    Wave((l: Lane, v: nat) => true,
         (l: Lane, v: nat, c: nat) => Truth(v < |p.values| && Least(p, height, atom, v)),
         (l: Lane, b: nat) => 0, (v: nat, l: Lane, k: Lane) => false, (l: Lane) => false)
  }

  lemma LeastHolds(p: Program, height: Heights, atom: nat, v: nat, l: Lane)
    requires Lies(p, height) && v < |p.values|
    ensures Holds(LeastWave(p, height, atom), l, v) <==> Least(p, height, atom, v)
  {
  }

  lemma LeastIsModel(p: Program, height: Heights, atom: nat, l: Lane)
    requires Lies(p, height) && atom < |p.values| && !Boolean(p, Some(atom), false)
    ensures BooleanModel(p, LeastWave(p, height, atom), l)
  {
    var w := LeastWave(p, height, atom);
    forall v: nat | v < |p.values| ensures BooleanValue(p.values[v], w, l, v) {
      assert ArityOk(p.values[v]);
      LeastHolds(p, height, atom, v, l);
      if IsJunction(p.values[v]) {
        JunctionOperands(p, height, v);
        LeastHolds(p, height, atom, p.values[v].arguments[0], l);
        LeastHolds(p, height, atom, p.values[v].arguments[1], l);
      }
    }
  }

  // ----- Completeness

  /** What is not proved is false for one of the disjuncts, when all but that is false that can be. */
  lemma {:induction false} Refutes(p: Program, height: Heights, left: nat, right: nat, depth: nat) returns (atom: nat)
    requires Lies(p, height) && left < |p.values| && right < |p.values| && IsDisjunction(p, height, left)
    requires depth + height(left) + height(right) <= 32 && !Implies(p, Some(left), Some(right), depth)
    ensures atom < |p.values| && !Boolean(p, Some(atom), false)
    ensures Least(p, height, atom, left) && !Least(p, height, atom, right)
    ensures !p.values[left].opcode.LogicalOr? ==> atom == left
    decreases height(left) + height(right)
  {
    var a, b := p.values[left], p.values[right];
    if b.opcode.LogicalAnd? {
      JunctionOperands(p, height, right);
      var i := if Implies(p, Some(left), Some(b.arguments[0]), depth + 1) then 1 else 0;
      atom := Refutes(p, height, left, b.arguments[i], depth + 1);
    } else if a.opcode.LogicalOr? {
      JunctionOperands(p, height, left);
      var i := if Implies(p, Some(a.arguments[0]), Some(right), depth + 1) then 1 else 0;
      atom := Refutes(p, height, a.arguments[i], right, depth + 1);
    } else if b.opcode.LogicalOr? {
      JunctionOperands(p, height, right);
      atom := Refutes(p, height, left, b.arguments[0], depth + 1);
      var same := Refutes(p, height, left, b.arguments[1], depth + 1);
    } else {
      atom := left;
    }
  }

  /** The prover says yes exactly to what every valuation makes true. */
  lemma ImpliesExactly(p: Program, height: Heights, left: nat, right: nat, depth: nat)
    requires Lies(p, height) && left < |p.values| && right < |p.values| && IsDisjunction(p, height, left)
    requires depth + height(left) + height(right) <= 32
    ensures Implies(p, Some(left), Some(right), depth) <==> Entails(p, Some(left), Some(right))
  {
    if Implies(p, Some(left), Some(right), depth) {
      forall w: Wave, l: Lane | BooleanModel(p, w, l) && Computed(w, l, Some(left)) && Computed(w, l, Some(right))
                                && True(w, l, Some(left))
        ensures True(w, l, Some(right))
      {
        ImpliesSound(p, w, l, Some(left), Some(right), depth);
      }
    } else {
      var atom := Refutes(p, height, left, right, depth);
      LeastIsModel(p, height, atom, 0);
      LeastHolds(p, height, atom, left, 0);
      LeastHolds(p, height, atom, right, 0);
      assert BooleanModel(p, LeastWave(p, height, atom), 0);
    }
  }

  function TwoAnds(): Program {
    var atom, both := IrValue(OtherOpcode, Bool, None, [], [], 0, ExportInfo(false, false)),
                      IrValue(LogicalAnd, Bool, None, [0, 1], [], 0, ExportInfo(false, false));
    Program([atom, atom, both, both], [], [], 64)
  }

  lemma AndsEntail()
    ensures WellFormed(TwoAnds()) && Entails(TwoAnds(), Some(2), Some(3))
  {
    var p := TwoAnds();
    forall w: Wave, l: Lane | BooleanModel(p, w, l) && Computed(w, l, Some(2)) && Computed(w, l, Some(3))
                              && True(w, l, Some(2))
      ensures True(w, l, Some(3))
    {
      assert BooleanValue(p.values[2], w, l, 2) && BooleanValue(p.values[3], w, l, 3);
    }
  }

  lemma AndsUnproved()
    requires WellFormed(TwoAnds())
    ensures !Implies(TwoAnds(), Some(2), Some(3))
  {
    var p := TwoAnds();
    assert !Implies(p, Some(0), Some(1), 2) && !Implies(p, Some(1), Some(0), 2);
    assert !Implies(p, Some(0), Some(3), 1) && !Implies(p, Some(1), Some(3), 1);
  }

  /** Two ANDs of the same operands entail each other, but neither is proved from the other. */
  lemma ConjunctionMissed()
    ensures var p := TwoAnds(); WellFormed(p) && Entails(p, Some(2), Some(3)) && !Implies(p, Some(2), Some(3))
  {
    AndsEntail();
    AndsUnproved();
  }
}
