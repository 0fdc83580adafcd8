/** The values a stencil reference export can write: a search through selects, phis and composites, as a recursion. */
module StencilValues {
  import opened Wrappers
  import opened ShaderIr
  import opened GuardImplication
  import opened KeptInvocations

  const MAX_VALUES := 16

  function LowByte(x: bv32): bv32 { x & 0xff }

  /** In every execution, a lane that computes `v` and finds `active` true gets a low byte in `s` as component `c`. */
  ghost predicate Covers(p: Program, oracle: Oracle, active: Guard, v: nat, c: nat, s: set<bv32>) {
    forall w: Wave, l: Lane ::
      Consistent(p, w) && OracleSound(w, l, oracle) && w.runs(l, v) && Computed(w, l, active) && True(w, l, active)
      ==> LowByte(w.word(l, v, c)) in s
  }

  predicate IsSelect(n: IrValue) { (n.opcode.SelectU32? || n.opcode.Select?) && |n.arguments| == 3 }

  lemma ImmediateCovers(p: Program, oracle: Oracle, active: Guard, v: nat)
    requires v < |p.values| && p.values[v].immediate.Some? && p.values[v].ty.U32?
    ensures Covers(p, oracle, active, v, 0, {LowByte(p.values[v].immediate.value)})
  {
    forall w: Wave, l: Lane | Consistent(p, w) && w.runs(l, v)
      ensures w.word(l, v, 0) == p.values[v].immediate.value
    {
      assert Computes(p, w, l, v);
    }
  }

  lemma ConstructCovers(p: Program, oracle: Oracle, active: Guard, v: nat, c: nat, s: set<bv32>)
    requires WellFormed(p) && v < |p.values| && p.values[v].opcode.CompositeConstructU32x4?
             && c < |p.values[v].arguments|
    requires Covers(p, oracle, active, p.values[v].arguments[c], 0, s)
    ensures Covers(p, oracle, active, v, c, s)
  {
    forall w: Wave, l: Lane | Consistent(p, w) && w.runs(l, v)
      ensures w.runs(l, p.values[v].arguments[c]) && w.word(l, v, c) == w.word(l, p.values[v].arguments[c], 0)
    {
      assert Computes(p, w, l, v) && ArityOk(p.values[v]);
    }
  }

  predicate IsExtract(p: Program, n: IrValue) {
    n.opcode.CompositeExtractU32x4? && |n.arguments| == 2 && n.arguments[1] < |p.values|
      && p.values[n.arguments[1]].immediate.Some?
  }

  lemma ExtractCovers(p: Program, oracle: Oracle, active: Guard, v: nat, s: set<bv32>)
    requires WellFormed(p) && v < |p.values| && IsExtract(p, p.values[v])
    requires Covers(p, oracle, active, p.values[v].arguments[0],
                    p.values[p.values[v].arguments[1]].immediate.value as nat, s)
    ensures Covers(p, oracle, active, v, 0, s)
  {
    var n := p.values[v];
    forall w: Wave, l: Lane | Consistent(p, w) && w.runs(l, v)
      ensures w.runs(l, n.arguments[0])
              && w.word(l, v, 0) == w.word(l, n.arguments[0], p.values[n.arguments[1]].immediate.value as nat)
    {
      assert Computes(p, w, l, v) && ArityOk(n);
    }
  }

  /** What a select means to a lane. */
  lemma SelectPicks(p: Program, w: Wave, l: Lane, v: nat)
    requires WellFormed(p) && v < |p.values| && IsSelect(p.values[v]) && Consistent(p, w) && w.runs(l, v)
    ensures var a := p.values[v].arguments;
            && w.runs(l, a[0]) && w.runs(l, a[1]) && w.runs(l, a[2])
            && w.word(l, v, 0) == if Holds(w, l, a[0]) then w.word(l, a[1], 0) else w.word(l, a[2], 0)
  {
    assert Computes(p, w, l, v) && ArityOk(p.values[v]);
  }

  lemma SelectCovers(p: Program, oracle: Oracle, active: Guard, v: nat, left: set<bv32>, right: set<bv32>)
    requires WellFormed(p) && v < |p.values| && IsSelect(p.values[v])
    requires Covers(p, oracle, active, p.values[v].arguments[1], 0, left)
             && Covers(p, oracle, active, p.values[v].arguments[2], 0, right)
    ensures Covers(p, oracle, active, v, 0, left + right)
  {
    forall w: Wave, l: Lane | Consistent(p, w) && OracleSound(w, l, oracle) && w.runs(l, v) && Computed(w, l, active)
        && True(w, l, active)
      ensures LowByte(w.word(l, v, 0)) in left + right
    {
      SelectPicks(p, w, l, v);
    }
  }

  /** When the active guard implies the condition, only the first arm can be picked. */
  lemma GuardedSelectCovers(p: Program, oracle: Oracle, active: Guard, v: nat, s: set<bv32>)
    requires WellFormed(p) && v < |p.values| && IsSelect(p.values[v]) && Known(p, active)
             && p.values[v].arguments[0] < |p.values|
    requires Proves(p, oracle, active, Some(p.values[v].arguments[0]))
    requires Covers(p, oracle, active, p.values[v].arguments[1], 0, s)
    ensures Covers(p, oracle, active, v, 0, s)
  {
    forall w: Wave, l: Lane | Consistent(p, w) && OracleSound(w, l, oracle) && w.runs(l, v) && Computed(w, l, active)
        && True(w, l, active)
      ensures LowByte(w.word(l, v, 0)) in s
    {
      SelectPicks(p, w, l, v);
      ConsistentIsBoolean(p, w, l);
      ProvesSound(p, w, l, oracle, active, Some(p.values[v].arguments[0]));
    }
  }

  lemma PhiCovers(p: Program, oracle: Oracle, active: Guard, v: nat, s: set<bv32>)
    requires WellFormed(p) && v < |p.values| && p.values[v].opcode.Phi?
    requires forall i :: 0 <= i < |p.values[v].arguments| ==> Covers(p, oracle, active, p.values[v].arguments[i], 0, s)
    ensures Covers(p, oracle, active, v, 0, s)
  {
    var n := p.values[v];
    forall w: Wave, l: Lane | Consistent(p, w) && OracleSound(w, l, oracle) && w.runs(l, v) && Computed(w, l, active)
        && True(w, l, active)
      ensures LowByte(w.word(l, v, 0)) in s
    {
      var i := PhiPicks(p, w, l, v);
      assert Covers(p, oracle, active, n.arguments[i], 0, s);
    }
  }

  lemma PhiPicks(p: Program, w: Wave, l: Lane, v: nat) returns (i: nat)
    requires WellFormed(p) && v < |p.values| && p.values[v].opcode.Phi? && Consistent(p, w) && w.runs(l, v)
    ensures i < |p.values[v].arguments| && w.runs(l, p.values[v].arguments[i])
            && w.word(l, v, 0) == w.word(l, p.values[v].arguments[i], 0)
  {
    var n := p.values[v];
    assert Computes(p, w, l, v) && ArityOk(n);
    i :| 0 <= i < |n.phiBlocks| && i < |n.arguments| && n.phiBlocks[i] == w.cameFrom(l, n.parent);
  }

  lemma CoversMore(p: Program, oracle: Oracle, active: Guard, v: nat, c: nat, s: set<bv32>, t: set<bv32>)
    requires Covers(p, oracle, active, v, c, s) && s <= t
    ensures Covers(p, oracle, active, v, c, t)
  {
  }

  // ----- The search as a recursion

  /** The low bytes component `component` (the value itself when None) can have, or None when unknown: too many, too
      deep, around a cycle, or an operator the search does not see through. */
  function Bytes(p: Program, oracle: Oracle, active: Guard, v: nat, depth: nat, component: Option<nat>,
                 visiting: set<nat>): Option<set<bv32>>
    requires WellFormed(p) && v < |p.values| && Known(p, active)
    decreases 65 - depth, 2
  {
    if depth > 64 || v in visiting then None
    else
      var result := BytesOf(p, oracle, active, v, depth, component, visiting + {v});
      if result.Some? && |result.value| > MAX_VALUES then None else result
  }

  function BytesOf(p: Program, oracle: Oracle, active: Guard, v: nat, depth: nat, component: Option<nat>,
                   visiting: set<nat>): Option<set<bv32>>
    requires WellFormed(p) && v < |p.values| && Known(p, active) && depth <= 64
    decreases 65 - depth, 1
  {
    var n := p.values[v];
    assert forall i :: 0 <= i < |n.arguments| ==> n.arguments[i] < |p.values|;
    if component.Some? then
      if n.opcode.CompositeConstructU32x4? && component.value < |n.arguments|
      then Bytes(p, oracle, active, n.arguments[component.value], depth + 1, None, visiting) else None
    else if n.immediate.Some? && n.ty.U32? then Some({LowByte(n.immediate.value)})
    else if IsExtract(p, n) then Bytes(p, oracle, active, n.arguments[0], depth + 1,
                                       Some(p.values[n.arguments[1]].immediate.value as nat), visiting)
    else if IsSelect(n) then
      if active.Some? && Proves(p, oracle, active, Some(n.arguments[0]))
      then Bytes(p, oracle, active, n.arguments[1], depth + 1, None, visiting)
      else Union(Bytes(p, oracle, active, n.arguments[1], depth + 1, None, visiting),
                 Bytes(p, oracle, active, n.arguments[2], depth + 1, None, visiting))
    else if n.opcode.Phi? then BytesOfAll(p, oracle, active, n.arguments, depth, visiting)
    else None
  }

  function Union(left: Option<set<bv32>>, right: Option<set<bv32>>): Option<set<bv32>> {
    if left.None? || right.None? then None else Some(left.value + right.value)
  }

  function BytesOfAll(p: Program, oracle: Oracle, active: Guard, vs: seq<nat>, depth: nat,
                      visiting: set<nat>): Option<set<bv32>>
    requires WellFormed(p) && Known(p, active) && depth <= 64 && forall i :: 0 <= i < |vs| ==> vs[i] < |p.values|
    decreases 65 - depth, 0, |vs|
  {
    if vs == [] then Some({})
    else
      var last := |vs| - 1;
      Union(BytesOfAll(p, oracle, active, vs[..last], depth, visiting),
            Bytes(p, oracle, active, vs[last], depth + 1, None, visiting))
  }

  function Part(component: Option<nat>): nat { if component.Some? then component.value else 0 }

  /** Whatever the search answers covers every execution. */
  lemma {:induction false} BytesCover(p: Program, oracle: Oracle, active: Guard, v: nat, depth: nat,
                                      component: Option<nat>, visiting: set<nat>)
    requires WellFormed(p) && v < |p.values| && Known(p, active)
    ensures var r := Bytes(p, oracle, active, v, depth, component, visiting);
            r.Some? ==> Covers(p, oracle, active, v, Part(component), r.value) && |r.value| <= MAX_VALUES
    decreases 65 - depth, 2
  {
    if Bytes(p, oracle, active, v, depth, component, visiting).Some? {
      BytesOfCover(p, oracle, active, v, depth, component, visiting + {v});
    }
  }

  lemma {:induction false} BytesOfCover(p: Program, oracle: Oracle, active: Guard, v: nat, depth: nat,
                                        component: Option<nat>, visiting: set<nat>)
    requires WellFormed(p) && v < |p.values| && Known(p, active) && depth <= 64
    requires BytesOf(p, oracle, active, v, depth, component, visiting).Some?
    ensures Covers(p, oracle, active, v, Part(component),
                   BytesOf(p, oracle, active, v, depth, component, visiting).value)
    decreases 65 - depth, 1
  {
    var n, r := p.values[v], BytesOf(p, oracle, active, v, depth, component, visiting).value;
    assert forall i :: 0 <= i < |n.arguments| ==> n.arguments[i] < |p.values|;
    if component.Some? {
      BytesCover(p, oracle, active, n.arguments[component.value], depth + 1, None, visiting);
      ConstructCovers(p, oracle, active, v, component.value, r);
    } else if n.immediate.Some? && n.ty.U32? {
      ImmediateCovers(p, oracle, active, v);
    } else if IsExtract(p, n) {
      BytesCover(p, oracle, active, n.arguments[0], depth + 1, Some(p.values[n.arguments[1]].immediate.value as nat),
                 visiting);
      ExtractCovers(p, oracle, active, v, r);
    } else if IsSelect(n) {
      BytesCover(p, oracle, active, n.arguments[1], depth + 1, None, visiting);
      if active.Some? && Proves(p, oracle, active, Some(n.arguments[0])) {
        GuardedSelectCovers(p, oracle, active, v, r);
      } else {
        BytesCover(p, oracle, active, n.arguments[2], depth + 1, None, visiting);
        SelectCovers(p, oracle, active, v, Bytes(p, oracle, active, n.arguments[1], depth + 1, None, visiting).value,
                     Bytes(p, oracle, active, n.arguments[2], depth + 1, None, visiting).value);
      }
    } else {
      BytesOfAllCover(p, oracle, active, n.arguments, depth, visiting);
      PhiCovers(p, oracle, active, v, r);
    }
  }

  lemma {:induction false} BytesOfAllCover(p: Program, oracle: Oracle, active: Guard, vs: seq<nat>, depth: nat,
                                           visiting: set<nat>)
    requires WellFormed(p) && Known(p, active) && depth <= 64 && forall i :: 0 <= i < |vs| ==> vs[i] < |p.values|
    requires BytesOfAll(p, oracle, active, vs, depth, visiting).Some?
    ensures forall i :: 0 <= i < |vs| ==>
            Covers(p, oracle, active, vs[i], 0, BytesOfAll(p, oracle, active, vs, depth, visiting).value)
    decreases 65 - depth, 0, |vs|
  {
    if vs != [] {
      var last, r := |vs| - 1, BytesOfAll(p, oracle, active, vs, depth, visiting).value;
      BytesOfAllCover(p, oracle, active, vs[..last], depth, visiting);
      BytesCover(p, oracle, active, vs[last], depth + 1, None, visiting);
      forall i | 0 <= i < |vs| ensures Covers(p, oracle, active, vs[i], 0, r) {
        if i < last {
          assert vs[..last][i] == vs[i];
          CoversMore(p, oracle, active, vs[i], 0, BytesOfAll(p, oracle, active, vs[..last], depth, visiting).value, r);
        } else {
          CoversMore(p, oracle, active, vs[i], 0, Bytes(p, oracle, active, vs[last], depth + 1, None, visiting).value,
                     r);
        }
      }
    }
  }
}
