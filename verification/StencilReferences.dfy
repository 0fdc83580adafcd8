/** The stencil references a program can export, as they are gathered from all its exports. */
module StencilReferences {
  import opened Wrappers
  import opened ShaderIr
  import opened GuardImplication
  import opened KeptInvocations
  import opened StencilValues
  import opened StencilTrails

  // ----- The search as it runs

  class Search {
    const p: Program
    const oracle: Oracle
    var visiting: set<nat>

    constructor (p: Program, oracle: Oracle)
      ensures this.p == p && this.oracle == oracle && visiting == {}
    {
      this.p, this.oracle, visiting := p, oracle, {};
    }

    /** Whatever it finds, the values being visited are as before. */
    method Values(value: nat, depth: nat, component: Option<nat>, active: Guard) returns (result: Option<set<bv32>>)
      requires WellFormed(p) && value < |p.values| && Known(p, active)
      modifies this
      ensures visiting == old(visiting)
      ensures result == Bytes(p, oracle, active, value, depth, component, visiting)
      decreases 65 - depth, 2
    {
      if depth > 64 || value in visiting { return None; }
      visiting := visiting + {value};
      result := Children(value, depth, component, active);
      visiting := visiting - {value};
      if result.Some? && |result.value| > MAX_VALUES { result := None; }
    }

    method Children(value: nat, depth: nat, component: Option<nat>, active: Guard) returns (result: Option<set<bv32>>)
      requires WellFormed(p) && value < |p.values| && Known(p, active) && depth <= 64
      modifies this
      ensures visiting == old(visiting)
      ensures result == BytesOf(p, oracle, active, value, depth, component, visiting)
      decreases 65 - depth, 1
    {
      var n := p.values[value];
      assert forall i :: 0 <= i < |n.arguments| ==> n.arguments[i] < |p.values|;
      if component.Some? {
        if !n.opcode.CompositeConstructU32x4? || component.value >= |n.arguments| { return None; }
        result := Values(n.arguments[component.value], depth + 1, None, active);
        return;
      }
      if n.immediate.Some? && n.ty.U32? { return Some({LowByte(n.immediate.value)}); }
      if IsExtract(p, n) {
        result := Values(n.arguments[0], depth + 1, Some(p.values[n.arguments[1]].immediate.value as nat), active);
        return;
      }
      if n.opcode.SelectU32? || n.opcode.Select? {
        if |n.arguments| != 3 { return None; }
        if active.Some? && Proves(p, oracle, active, Some(n.arguments[0])) {
          result := Values(n.arguments[1], depth + 1, None, active);
          return;
        }
        var left := Values(n.arguments[1], depth + 1, None, active);
        var right := Values(n.arguments[2], depth + 1, None, active);
        return if left.None? || right.None? then None else Some(left.value + right.value);
      }
      if n.opcode.Phi? {
        result := OfPhi(value, depth, active);
        return;
      }
      return None;
    }

    method OfPhi(value: nat, depth: nat, active: Guard) returns (result: Option<set<bv32>>)
      requires WellFormed(p) && value < |p.values| && Known(p, active) && depth <= 64
      requires forall i :: 0 <= i < |p.values[value].arguments| ==> p.values[value].arguments[i] < |p.values|
      modifies this
      ensures visiting == old(visiting)
      ensures result == BytesOfAll(p, oracle, active, p.values[value].arguments, depth, visiting)
      decreases 65 - depth, 0
    {
      var a := p.values[value].arguments;
      var found: set<bv32> := {};
      for i := 0 to |a|
        invariant visiting == old(visiting) && BytesOfAll(p, oracle, active, a[..i], depth, visiting) == Some(found)
      {
        assert a[..i + 1][..i] == a[..i];
        var values := Values(a[i], depth + 1, None, active);
        if values.None? {
          UnknownStays(p, oracle, active, a, i + 1, depth, visiting);
          return None;
        }
        found := found + values.value;
      }
      assert a[..|a|] == a;
      return Some(found);
    }
  }

  lemma {:induction false} UnknownStays(p: Program, oracle: Oracle, active: Guard, vs: seq<nat>, k: nat, depth: nat,
                                        visiting: set<nat>)
    requires WellFormed(p) && Known(p, active) && depth <= 64 && forall i :: 0 <= i < |vs| ==> vs[i] < |p.values|
    requires k <= |vs| && BytesOfAll(p, oracle, active, vs[..k], depth, visiting).None?
    ensures BytesOfAll(p, oracle, active, vs, depth, visiting).None?
    decreases |vs|
  {
    if k == |vs| {
      assert vs[..k] == vs;
    } else {
      assert vs[..|vs| - 1][..k] == vs[..k];
      UnknownStays(p, oracle, active, vs[..|vs| - 1], k, depth, visiting);
    }
  }

  // ----- All exports of a program

  predicate ExportsReference(p: Program, v: nat) { IsExport(p, v) && p.values[v].exportInfo.stencil }

  /** The reference is the second component of what an export writes. */
  function ReferenceOf(p: Program, v: nat): Spot
    requires IsExport(p, v)
  {
    Spot(p.values[v].arguments[0], Some(1))
  }

  /** `v` stands in one of the blocks. */
  ghost predicate Placed(p: Program, v: nat) {
    exists b: nat, i: nat :: b < |p.blocks| && i < |p.blocks[b]| && p.blocks[b][i] == v
  }

  /** An export in some block whose reference is unknown: from it a trail is too long, comes back or gets stuck, or too
      many low bytes are reached. */
  ghost predicate Unknown(p: Program, oracle: Oracle, v: nat)
    requires WellFormed(p)
  {
    && Placed(p, v) && ExportsReference(p, v) && Known(p, ActiveGuard(p, v))
    && !Searchable(p, oracle, ActiveGuard(p, v), ReferenceOf(p, v), 0, {})
  }

  /** An export in some block whose reference can be a constant with low byte `x`. */
  ghost predicate Writes(p: Program, oracle: Oracle, v: nat, x: bv32)
    requires WellFormed(p)
  {
    && Placed(p, v) && ExportsReference(p, v) && Known(p, ActiveGuard(p, v))
    && Reaches(p, oracle, ActiveGuard(p, v), ReferenceOf(p, v), x)
  }

  /** What the search finds for the reference an export writes. */
  function ReferenceBytes(p: Program, oracle: Oracle, v: nat): Option<set<bv32>>
    requires WellFormed(p) && ExportsReference(p, v)
  {
    ExportsKnown(p, v);
    assert forall i :: 0 <= i < |p.values[v].arguments| ==> p.values[v].arguments[i] < |p.values|;
    Bytes(p, oracle, ActiveGuard(p, v), p.values[v].arguments[0], 0, Some(1), {})
  }

  lemma ReferenceExact(p: Program, oracle: Oracle, v: nat)
    requires WellFormed(p) && Placed(p, v) && ExportsReference(p, v)
    ensures ReferenceBytes(p, oracle, v).None? <==> Unknown(p, oracle, v)
    ensures ReferenceBytes(p, oracle, v).Some? ==>
            forall x :: x in ReferenceBytes(p, oracle, v).value <==> Writes(p, oracle, v, x)
  {
    ExportsKnown(p, v);
    assert forall i :: 0 <= i < |p.values[v].arguments| ==> p.values[v].arguments[i] < |p.values|;
    var guard, at := ActiveGuard(p, v), ReferenceOf(p, v);
    BytesExact(p, oracle, guard, at, 0, {});
    assert Found(p, oracle, guard, at, 0, {}) <==> ReferenceBytes(p, oracle, v).Some?;
    if ReferenceBytes(p, oracle, v).Some? {
      forall x ensures x in ReferenceBytes(p, oracle, v).value <==> Writes(p, oracle, v, x) {
        assert Finds(p, oracle, guard, at, 0, {}, x) <==> x in ReferenceBytes(p, oracle, v).value;
      }
    }
  }

  ghost predicate AllKnown(p: Program, oracle: Oracle)
    requires WellFormed(p)
  {
    forall v: nat :: !Unknown(p, oracle, v)
  }

  /** `s` holds the low bytes of the constants that exports can write. */
  ghost predicate Holding(p: Program, oracle: Oracle, s: set<bv32>)
    requires WellFormed(p)
  {
    forall x :: x in s <==> exists v: nat :: Writes(p, oracle, v, x)
  }

  /** The references a program can export: what the search finds for all its exports together, or nothing when one of
      them is unknown or they come to more than sixteen. */
  method StencilReferenceValues(p: Program, oracle: Oracle) returns (references: set<bv32>)
    requires WellFormed(p)
    ensures |references| <= MAX_VALUES
    ensures references != {} ==> AllKnown(p, oracle) && Holding(p, oracle, references)
    ensures references == {} ==> !AllKnown(p, oracle) || forall s :: Holding(p, oracle, s) ==>
            s == {} || |s| > MAX_VALUES
  {
    references := {};
    for b := 0 to |p.blocks|
      invariant |references| <= MAX_VALUES && Gathered(p, oracle, b, 0, references)
    {
      for i := 0 to |p.blocks[b]|
        invariant |references| <= MAX_VALUES && Gathered(p, oracle, b, i, references)
      {
        var v := p.blocks[b][i];
        assert Placed(p, v);
        if !ExportsReference(p, v) {
          GatherNothing(p, oracle, b, i, references);
          continue;
        }
        ExportsKnown(p, v);
        assert forall k :: 0 <= k < |p.values[v].arguments| ==> p.values[v].arguments[k] < |p.values|;
        var search := new Search(p, oracle);
        var values := search.Values(p.values[v].arguments[0], 0, Some(1), ActiveGuard(p, v));
        ReferenceExact(p, oracle, v);
        if values.None? { return {}; }
        GatherMore(p, oracle, b, i, references, values.value);
        references := references + values.value;
        if |references| > MAX_VALUES {
          TooMany(p, oracle, b, i + 1, references);
          return {};
        }
      }
      NextBlock(p, oracle, b, references);
    }
    AllGathered(p, oracle, references);
  }

  /** Position (a, j) comes before (b, i) in block order. */
  predicate Earlier(a: nat, j: nat, b: nat, i: nat) { a < b || (a == b && j < i) }

  ghost predicate WritesAt(p: Program, oracle: Oracle, a: nat, j: nat, x: bv32)
    requires WellFormed(p)
  {
    a < |p.blocks| && j < |p.blocks[a]| && Writes(p, oracle, p.blocks[a][j], x)
  }

  ghost predicate UnknownAt(p: Program, oracle: Oracle, a: nat, j: nat)
    requires WellFormed(p)
  {
    a < |p.blocks| && j < |p.blocks[a]| && Unknown(p, oracle, p.blocks[a][j])
  }

  ghost predicate WritesBefore(p: Program, oracle: Oracle, b: nat, i: nat, x: bv32)
    requires WellFormed(p)
  {
    exists a: nat, j: nat :: Earlier(a, j, b, i) && WritesAt(p, oracle, a, j, x)
  }

  /** `s` holds what the exports before (b, i) can write, and all of them are known. */
  ghost predicate Gathered(p: Program, oracle: Oracle, b: nat, i: nat, s: set<bv32>)
    requires WellFormed(p)
  {
    && (forall a: nat, j: nat :: Earlier(a, j, b, i) ==> !UnknownAt(p, oracle, a, j))
    && (forall x :: x in s <==> WritesBefore(p, oracle, b, i, x))
  }

  lemma GatherNothing(p: Program, oracle: Oracle, b: nat, i: nat, s: set<bv32>)
    requires WellFormed(p) && b < |p.blocks| && i < |p.blocks[b]| && Gathered(p, oracle, b, i, s)
             && !ExportsReference(p, p.blocks[b][i])
    ensures Gathered(p, oracle, b, i + 1, s)
  {
    Later(p, oracle, b, i, s, {});
    assert s + {} == s;
  }

  lemma GatherMore(p: Program, oracle: Oracle, b: nat, i: nat, s: set<bv32>, values: set<bv32>)
    requires WellFormed(p) && b < |p.blocks| && i < |p.blocks[b]| && Gathered(p, oracle, b, i, s)
    requires ExportsReference(p, p.blocks[b][i]) && ReferenceBytes(p, oracle, p.blocks[b][i]) == Some(values)
    ensures Gathered(p, oracle, b, i + 1, s + values)
  {
    assert Placed(p, p.blocks[b][i]);
    ReferenceExact(p, oracle, p.blocks[b][i]);
    Later(p, oracle, b, i, s, values);
  }

  lemma Later(p: Program, oracle: Oracle, b: nat, i: nat, s: set<bv32>, values: set<bv32>)
    requires WellFormed(p) && Gathered(p, oracle, b, i, s) && !UnknownAt(p, oracle, b, i)
    requires forall x :: x in values <==> WritesAt(p, oracle, b, i, x)
    ensures Gathered(p, oracle, b, i + 1, s + values)
  {
    forall x ensures x in s + values <==> WritesBefore(p, oracle, b, i + 1, x) { LaterWrites(p, oracle, b, i, x); }
  }

  /** What is written up to a position is written before it or at it. */
  lemma LaterWrites(p: Program, oracle: Oracle, b: nat, i: nat, x: bv32)
    requires WellFormed(p)
    ensures WritesBefore(p, oracle, b, i + 1, x) <==> WritesBefore(p, oracle, b, i, x) || WritesAt(p, oracle, b, i, x)
  {
    if WritesBefore(p, oracle, b, i, x) {
      var a: nat, j: nat :| Earlier(a, j, b, i) && WritesAt(p, oracle, a, j, x);
      assert Earlier(a, j, b, i + 1);
    }
    assert Earlier(b, i, b, i + 1);
  }

  lemma NextBlock(p: Program, oracle: Oracle, b: nat, s: set<bv32>)
    requires WellFormed(p) && b < |p.blocks| && Gathered(p, oracle, b, |p.blocks[b]|, s)
    ensures Gathered(p, oracle, b + 1, 0, s)
  {
    forall a: nat, j: nat | a < |p.blocks| && j < |p.blocks[a]| ensures Earlier(a, j, b, |p.blocks[b]|) <==>
        Earlier(a, j, b + 1, 0) {}
    forall x ensures x in s <==> WritesBefore(p, oracle, b + 1, 0, x) {
      if x in s {
        var a: nat, j: nat :| Earlier(a, j, b, |p.blocks[b]|) && WritesAt(p, oracle, a, j, x);
        assert Earlier(a, j, b + 1, 0);
      }
    }
  }

  lemma AllGathered(p: Program, oracle: Oracle, s: set<bv32>)
    requires WellFormed(p) && Gathered(p, oracle, |p.blocks|, 0, s)
    ensures AllKnown(p, oracle) && Holding(p, oracle, s) && forall t :: Holding(p, oracle, t) ==> t == s
  {
    forall v: nat ensures !Unknown(p, oracle, v) {
      if Unknown(p, oracle, v) {
        var a: nat, j: nat :| a < |p.blocks| && j < |p.blocks[a]| && p.blocks[a][j] == v;
        assert Earlier(a, j, |p.blocks|, 0) && UnknownAt(p, oracle, a, j);
        assert false;
      }
    }
    forall x ensures x in s <==> exists v: nat :: Writes(p, oracle, v, x) {
      WrittenSomewhere(p, oracle, |p.blocks|, 0, x);
    }
    assert Holding(p, oracle, s);
    forall t | Holding(p, oracle, t) ensures t == s {
      forall x ensures x in t <==> x in s {}
    }
  }

  /** What is written is written at some position. */
  lemma WrittenSomewhere(p: Program, oracle: Oracle, b: nat, i: nat, x: bv32)
    requires WellFormed(p)
    ensures WritesBefore(p, oracle, b, i, x) ==> exists v: nat :: Writes(p, oracle, v, x)
    ensures b == |p.blocks| && (exists v: nat :: Writes(p, oracle, v, x)) ==> WritesBefore(p, oracle, b, i, x)
  {
    if WritesBefore(p, oracle, b, i, x) {
      var a: nat, j: nat :| Earlier(a, j, b, i) && WritesAt(p, oracle, a, j, x);
      assert Writes(p, oracle, p.blocks[a][j], x);
    }
    if b == |p.blocks| && exists v: nat :: Writes(p, oracle, v, x) {
      var v: nat :| Writes(p, oracle, v, x);
      var a: nat, j: nat :| a < |p.blocks| && j < |p.blocks[a]| && p.blocks[a][j] == v;
      assert Earlier(a, j, b, i) && WritesAt(p, oracle, a, j, x);
    }
  }

  lemma TooMany(p: Program, oracle: Oracle, b: nat, i: nat, s: set<bv32>)
    requires WellFormed(p) && Gathered(p, oracle, b, i, s) && |s| > MAX_VALUES
    ensures forall t :: Holding(p, oracle, t) ==> |t| > MAX_VALUES
  {
    forall t | Holding(p, oracle, t) ensures |t| > MAX_VALUES {
      forall x <- s ensures x in t { WrittenSomewhere(p, oracle, b, i, x); }
      assert |t - s| == |t| - |s|;
    }
  }

  /** The point of the search. In every execution, a lane that runs an export of the program with its guard true exports
      a reference whose low byte is in a non-empty answer. */
  lemma ReferencesCover(p: Program, oracle: Oracle, references: set<bv32>, v: nat)
    requires WellFormed(p) && AllKnown(p, oracle) && Holding(p, oracle, references)
    requires Placed(p, v) && ExportsReference(p, v)
    ensures Covers(p, oracle, ActiveGuard(p, v), p.values[v].arguments[0], 1, references)
  {
    ExportsKnown(p, v);
    assert forall i :: 0 <= i < |p.values[v].arguments| ==> p.values[v].arguments[i] < |p.values|;
    ReferenceExact(p, oracle, v);
    assert !Unknown(p, oracle, v);
    var bytes := ReferenceBytes(p, oracle, v).value;
    BytesCover(p, oracle, ActiveGuard(p, v), p.values[v].arguments[0], 0, Some(1), {});
    forall x <- bytes ensures x in references { assert Writes(p, oracle, v, x); }
    CoversMore(p, oracle, ActiveGuard(p, v), p.values[v].arguments[0], 1, bytes, references);
  }
}
