/** What the search for stencil reference values owes, said without the search.

A trail leads from the reference an export writes towards the constants it can be made of, a step at a time. The search
answers exactly when every trail stays short, never comes back to a value and never gets stuck, and the constants at
their ends have no more than sixteen low bytes. These low bytes are then the answer, all of them and no others. */
module StencilTrails {
  import opened Wrappers
  import opened ShaderIr
  import opened GuardImplication
  import opened StencilValues

  // ----- Trails

  /** Where a trail is: at a value, or at one component of it. */
  datatype Spot = Spot(value: nat, part: Option<nat>)

  predicate AtConstant(p: Program, at: Spot) {
    at.part.None? && at.value < |p.values| && p.values[at.value].ty.U32? && p.values[at.value].immediate.Some?
  }

  /** The guard of the export proves the condition of a select. */
  predicate Narrowed(p: Program, oracle: Oracle, active: Guard, condition: nat)
    requires WellFormed(p) && Known(p, active)
  {
    && active.Some? && condition < |p.values|
    && (Implies(p, active, Some(condition)) || oracle(active.value, condition))
  }

  predicate IsExtraction(p: Program, n: IrValue) {
    && n.opcode.CompositeExtractU32x4? && |n.arguments| == 2 && n.arguments[1] < |p.values|
    && p.values[n.arguments[1]].immediate.Some?
  }

  /** A step towards the constants: from a component of a composite to the operand it is made of, from an extraction to
      the component it takes, from a select to either arm, or only the first where the select is narrowed, and from a
      phi to any operand. */
  ghost predicate Leads(p: Program, oracle: Oracle, active: Guard, at: Spot, to: Spot)
    requires WellFormed(p) && Known(p, active)
  {
    && at.value < |p.values| && !AtConstant(p, at)
    && var n := p.values[at.value];
       match at.part
       case Some(c) => n.opcode.CompositeConstructU32x4? && c < |n.arguments| && to == Spot(n.arguments[c], None)
       case None =>
         match n.opcode
         case CompositeExtractU32x4 =>
           IsExtraction(p, n) && to == Spot(n.arguments[0], Some(p.values[n.arguments[1]].immediate.value as nat))
         case SelectU32 | Select =>
           && |n.arguments| == 3
           && (to == Spot(n.arguments[1], None)
               || (to == Spot(n.arguments[2], None) && !Narrowed(p, oracle, active, n.arguments[0])))
         case Phi => to.part.None? && to.value in n.arguments
         case _ => false
  }

  /** Nothing is known of anything else. */
  predicate Stuck(p: Program, at: Spot) {
    || at.value >= |p.values|
    || (!AtConstant(p, at) &&
        var n := p.values[at.value];
        match at.part
        case Some(c) => !(n.opcode.CompositeConstructU32x4? && c < |n.arguments|)
        case None =>
          match n.opcode
          case CompositeExtractU32x4 => !IsExtraction(p, n)
          case SelectU32 | Select => |n.arguments| != 3
          case Phi => false
          case _ => true)
  }

  ghost predicate Trail(p: Program, oracle: Oracle, active: Guard, at: Spot, trail: seq<Spot>)
    requires WellFormed(p) && Known(p, active)
  {
    && trail != [] && trail[0] == at
    && forall i: nat :: i < |trail| - 1 ==> Leads(p, oracle, active, trail[i], trail[i + 1])
  }

  function End(trail: seq<Spot>): Spot
    requires trail != []
  {
    trail[|trail| - 1]
  }

  predicate HasByte(p: Program, at: Spot, x: bv32) {
    AtConstant(p, at) && x == p.values[at.value].immediate.value & 0xff
  }

  /** Some trail ends at a constant with this low byte. */
  ghost predicate Reaches(p: Program, oracle: Oracle, active: Guard, at: Spot, x: bv32)
    requires WellFormed(p) && Known(p, active)
  {
    exists trail :: Trail(p, oracle, active, at, trail) && HasByte(p, End(trail), x)
  }

  ghost predicate Within(p: Program, oracle: Oracle, active: Guard, at: Spot, s: set<bv32>)
    requires WellFormed(p) && Known(p, active)
  {
    forall x :: Reaches(p, oracle, active, at, x) ==> x in s
  }

  /** No more than sixteen low bytes are reached. */
  ghost predicate Few(p: Program, oracle: Oracle, active: Guard, at: Spot)
    requires WellFormed(p) && Known(p, active)
  {
    exists s: set<bv32> :: |s| <= 16 && Within(p, oracle, active, at, s)
  }

  /** From this depth on the trail stays short, it visits no value twice and none of those being visited, and it can go
      on or ends at a constant. */
  ghost predicate Clear(p: Program, trail: seq<Spot>, depth: nat, visiting: set<nat>)
    requires trail != []
  {
    && depth + |trail| <= 65 && !Stuck(p, End(trail))
    && (forall i: nat :: i < |trail| ==> trail[i].value !in visiting)
    && forall i: nat, j: nat :: i < j < |trail| ==> trail[i].value != trail[j].value
  }

  ghost predicate Searchable(p: Program, oracle: Oracle, active: Guard, at: Spot, depth: nat, visiting: set<nat>)
    requires WellFormed(p) && Known(p, active)
  {
    && Few(p, oracle, active, at)
    && forall trail :: Trail(p, oracle, active, at, trail) ==> Clear(p, trail, depth, visiting)
  }

  // ----- One step

  lemma Onward(p: Program, oracle: Oracle, active: Guard, at: Spot, to: Spot, trail: seq<Spot>)
    requires WellFormed(p) && Known(p, active) && Leads(p, oracle, active, at, to)
             && Trail(p, oracle, active, to, trail)
    ensures Trail(p, oracle, active, at, [at] + trail) && End([at] + trail) == End(trail)
  {
    var longer := [at] + trail;
    forall i: nat | i < |longer| - 1 ensures Leads(p, oracle, active, longer[i], longer[i + 1]) {
      if i > 0 { assert longer[i] == trail[i - 1] && longer[i + 1] == trail[i - 1 + 1]; }
    }
  }

  lemma Rest(p: Program, oracle: Oracle, active: Guard, at: Spot, trail: seq<Spot>)
    requires WellFormed(p) && Known(p, active) && Trail(p, oracle, active, at, trail) && |trail| > 1
    ensures Leads(p, oracle, active, at, trail[1]) && Trail(p, oracle, active, trail[1], trail[1..])
    ensures End(trail) == End(trail[1..]) && trail == [at] + trail[1..]
  {
    assert Leads(p, oracle, active, trail[0], trail[0 + 1]);
    forall i: nat | i < |trail[1..]| - 1 ensures Leads(p, oracle, active, trail[1..][i], trail[1..][i + 1]) {
      assert Leads(p, oracle, active, trail[i + 1], trail[i + 1 + 1]);
    }
  }

  lemma ReachesStep(p: Program, oracle: Oracle, active: Guard, at: Spot, x: bv32)
    requires WellFormed(p) && Known(p, active)
    ensures Reaches(p, oracle, active, at, x) <==>
            HasByte(p, at, x) || exists to :: Leads(p, oracle, active, at, to) && Reaches(p, oracle, active, to, x)
  {
    if HasByte(p, at, x) { assert Trail(p, oracle, active, at, [at]) && End([at]) == at; }
    if exists to :: Leads(p, oracle, active, at, to) && Reaches(p, oracle, active, to, x) {
      var to :| Leads(p, oracle, active, at, to) && Reaches(p, oracle, active, to, x);
      var trail :| Trail(p, oracle, active, to, trail) && HasByte(p, End(trail), x);
      Onward(p, oracle, active, at, to, trail);
    }
    if Reaches(p, oracle, active, at, x) {
      var trail :| Trail(p, oracle, active, at, trail) && HasByte(p, End(trail), x);
      if |trail| > 1 { Rest(p, oracle, active, at, trail); }
    }
  }

  lemma FewOnward(p: Program, oracle: Oracle, active: Guard, at: Spot, to: Spot)
    requires WellFormed(p) && Known(p, active) && Few(p, oracle, active, at) && Leads(p, oracle, active, at, to)
    ensures Few(p, oracle, active, to)
  {
    var s: set<bv32> :| |s| <= 16 && Within(p, oracle, active, at, s);
    forall x | Reaches(p, oracle, active, to, x) ensures x in s { ReachesStep(p, oracle, active, at, x); }
    assert Within(p, oracle, active, to, s);
  }

  lemma ClearLonger(p: Program, at: Spot, trail: seq<Spot>, depth: nat, visiting: set<nat>)
    requires trail != [] && at.value !in visiting
    ensures Clear(p, [at] + trail, depth, visiting) <==> Clear(p, trail, depth + 1, visiting + {at.value})
  {
    var longer, inside := [at] + trail, visiting + {at.value};
    assert longer[0] == at && forall i: nat :: i < |trail| ==> longer[i + 1] == trail[i];
    if Clear(p, longer, depth, visiting) {
      forall i: nat | i < |trail| ensures trail[i].value !in inside {
        assert longer[0].value != longer[i + 1].value && longer[i + 1].value !in visiting;
      }
      forall i: nat, j: nat | i < j < |trail| ensures trail[i].value != trail[j].value {
        assert longer[i + 1].value != longer[j + 1].value;
      }
    }
    if Clear(p, trail, depth + 1, inside) {
      forall i: nat | i < |longer| ensures longer[i].value !in visiting {
        if i > 0 { assert longer[i] == trail[i - 1]; }
      }
      forall i: nat, j: nat | i < j < |longer| ensures longer[i].value != longer[j].value {
        assert longer[j] == trail[j - 1] && trail[j - 1].value !in inside;
        if i > 0 { assert longer[i] == trail[i - 1]; }
      }
    }
  }

  /** What is searchable leads only to what is searchable. */
  lemma SearchableOnward(p: Program, oracle: Oracle, active: Guard, at: Spot, to: Spot, depth: nat, visiting: set<nat>)
    requires WellFormed(p) && Known(p, active) && Searchable(p, oracle, active, at, depth, visiting)
    requires Leads(p, oracle, active, at, to)
    ensures Searchable(p, oracle, active, to, depth + 1, visiting + {at.value})
  {
    FewOnward(p, oracle, active, at, to);
    SearchableHere(p, oracle, active, at, depth, visiting);
    forall trail | Trail(p, oracle, active, to, trail) ensures Clear(p, trail, depth + 1, visiting + {at.value}) {
      Onward(p, oracle, active, at, to, trail);
      ClearLonger(p, at, trail, depth, visiting);
    }
  }

  lemma SearchableHere(p: Program, oracle: Oracle, active: Guard, at: Spot, depth: nat, visiting: set<nat>)
    requires WellFormed(p) && Known(p, active) && Searchable(p, oracle, active, at, depth, visiting)
    ensures depth <= 64 && at.value !in visiting && !Stuck(p, at)
  {
    var trail := [at];
    assert Trail(p, oracle, active, at, trail) && End(trail) == at && trail[0].value == at.value;
  }

  lemma SearchableFrom(p: Program, oracle: Oracle, active: Guard, at: Spot, depth: nat, visiting: set<nat>)
    requires WellFormed(p) && Known(p, active) && Few(p, oracle, active, at)
    requires depth <= 64 && at.value !in visiting && !Stuck(p, at)
    requires forall to :: Leads(p, oracle, active, at, to) ==>
             Searchable(p, oracle, active, to, depth + 1, visiting + {at.value})
    ensures Searchable(p, oracle, active, at, depth, visiting)
  {
    forall trail | Trail(p, oracle, active, at, trail) ensures Clear(p, trail, depth, visiting) {
      if |trail| > 1 {
        Rest(p, oracle, active, at, trail);
        ClearLonger(p, at, trail[1..], depth, visiting);
      } else {
        assert trail == [at];
      }
    }
  }

  // ----- The search, step by step

  ghost predicate Found(p: Program, oracle: Oracle, active: Guard, at: Spot, depth: nat, visiting: set<nat>)
    requires WellFormed(p) && Known(p, active)
  {
    at.value < |p.values| && Bytes(p, oracle, active, at.value, depth, at.part, visiting).Some?
  }

  ghost predicate Finds(p: Program, oracle: Oracle, active: Guard, at: Spot, depth: nat, visiting: set<nat>, x: bv32)
    requires WellFormed(p) && Known(p, active)
  {
    Found(p, oracle, active, at, depth, visiting)
    && x in Bytes(p, oracle, active, at.value, depth, at.part, visiting).value
  }

  /** What the search finds is put together from what it finds a step further. */
  ghost predicate Together(p: Program, oracle: Oracle, active: Guard, at: Spot, depth: nat, visiting: set<nat>,
                           result: Option<set<bv32>>)
    requires WellFormed(p) && Known(p, active)
  {
    && (result.Some? <==> forall to :: Leads(p, oracle, active, at, to) ==>
        Found(p, oracle, active, to, depth + 1, visiting))
    && (result.Some? ==> forall x :: x in result.value <==>
        exists to :: Leads(p, oracle, active, at, to) && Finds(p, oracle, active, to, depth + 1, visiting, x))
  }

  lemma {:induction false} AllTogether(p: Program, oracle: Oracle, active: Guard, vs: seq<nat>, depth: nat,
                                       visiting: set<nat>)
    requires WellFormed(p) && Known(p, active) && depth <= 64 && forall i :: 0 <= i < |vs| ==> vs[i] < |p.values|
    ensures var r := BytesOfAll(p, oracle, active, vs, depth, visiting);
            && (r.Some? <==> forall v <- vs :: Found(p, oracle, active, Spot(v, None), depth + 1, visiting))
            && (r.Some? ==> forall x :: x in r.value <==>
                exists v :: v in vs && Finds(p, oracle, active, Spot(v, None), depth + 1, visiting, x))
    decreases |vs|
  {
    if vs != [] {
      var last := |vs| - 1;
      AllTogether(p, oracle, active, vs[..last], depth, visiting);
      var before, here := BytesOfAll(p, oracle, active, vs[..last], depth, visiting), Spot(vs[last], None);
      assert forall v :: v in vs <==> v in vs[..last] || v == vs[last];
      assert Found(p, oracle, active, here, depth + 1, visiting) <==>
             Bytes(p, oracle, active, vs[last], depth + 1, None, visiting).Some?;
      var r := BytesOfAll(p, oracle, active, vs, depth, visiting);
      assert r == Union(before, Bytes(p, oracle, active, vs[last], depth + 1, None, visiting));
      assert r.Some? ==> forall x ::
          x in r.value <==> x in before.value || Finds(p, oracle, active, here, depth + 1, visiting, x);
    }
  }

  lemma OneTogether(p: Program, oracle: Oracle, active: Guard, at: Spot, to: Spot, depth: nat, visiting: set<nat>)
    requires WellFormed(p) && Known(p, active) && depth <= 64 && to.value < |p.values|
    requires forall other :: Leads(p, oracle, active, at, other) <==> other == to
    ensures Together(p, oracle, active, at, depth, visiting,
                     Bytes(p, oracle, active, to.value, depth + 1, to.part, visiting))
  {
    assert Leads(p, oracle, active, at, to);
  }

  lemma TwoTogether(p: Program, oracle: Oracle, active: Guard, at: Spot, a: nat, b: nat, depth: nat, visiting: set<nat>)
    requires WellFormed(p) && Known(p, active) && depth <= 64 && a < |p.values| && b < |p.values|
    requires forall to :: Leads(p, oracle, active, at, to) <==> to == Spot(a, None) || to == Spot(b, None)
    ensures Together(p, oracle, active, at, depth, visiting,
                     Union(Bytes(p, oracle, active, a, depth + 1, None, visiting),
                           Bytes(p, oracle, active, b, depth + 1, None, visiting)))
  {
    assert Leads(p, oracle, active, at, Spot(a, None)) && Leads(p, oracle, active, at, Spot(b, None));
  }

  lemma PhiTogether(p: Program, oracle: Oracle, active: Guard, at: Spot, depth: nat, visiting: set<nat>)
    requires WellFormed(p) && Known(p, active) && depth <= 64 && at.value < |p.values| && at.part.None?
    requires p.values[at.value].opcode.Phi? && !AtConstant(p, at)
    requires forall i :: 0 <= i < |p.values[at.value].arguments| ==> p.values[at.value].arguments[i] < |p.values|
    ensures Together(p, oracle, active, at, depth, visiting,
                     BytesOfAll(p, oracle, active, p.values[at.value].arguments, depth, visiting))
  {
    var a := p.values[at.value].arguments;
    AllTogether(p, oracle, active, a, depth, visiting);
    forall v <- a ensures Leads(p, oracle, active, at, Spot(v, None)) {}
    forall to | Leads(p, oracle, active, at, to) ensures to.value in a && to == Spot(to.value, None) {}
  }

  lemma StepFound(p: Program, oracle: Oracle, active: Guard, at: Spot, depth: nat, visiting: set<nat>)
    requires WellFormed(p) && Known(p, active) && depth <= 64 && at.value < |p.values| && !AtConstant(p, at)
    ensures var r := BytesOf(p, oracle, active, at.value, depth, at.part, visiting);
            if Stuck(p, at) then r.None? else Together(p, oracle, active, at, depth, visiting, r)
  {
    var n := p.values[at.value];
    assert forall i :: 0 <= i < |n.arguments| ==> n.arguments[i] < |p.values|;
    if !Stuck(p, at) {
      if at.part.Some? {
        OneTogether(p, oracle, active, at, Spot(n.arguments[at.part.value], None), depth, visiting);
      } else if n.opcode.CompositeExtractU32x4? {
        OneTogether(p, oracle, active, at,
                    Spot(n.arguments[0], Some(p.values[n.arguments[1]].immediate.value as nat)), depth, visiting);
      } else if n.opcode.Phi? {
        PhiTogether(p, oracle, active, at, depth, visiting);
      } else if Narrowed(p, oracle, active, n.arguments[0]) {
        OneTogether(p, oracle, active, at, Spot(n.arguments[1], None), depth, visiting);
      } else {
        TwoTogether(p, oracle, active, at, n.arguments[1], n.arguments[2], depth, visiting);
      }
    }
  }

  // ----- The search finds what trails reach

  /** The search finds something exactly where it has to, and all of what trails reach but nothing else. */
  ghost predicate Exact(p: Program, oracle: Oracle, active: Guard, at: Spot, depth: nat, visiting: set<nat>)
    requires WellFormed(p) && Known(p, active)
  {
    && (Found(p, oracle, active, at, depth, visiting) <==> Searchable(p, oracle, active, at, depth, visiting))
    && (Found(p, oracle, active, at, depth, visiting) ==> forall x ::
          Finds(p, oracle, active, at, depth, visiting, x) <==> Reaches(p, oracle, active, at, x))
  }

  lemma {:induction false} BytesExact(p: Program, oracle: Oracle, active: Guard, at: Spot, depth: nat,
                                      visiting: set<nat>)
    requires WellFormed(p) && Known(p, active)
    ensures Exact(p, oracle, active, at, depth, visiting)
    decreases 65 - depth
  {
    if depth > 64 || at.value in visiting || at.value >= |p.values| {
      if Searchable(p, oracle, active, at, depth, visiting) { SearchableHere(p, oracle, active, at, depth, visiting); }
    } else if AtConstant(p, at) {
      ConstantExact(p, oracle, active, at, depth, visiting);
    } else {
      var inside := visiting + {at.value};
      forall to | Leads(p, oracle, active, at, to) ensures Exact(p, oracle, active, to, depth + 1, inside) {
        BytesExact(p, oracle, active, to, depth + 1, inside);
      }
      StepExact(p, oracle, active, at, depth, visiting);
    }
  }

  lemma ConstantExact(p: Program, oracle: Oracle, active: Guard, at: Spot, depth: nat, visiting: set<nat>)
    requires WellFormed(p) && Known(p, active) && depth <= 64 && at.value !in visiting && AtConstant(p, at)
    ensures Exact(p, oracle, active, at, depth, visiting)
  {
    var x := LowByte(p.values[at.value].immediate.value);
    var s := {x};
    assert |s| == 1;
    assert Bytes(p, oracle, active, at.value, depth, at.part, visiting) == Some(s);
    forall y ensures Reaches(p, oracle, active, at, y) <==> y == x { ReachesStep(p, oracle, active, at, y); }
    assert Within(p, oracle, active, at, s);
    SearchableFrom(p, oracle, active, at, depth, visiting);
  }

  /** The constants reached are those of what the search puts together. */
  lemma TogetherReaches(p: Program, oracle: Oracle, active: Guard, at: Spot, depth: nat, visiting: set<nat>,
                        s: set<bv32>)
    requires WellFormed(p) && Known(p, active) && !AtConstant(p, at)
    requires Together(p, oracle, active, at, depth, visiting, Some(s))
    requires forall to :: Leads(p, oracle, active, at, to) ==> Exact(p, oracle, active, to, depth + 1, visiting)
    ensures forall x :: x in s <==> Reaches(p, oracle, active, at, x)
  {
    forall x ensures x in s <==> Reaches(p, oracle, active, at, x) {
      ReachesStep(p, oracle, active, at, x);
      if x in s {
        var to :| Leads(p, oracle, active, at, to) && Finds(p, oracle, active, to, depth + 1, visiting, x);
        assert Reaches(p, oracle, active, to, x);
      }
      if Reaches(p, oracle, active, at, x) {
        var to :| Leads(p, oracle, active, at, to) && Reaches(p, oracle, active, to, x);
        assert Finds(p, oracle, active, to, depth + 1, visiting, x);
      }
    }
  }

  lemma FewIfSmall(p: Program, oracle: Oracle, active: Guard, at: Spot, s: set<bv32>)
    requires WellFormed(p) && Known(p, active) && forall x :: x in s <==> Reaches(p, oracle, active, at, x)
    ensures Few(p, oracle, active, at) <==> |s| <= 16
  {
    assert Within(p, oracle, active, at, s);
    if Few(p, oracle, active, at) {
      var t: set<bv32> :| |t| <= 16 && Within(p, oracle, active, at, t);
      forall x <- s ensures x in t { assert Reaches(p, oracle, active, at, x); }
      assert |t - s| == |t| - |s|;
    }
  }

  lemma AllFound(p: Program, oracle: Oracle, active: Guard, at: Spot, depth: nat, visiting: set<nat>)
    requires WellFormed(p) && Known(p, active) && Searchable(p, oracle, active, at, depth, visiting)
    requires forall to :: Leads(p, oracle, active, at, to) ==>
             Exact(p, oracle, active, to, depth + 1, visiting + {at.value})
    ensures !Stuck(p, at)
    ensures forall to :: Leads(p, oracle, active, at, to) ==>
            Found(p, oracle, active, to, depth + 1, visiting + {at.value})
  {
    SearchableHere(p, oracle, active, at, depth, visiting);
    forall to | Leads(p, oracle, active, at, to)
      ensures Found(p, oracle, active, to, depth + 1, visiting + {at.value})
    {
      SearchableOnward(p, oracle, active, at, to, depth, visiting);
      assert Exact(p, oracle, active, to, depth + 1, visiting + {at.value});
    }
  }

  lemma StepExact(p: Program, oracle: Oracle, active: Guard, at: Spot, depth: nat, visiting: set<nat>)
    requires WellFormed(p) && Known(p, active) && depth <= 64 && at.value !in visiting && at.value < |p.values|
             && !AtConstant(p, at)
    requires forall to :: Leads(p, oracle, active, at, to) ==>
             Exact(p, oracle, active, to, depth + 1, visiting + {at.value})
    ensures Exact(p, oracle, active, at, depth, visiting)
  {
    var inside := visiting + {at.value};
    var r := BytesOf(p, oracle, active, at.value, depth, at.part, inside);
    StepFound(p, oracle, active, at, depth, inside);
    assert Bytes(p, oracle, active, at.value, depth, at.part, visiting) ==
           if r.Some? && |r.value| > MAX_VALUES then None else r;
    if !Stuck(p, at) && r.Some? {
      TogetherReaches(p, oracle, active, at, depth, inside, r.value);
      FewIfSmall(p, oracle, active, at, r.value);
      if |r.value| <= 16 { SearchableFrom(p, oracle, active, at, depth, visiting); }
    } else if Searchable(p, oracle, active, at, depth, visiting) {
      AllFound(p, oracle, active, at, depth, visiting);
    }
  }

  // ----- When everything is searchable

  /** Every step of a trail goes down. */
  ghost predicate Downward(p: Program, oracle: Oracle, active: Guard, height: nat -> nat)
    requires WellFormed(p) && Known(p, active)
  {
    forall at, to :: Leads(p, oracle, active, at, to) ==> height(to.value) < height(at.value)
  }

  lemma {:induction false} Lower(p: Program, oracle: Oracle, active: Guard, height: nat -> nat, at: Spot,
                                 trail: seq<Spot>, i: nat, j: nat)
    requires WellFormed(p) && Known(p, active) && Downward(p, oracle, active, height)
    requires Trail(p, oracle, active, at, trail) && i <= j < |trail|
    ensures height(trail[j].value) + (j - i) <= height(trail[i].value)
    decreases j - i
  {
    if i < j {
      assert Leads(p, oracle, active, trail[j - 1], trail[j - 1 + 1]);
      Lower(p, oracle, active, height, at, trail, i, j - 1);
    }
  }

  /** Where no value rests on itself and none lies higher than 64, the search finds what it is asked for if only no
      trail gets stuck and no more than sixteen low bytes are reached. */
  lemma DownwardSearchable(p: Program, oracle: Oracle, active: Guard, height: nat -> nat, at: Spot)
    requires WellFormed(p) && Known(p, active) && Downward(p, oracle, active, height) && height(at.value) <= 64
    ensures Searchable(p, oracle, active, at, 0, {}) <==>
            && Few(p, oracle, active, at)
            && forall trail :: Trail(p, oracle, active, at, trail) ==> !Stuck(p, End(trail))
  {
    forall trail: seq<Spot> | Trail(p, oracle, active, at, trail)
      ensures |trail| <= 65 && forall i: nat, j: nat :: i < j < |trail| ==> trail[i].value != trail[j].value
    {
      Lower(p, oracle, active, height, at, trail, 0, |trail| - 1);
      forall i: nat, j: nat | i < j < |trail| ensures trail[i].value != trail[j].value {
        Lower(p, oracle, active, height, at, trail, i, j);
      }
    }
  }
}
