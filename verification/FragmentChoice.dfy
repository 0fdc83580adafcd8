/** Which outputs a specialization packs, blends and takes as second source, told from the constants and the
decorations. */
module FragmentChoice {
  import opened Wrappers
  import opened Spirv
  import opened FragmentPlan
  import opened FragmentOutputs

  // ----- The constants

  /** A constant asks for the output at this location to be packed. */
  ghost predicate PackAsked(constants: seq<Constant>, location: nat) {
    location < 8 && exists c <- constants :: c.id == 8224 + location && c.value == 1
  }

  /** The value of the last constant of an id, zero if there is none. */
  function LastValue(constants: seq<Constant>, id: nat): nat {
    if constants == [] then 0
    else
      var last := constants[|constants| - 1];
      if last.id == id then last.value else LastValue(constants[..|constants| - 1], id)
  }

  lemma {:induction false} RequestedMore(constants: seq<Constant>, c: Constant, request: Request)
    requires Requested(constants + [c], request).Some?
    ensures Requested(constants, request).Some?
    ensures Requested(constants + [c], request) == Note(Requested(constants, request).value, c)
    decreases |constants|
  {
    if constants == [] {
      assert constants + [c] == [c] && [c][1..] == [];
    } else {
      assert (constants + [c])[1..] == constants[1..] + [c];
      RequestedMore(constants[1..], c, Note(request, constants[0]).value);
    }
  }

  /** What the constants ask for. */
  lemma {:induction false} RequestMeans(constants: seq<Constant>)
    requires Requested(constants).Some?
    ensures var request := Requested(constants).value;
            && (forall location: nat :: location in request.packed <==> PackAsked(constants, location))
            && (request.dualSource <==> LastValue(constants, 8232) != 0)
            && request.reversed == LastValue(constants, 8236)
    decreases |constants|
  {
    if constants != [] {
      var n := |constants| - 1;
      var front, c := constants[..n], constants[n];
      assert constants == front + [c];
      RequestedMore(front, c, Request({}, false, 0));
      RequestMeans(front);
      forall location: nat ensures PackAsked(constants, location) <==>
          PackAsked(front, location) || (location < 8 && c == Constant(8224 + location, 1)) {
        if PackAsked(constants, location) {
          var x :| x in constants && x.id == 8224 + location && x.value == 1;
          assert x in front || x == c;
        }
        if PackAsked(front, location) {
          var x :| x in front && x.id == 8224 + location && x.value == 1;
          assert x in constants;
        }
        if location < 8 && c == Constant(8224 + location, 1) { assert c in constants; }
      }
    }
  }

  // ----- The decorations

  predicate GivesLocation(i: Instr, id: nat) {
    i.op == OpDecorate && Count(i) == 4 && Operand(i, 1) == id && Operand(i, 2) == 30
  }

  predicate GivesIndex(i: Instr, id: nat) {
    i.op == OpDecorate && Count(i) == 4 && Operand(i, 1) == id && Operand(i, 2) == 32
  }

  predicate IsOutputVariable(i: Instr, id: nat) {
    i.op == OpVariable && Count(i) >= 4 && Operand(i, 2) == id && Operand(i, 3) == 3
  }

  /** The first location an id is decorated with. */
  ghost predicate LocatedAt(instrs: seq<Instr>, id: nat, location: nat) {
    exists k :: 0 <= k < |instrs| && GivesLocation(instrs[k], id) && Operand(instrs[k], 3) == location
                && forall j :: 0 <= j < k ==> !GivesLocation(instrs[j], id)
  }

  ghost predicate Indexed(instrs: seq<Instr>, id: nat) { exists i <- instrs :: GivesIndex(i, id) }

  ghost predicate Written(instrs: seq<Instr>, id: nat) { exists i <- instrs :: IsOutputVariable(i, id) }

  /** An output variable at a location, without an index. */
  ghost predicate OutputFor(instrs: seq<Instr>, id: nat, location: nat) {
    id != 0 && Written(instrs, id) && !Indexed(instrs, id) && LocatedAt(instrs, id, location)
  }

  lemma {:induction false} ScanMore(instrs: seq<Instr>, i: Instr, info: Info)
    ensures ScanAll(instrs + [i], info) == Scan(ScanAll(instrs, info), i)
    decreases |instrs|
  {
    if instrs == [] {
      assert instrs + [i] == [i] && [i][1..] == [];
    } else {
      assert (instrs + [i])[1..] == instrs[1..] + [i];
      ScanMore(instrs[1..], i, Scan(info, instrs[0]));
    }
  }

  lemma LocatedMore(instrs: seq<Instr>, i: Instr, id: nat, location: nat)
    ensures LocatedAt(instrs + [i], id, location) <==>
              || LocatedAt(instrs, id, location)
              || (GivesLocation(i, id) && Operand(i, 3) == location
                  && forall j :: 0 <= j < |instrs| ==> !GivesLocation(instrs[j], id))
  {
    var more, n := instrs + [i], |instrs|;
    assert forall k :: 0 <= k < n ==> more[k] == instrs[k];
    if LocatedAt(more, id, location) {
      var k :| 0 <= k < |more| && GivesLocation(more[k], id) && Operand(more[k], 3) == location
          && forall j :: 0 <= j < k ==> !GivesLocation(more[j], id);
      if k < n { assert GivesLocation(instrs[k], id) && forall j :: 0 <= j < k ==> !GivesLocation(instrs[j], id); }
    }
    if LocatedAt(instrs, id, location) {
      var k :| 0 <= k < |instrs| && GivesLocation(instrs[k], id) && Operand(instrs[k], 3) == location
          && forall j :: 0 <= j < k ==> !GivesLocation(instrs[j], id);
      assert GivesLocation(more[k], id) && forall j :: 0 <= j < k ==> !GivesLocation(more[j], id);
    }
    if GivesLocation(i, id) && Operand(i, 3) == location && forall j :: 0 <= j < n ==> !GivesLocation(instrs[j], id) {
      assert GivesLocation(more[n], id) && forall j :: 0 <= j < n ==> !GivesLocation(more[j], id);
    }
  }

  /** The scan finds the first location of every id, and which ids have an index or are outputs. */
  ghost predicate ScannedSo(instrs: seq<Instr>, info: Info, id: nat) {
    && (id in info.locations <==> Given(instrs, id))
    && (id in info.locations ==> LocatedAt(instrs, id, info.locations[id]))
    && (id in info.indexed <==> Indexed(instrs, id)) && (id in info.outputs <==> Written(instrs, id))
  }

  lemma ScanEffect(info: Info, i: Instr, id: nat)
    ensures var next := Scan(info, i);
            && (id in next.locations <==> id in info.locations || GivesLocation(i, id))
            && (id in next.locations ==> next.locations[id] == if id in info.locations then info.locations[id]
                else Operand(i, 3))
            && (id in next.indexed <==> id in info.indexed || GivesIndex(i, id))
            && (id in next.outputs <==> id in info.outputs || IsOutputVariable(i, id))
  {
  }

  ghost predicate Given(instrs: seq<Instr>, id: nat) { exists k :: 0 <= k < |instrs| && GivesLocation(instrs[k], id) }

  lemma ScannedMore(front: seq<Instr>, i: Instr, info: Info, next: Info, id: nat)
    requires ScannedSo(front, info, id) && next == Scan(info, i)
    ensures ScannedSo(front + [i], next, id)
  {
    ScanEffect(info, i, id);
    AnyMore(front, i, id);
    if id in next.locations { LocatedMore(front, i, id, next.locations[id]); }
    if !Given(front, id) { assert forall j :: 0 <= j < |front| ==> !GivesLocation(front[j], id); }
  }

  lemma {:induction false} ScanMeans(instrs: seq<Instr>, id: nat)
    ensures ScannedSo(instrs, ScanAll(instrs), id)
    decreases |instrs|
  {
    if instrs != [] {
      var n := |instrs| - 1;
      var front, i := instrs[..n], instrs[n];
      assert instrs == front + [i];
      ScanMeans(front, id);
      ScanMore(front, i, Info(map[], {}, map[], map[], map[]));
      ScannedMore(front, i, ScanAll(front), ScanAll(instrs), id);
    }
  }

  lemma AnyMore(front: seq<Instr>, i: Instr, id: nat)
    ensures Indexed(front + [i], id) <==> Indexed(front, id) || GivesIndex(i, id)
    ensures Written(front + [i], id) <==> Written(front, id) || IsOutputVariable(i, id)
    ensures Given(front + [i], id) <==> Given(front, id) || GivesLocation(i, id)
  {
    var more := front + [i];
    if Indexed(front, id) {
      var x :| x in front && GivesIndex(x, id);
      assert x in more;
    }
    if Written(front, id) {
      var x :| x in front && IsOutputVariable(x, id);
      assert x in more;
    }
    assert i in more && more[|front|] == i;
    if Given(front, id) {
      var k :| 0 <= k < |front| && GivesLocation(front[k], id);
      assert GivesLocation(more[k], id);
    }
  }

  lemma LocatedOnce(instrs: seq<Instr>, id: nat, a: nat, b: nat)
    requires LocatedAt(instrs, id, a) && LocatedAt(instrs, id, b)
    ensures a == b
  {
  }

  /** The outputs that the plan looks among. */
  lemma AtLocationMeans(instrs: seq<Instr>, location: nat)
    ensures forall id :: id in AtLocation(ScanAll(instrs), location) <==> OutputFor(instrs, id, location)
  {
    var info := ScanAll(instrs);
    forall id ensures id in AtLocation(info, location) <==> OutputFor(instrs, id, location) {
      ScanMeans(instrs, id);
      if id in info.locations && LocatedAt(instrs, id, location) {
        LocatedOnce(instrs, id, location, info.locations[id]);
      }
    }
  }

  // ----- The choice

  /** `id` is the only output at a location, or zero and there is none. */
  ghost predicate TheOutput(instrs: seq<Instr>, location: nat, id: nat) {
    if id == 0 then forall x :: !OutputFor(instrs, x, location)
    else forall x :: OutputFor(instrs, x, location) <==> x == id
  }

  lemma OutputAtMeans(instrs: seq<Instr>, location: nat)
    requires OutputAt(ScanAll(instrs), location).Some?
    ensures TheOutput(instrs, location, OutputAt(ScanAll(instrs), location).value)
  {
    AtLocationMeans(instrs, location);
    var id := OutputAt(ScanAll(instrs), location).value;
    if id != 0 {
      assert AtLocation(ScanAll(instrs), location) == {id};
    } else {
      assert AtLocation(ScanAll(instrs), location) == {};
    }
  }

  /** The outputs at one of these locations, from a location on. */
  ghost predicate PackedFrom(instrs: seq<Instr>, packed: set<nat>, from: nat, id: nat) {
    exists location :: from <= location < 8 && location in packed && OutputFor(instrs, id, location)
  }

  lemma PackedStep(instrs: seq<Instr>, packed: set<nat>, from: nat, id: nat)
    requires from < 8
    ensures PackedFrom(instrs, packed, from, id) <==>
            (from in packed && OutputFor(instrs, id, from)) || PackedFrom(instrs, packed, from + 1, id)
  {
  }

  lemma {:induction false} RetypedMeans(instrs: seq<Instr>, packed: set<nat>, specialized: set<nat>, from: nat)
    requires from <= 8 && Retyped(ScanAll(instrs), packed, specialized, from).Some?
    ensures forall id :: id in Retyped(ScanAll(instrs), packed, specialized, from).value <==>
            PackedFrom(instrs, packed, from, id)
    decreases 8 - from
  {
    if from < 8 {
      RetypedMeans(instrs, packed, specialized, from + 1);
      if from in packed { OutputAtMeans(instrs, from); }
      forall id ensures id in Retyped(ScanAll(instrs), packed, specialized, from).value <==>
          PackedFrom(instrs, packed, from, id) {
        PackedStep(instrs, packed, from, id);
      }
    }
  }

  /** The output variables that some constant asks to pack. */
  ghost predicate ToPack(constants: seq<Constant>, instrs: seq<Instr>, id: nat) {
    exists location: nat :: PackAsked(constants, location) && OutputFor(instrs, id, location)
  }

  /** What a plan is for. */
  ghost predicate Chosen(constants: seq<Constant>, instrs: seq<Instr>, plan: Plan) {
    && (forall id :: id in plan.retyped <==> ToPack(constants, instrs, id))
    && (if LastValue(constants, 8232) != 0 then TheOutput(instrs, 1, plan.secondSource) else plan.secondSource == 0)
    && (if LastValue(constants, 8236) != 0 then plan.blended != 0 && TheOutput(instrs, 0, plan.blended)
        else plan.blended == 0)
    && plan.reversed == LastValue(constants, 8236)
  }

  /** The plan packs exactly the outputs whose location a constant of value one asks to pack, its second source is the
      output at location one when dual-source blending is asked for, and its blended output the one at location zero. */
  lemma PlanChooses(constants: seq<Constant>, specialized: set<nat>, instrs: seq<Instr>, request: Request, bound: nat)
    requires Requested(constants) == Some(request) && MakePlan(ScanAll(instrs), request, specialized, bound).Ready?
    ensures Chosen(constants, instrs, MakePlan(ScanAll(instrs), request, specialized, bound).plan)
  {
    var info, plan := ScanAll(instrs), MakePlan(ScanAll(instrs), request, specialized, bound).plan;
    RequestMeans(constants);
    PlanParts(info, request, specialized, bound);
    RetypedMeans(instrs, request.packed, specialized, 0);
    forall id ensures id in plan.retyped <==> ToPack(constants, instrs, id) {
      if ToPack(constants, instrs, id) {
        var location: nat :| PackAsked(constants, location) && OutputFor(instrs, id, location);
        assert PackedFrom(instrs, request.packed, 0, id);
      }
    }
    if request.dualSource { OutputAtMeans(instrs, 1); }
    if request.reversed != 0 { OutputAtMeans(instrs, 0); }
  }

  /** Where the parts of a plan come from. */
  lemma PlanParts(info: Info, request: Request, specialized: set<nat>, bound: nat)
    requires MakePlan(info, request, specialized, bound).Ready?
    ensures var plan := MakePlan(info, request, specialized, bound).plan;
            && Retyped(info, request.packed, specialized) == Some(plan.retyped) && plan.reversed == request.reversed
            && (if request.dualSource then OutputAt(info, 1) == Some(plan.secondSource) else plan.secondSource == 0)
            && (if request.reversed != 0 then plan.blended != 0 && OutputAt(info, 0) == Some(plan.blended)
                else plan.blended == 0)
  {
  }

  // ----- The decorations of the result

  /** The location of the second source becomes location zero with index one; the second color gets those beside the
      blended output; and entry points get the second color as one more interface variable. */
  lemma DecorationsChoose(constants: seq<Constant>, instrs: seq<Instr>, plan: Plan, i: Instr, bound: nat)
    requires Chosen(constants, instrs, plan) && Expand(plan, i, bound).Expansion?
    ensures var second := [Instr(71, [plan.secondSource, 30, 0]), Instr(71, [plan.secondSource, 32, 1])];
            GivesLocation(i, plan.secondSource) && plan.secondSource != 0 ==>
                Expand(plan, i, bound) == Expansion(second, bound)
    ensures var beside := [i, Instr(71, [plan.secondColor, 30, 0]), Instr(71, [plan.secondColor, 32, 1])];
            GivesLocation(i, plan.blended) && plan.blended != 0 && plan.secondSource != plan.blended ==>
              Expand(plan, i, bound) == Expansion(beside, bound)
    ensures i.op == 15 && plan.secondColor != 0 ==>
            Expand(plan, i, bound) == Expansion([Instr(15, i.operands + [plan.secondColor])], bound)
  {
  }
}
