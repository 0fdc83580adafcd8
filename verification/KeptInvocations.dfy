/** Is the stencil reference defined for every invocation a pixel program keeps?

A must-analysis over all paths from the entry: which guards every path has exported a stencil reference
under, and the guard of the last valid-mask export when all paths agree on it. */
module KeptInvocations {
  import opened Wrappers
  import opened ShaderIr
  import opened GuardImplication
  import opened ControlFlowWalk

  // ----- What one path exports

  ghost predicate PathTo(edges: Edges, path: seq<nat>, b: nat) {
    |path| > 0 && path[0] == 0 && path[|path| - 1] == b && WalkOf(edges, path)
  }

  predicate IsExport(p: Program, v: nat) {
    v < |p.values| && p.values[v].opcode.SetAttribute? && |p.values[v].arguments| == 2
  }

  function ActiveGuard(p: Program, v: nat): Guard
    requires IsExport(p, v)
  {
    Some(p.values[v].arguments[1])
  }

  /** A guard that is literally true is recorded as None. */
  function Recorded(p: Program, g: Guard): Guard
    requires Known(p, g)
  {
    if Boolean(p, g, true) then None else g
  }

  ghost predicate ExportsStencil(p: Program, v: nat, g: Guard)
    requires WellFormed(p)
  {
    && IsExport(p, v) && p.values[v].exportInfo.stencil
    && Known(p, ActiveGuard(p, v)) && !Boolean(p, ActiveGuard(p, v), false) && Recorded(p, ActiveGuard(p, v)) == g
  }

  /** Does a block export the stencil reference under guard `g`? */
  ghost predicate BlockWrites(p: Program, instructions: seq<nat>, g: Guard)
    requires WellFormed(p)
  {
    exists i :: 0 <= i < |instructions| && ExportsStencil(p, instructions[i], g)
  }

  predicate IsMaskExport(p: Program, v: nat)
    requires WellFormed(p)
  {
    IsExport(p, v) && p.values[v].exportInfo.validMask
  }

  /** The guard of the last valid-mask export, `before` when there is none. */
  ghost function LiveAfter(p: Program, instructions: seq<nat>, before: Guard): Guard
    requires WellFormed(p)
    ensures Known(p, before) ==> Known(p, LiveAfter(p, instructions, before))
  {
    if instructions == [] then before
    else
      var last := |instructions| - 1;
      var v := instructions[last];
      ExportsKnown(p, v);
      if IsMaskExport(p, v) then Recorded(p, ActiveGuard(p, v)) else LiveAfter(p, instructions[..last], before)
  }

  lemma ExportsKnown(p: Program, v: nat)
    requires WellFormed(p)
    ensures IsExport(p, v) ==> Known(p, ActiveGuard(p, v))
  {
    if IsExport(p, v) { assert forall i :: 0 <= i < |p.values[v].arguments| ==> p.values[v].arguments[i] < |p.values|; }
  }

  function Instructions(p: Program, b: nat): seq<nat> { if b < |p.blocks| then p.blocks[b] else [] }

  ghost predicate PathWrites(p: Program, path: seq<nat>, g: Guard)
    requires WellFormed(p)
  {
    exists i :: 0 <= i < |path| && BlockWrites(p, Instructions(p, path[i]), g)
  }

  ghost function PathLive(p: Program, path: seq<nat>): (g: Guard)
    requires WellFormed(p)
    ensures Known(p, g)
  {
    if path == [] then None
    else LiveAfter(p, Instructions(p, path[|path| - 1]), PathLive(p, path[..|path| - 1]))
  }

  // ----- What the analysis accepts, said over all paths

  ghost predicate TableOk(p: Program, edges: Edges) {
    && 0 < |p.blocks| == |p.metadata| == |edges|
    && DistinctIds(p.metadata)
    && forall i :: 0 <= i < |edges| ==> BlockOk(p, i, edges[i])
  }

  ghost predicate BlockOk(p: Program, i: nat, list: seq<nat>)
    requires i < |p.metadata|
  {
    !p.metadata[i].loopHeader && !p.metadata[i].kind.OtherKind? && EdgeListOf(p.metadata, i, list)
  }

  ghost predicate AllWrite(p: Program, edges: Edges, b: nat, g: Guard)
    requires WellFormed(p)
  {
    forall path :: PathTo(edges, path, b) ==> PathWrites(p, path, g)
  }

  ghost predicate AllLive(p: Program, edges: Edges, b: nat, g: Guard)
    requires WellFormed(p)
  {
    forall path :: PathTo(edges, path, b) ==> PathLive(p, path) == g
  }

  predicate Proves(p: Program, oracle: Oracle, live: Guard, guard: Guard)
    requires WellFormed(p) && Known(p, live) && Known(p, guard)
  {
    Implies(p, live, guard) || GuardImplies(oracle, live, guard)
  }

  /** At a return: every path writes unconditionally, or all paths keep under one guard that is literally
  false or provably implies a guard every path writes under. */
  ghost predicate ReturnDefined(p: Program, edges: Edges, oracle: Oracle, b: nat)
    requires WellFormed(p)
  {
    || AllWrite(p, edges, b, None)
    || exists live :: Known(p, live) && AllLive(p, edges, b, live) &&
         (Boolean(p, live, false) || exists g :: Known(p, g) && AllWrite(p, edges, b, g) && Proves(p, oracle, live, g))
  }

  ghost predicate Reachable(edges: Edges, b: nat) { exists path :: PathTo(edges, path, b) }

  ghost predicate Accepted(p: Program, edges: Edges, oracle: Oracle)
    requires WellFormed(p)
  {
    && TableOk(p, edges) && NoCycleFromEntry(edges)
    && forall b :: 0 <= b < |edges| && Reachable(edges, b) && p.metadata[b].kind.ReturnKind? ==>
       ReturnDefined(p, edges, oracle, b)
  }

  // ----- What acceptance means

  /** Lane `l` executes every instruction of the blocks of `path`. */
  ghost predicate Follows(p: Program, w: Wave, l: Lane, path: seq<nat>) {
    forall i, k :: 0 <= i < |path| && 0 <= k < |Instructions(p, path[i])| ==> w.runs(l, Instructions(p, path[i])[k])
  }

  /** On its path the lane executed a stencil export whose guard it found true. */
  ghost predicate WroteStencil(p: Program, w: Wave, l: Lane, path: seq<nat>) {
    exists i, k :: 0 <= i < |path| && 0 <= k < |Instructions(p, path[i])| &&
      StencilExportTaken(p, w, l, Instructions(p, path[i])[k])
  }

  ghost predicate StencilExportTaken(p: Program, w: Wave, l: Lane, v: nat) {
    IsExport(p, v) && p.values[v].exportInfo.stencil && True(w, l, ActiveGuard(p, v))
  }

  /** Executed exports have executed guards, and recording a guard keeps its value. */
  ghost predicate ExportModel(p: Program, w: Wave, l: Lane) {
    BooleanModel(p, w, l) && forall v: nat :: IsExport(p, v) && w.runs(l, v) ==> ExportValue(p, w, l, ActiveGuard(p, v))
  }

  ghost predicate ExportValue(p: Program, w: Wave, l: Lane, g: Guard) {
    && Known(p, g) && Computed(w, l, Recorded(p, g))
    && (True(w, l, Recorded(p, g)) <==> True(w, l, g))
  }

  lemma ConsistentExports(p: Program, w: Wave, l: Lane)
    requires WellFormed(p) && Consistent(p, w)
    ensures ExportModel(p, w, l)
  {
    ConsistentIsBoolean(p, w, l);
    forall v: nat | IsExport(p, v) && w.runs(l, v) ensures ExportValue(p, w, l, ActiveGuard(p, v)) {
      assert Computes(p, w, l, v) && ArityOk(p.values[v]);
      var g := p.values[v].arguments[1];
      assert w.runs(l, g) && g < |p.values| && BooleanValue(p.values[g], w, l, g);
    }
  }

  lemma PathWritesTaken(p: Program, w: Wave, l: Lane, path: seq<nat>, g: Guard)
    requires WellFormed(p) && ExportModel(p, w, l) && Follows(p, w, l, path) && PathWrites(p, path, g) && Known(p, g)
    ensures Computed(w, l, g)
    ensures True(w, l, g) ==> WroteStencil(p, w, l, path)
  {
    var i :| 0 <= i < |path| && BlockWrites(p, Instructions(p, path[i]), g);
    var block := Instructions(p, path[i]);
    var k :| 0 <= k < |block| && ExportsStencil(p, block[k], g);
    assert ExportValue(p, w, l, ActiveGuard(p, block[k]));
    assert True(w, l, g) ==> StencilExportTaken(p, w, l, Instructions(p, path[i])[k]);
  }

  lemma {:induction false} LiveComputed(p: Program, w: Wave, l: Lane, instructions: seq<nat>, before: Guard)
    requires WellFormed(p) && ExportModel(p, w, l) && Known(p, before) && Computed(w, l, before)
    requires forall i :: 0 <= i < |instructions| ==> w.runs(l, instructions[i])
    ensures Computed(w, l, LiveAfter(p, instructions, before))
  {
    if instructions != [] {
      var last := |instructions| - 1;
      var v := instructions[last];
      if IsMaskExport(p, v) { assert ExportValue(p, w, l, ActiveGuard(p, v)); }
      else { LiveComputed(p, w, l, instructions[..last], before); }
    }
  }

  lemma {:induction false} PathLiveComputed(p: Program, w: Wave, l: Lane, path: seq<nat>)
    requires WellFormed(p) && ExportModel(p, w, l) && Follows(p, w, l, path)
    ensures Computed(w, l, PathLive(p, path))
  {
    if path != [] {
      var last := |path| - 1;
      assert Follows(p, w, l, path[..last]) by {
        forall i, k | 0 <= i < last && 0 <= k < |Instructions(p, path[..last][i])|
          ensures w.runs(l, Instructions(p, path[..last][i])[k]) { assert path[..last][i] == path[i]; }
      }
      PathLiveComputed(p, w, l, path[..last]);
      LiveComputed(p, w, l, Instructions(p, path[last]), PathLive(p, path[..last]));
    }
  }

  lemma FalseGuard(p: Program, w: Wave, l: Lane, g: Guard)
    requires BooleanModel(p, w, l) && Known(p, g) && Computed(w, l, g) && Boolean(p, g, false)
    ensures !True(w, l, g)
  {
    assert BooleanValue(p.values[g.value], w, l, g.value);
  }

  lemma ProvesSound(p: Program, w: Wave, l: Lane, oracle: Oracle, live: Guard, g: Guard)
    requires WellFormed(p) && BooleanModel(p, w, l) && OracleSound(w, l, oracle)
    requires Known(p, live) && Known(p, g) && Computed(w, l, live) && Computed(w, l, g)
    requires Proves(p, oracle, live, g) && True(w, l, live)
    ensures True(w, l, g)
  {
    if Implies(p, live, g) { ImpliesSound(p, w, l, live, g, 0); }
  }

  lemma ReturnDefinesKept(p: Program, edges: Edges, oracle: Oracle, w: Wave, l: Lane, path: seq<nat>, b: nat)
    requires WellFormed(p) && ReturnDefined(p, edges, oracle, b)
    requires ExportModel(p, w, l) && OracleSound(w, l, oracle)
    requires PathTo(edges, path, b) && Follows(p, w, l, path)
    requires True(w, l, PathLive(p, path)) && Computed(w, l, PathLive(p, path))
    ensures WroteStencil(p, w, l, path)
  {
    if AllWrite(p, edges, b, None) {
      PathWritesTaken(p, w, l, path, None);
    } else {
      var live :| Known(p, live) && AllLive(p, edges, b, live) &&
        (Boolean(p, live, false) || exists g :: Known(p, g) && AllWrite(p, edges, b, g) && Proves(p, oracle, live, g));
      if Boolean(p, live, false) {
        FalseGuard(p, w, l, live);
      } else {
        var g :| Known(p, g) && AllWrite(p, edges, b, g) && Proves(p, oracle, live, g);
        PathWritesTaken(p, w, l, path, g);
        ProvesSound(p, w, l, oracle, live, g);
      }
    }
  }

  /** The point of the analysis. On an accepted program, an invocation that runs from the entry to a return
  and whose last valid-mask export is true (or absent) has exported a stencil reference under a true guard. */
  lemma AcceptedDefinesKeptInvocations(p: Program, edges: Edges, oracle: Oracle, w: Wave, l: Lane, path: seq<nat>,
                                       b: nat)
    requires WellFormed(p) && Accepted(p, edges, oracle)
    requires Consistent(p, w) && OracleSound(w, l, oracle)
    requires b < |edges| && PathTo(edges, path, b) && p.metadata[b].kind.ReturnKind? && Follows(p, w, l, path)
    requires True(w, l, PathLive(p, path))
    ensures WroteStencil(p, w, l, path)
  {
    assert Reachable(edges, b);
    ConsistentExports(p, w, l);
    PathLiveComputed(p, w, l, path);
    ReturnDefinesKept(p, edges, oracle, w, l, path, b);
  }
}
