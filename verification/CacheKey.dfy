/** The keys of cached shaders: the words of the interface, and the bytes that name a disk entry. Runs of plain fields
are sequences of fixed length, in the order they are appended. */
module CacheKey {
  import opened Wrappers
  import opened Uleb128
  import opened Serial
  import opened WordVectors
  import opened EntryContainer

  datatype Stage = Compute | Vertex | TessellationControl | TessellationEvaluation | Geometry | Fragment | Local | Mesh

  function StageWord(s: Stage): nat {
    match s
    case Compute => 0
    case Vertex => 1
    case TessellationControl => 2
    case TessellationEvaluation => 3
    case Geometry => 4
    case Fragment => 5
    case Local => 6
    case Mesh => 7
  }

  /** What the key covers of a vertex resource: an embedded fetch leaves out the numeric class and the fetch index. */
  datatype Resource = Resource(numericClass: nat, registerStart: nat, registersNum: nat, attrId: nat, fetchIndex: nat)

  datatype PixelInfo = PixelInfo(interpolators: seq<nat>, fields: seq<nat>)
  datatype VertexInfo = VertexInfo(fetchAttribReg: nat, fetchBufferReg: nat, fetchEmbedded: bool, paClVsOutCntl: nat,
                                   resources: seq<Resource>)
  datatype Target = Target(versions: seq<nat>, capabilities: seq<nat>, extensions: seq<seq<nat>>, limits: seq<nat>,
                           mesh: Option<seq<nat>>, tessellation: Option<seq<nat>>, features: seq<nat>)

  /** What stands for the code: its length and hash, or all its words where hashing is switched off. */
  datatype CodePart = Hashed(size: nat, hash: nat) | Whole(words: seq<nat>)

  /** Everything the key covers. `mesh` and `tessellation` are only looked at in their stages. */
  datatype Interface = Interface(stage: Stage, code: CodePart, context: seq<nat>, compute: Option<seq<nat>>,
                                 pixel: Option<PixelInfo>, vertex: Option<VertexInfo>, floatMode: Option<seq<nat>>,
                                 fallbacks: seq<nat>, mesh: Option<seq<nat>>, tessellation: Option<seq<nat>>,
                                 target: Target, switches: seq<nat>)

  predicate Tessellates(s: Stage) { s == Local || s == TessellationControl || s == TessellationEvaluation }

  /** The lengths of the runs, and what an absent part leaves out. */
  ghost predicate WellShaped(i: Interface) {
    && |i.context| == 3 && OfLength(i.compute, 11) && OfLength(i.floatMode, 4) && |i.switches| == 3
    && (i.pixel.Some? ==> |i.pixel.value.fields| == 37)
    && (i.vertex.Some? && i.vertex.value.fetchEmbedded ==> forall r <- i.vertex.value.resources ::
        r.numericClass == 0
        && r.fetchIndex == 0)
    && OfLength(i.mesh, 10) && (i.stage != Mesh ==> i.mesh.None?)
    && OfLength(i.tessellation, if i.stage == Local then 5 else 8) && (!Tessellates(i.stage) ==> i.tessellation.None?)
    && |i.target.versions| == 4 && |i.target.limits| == 6 && |i.target.features| == 9
    && OfLength(i.target.mesh, 11) && OfLength(i.target.tessellation, 7)
  }

  ghost predicate OfLength(part: Option<seq<nat>>, n: nat) { part.Some? ==> |part.value| == n }

  // ----- Words

  function Counted(xs: seq<nat>): seq<nat> { [|xs|] + xs }

  function Optional(part: Option<seq<nat>>): seq<nat> { if part.Some? then [1] + part.value else [0] }

  function PixelWords(p: Option<PixelInfo>): seq<nat> {
    if p.Some? then [1] + (Counted(p.value.interpolators) + p.value.fields) else [0]
  }

  function ResourceWords(embedded: bool, r: Resource): seq<nat> {
    (if embedded then [] else [r.numericClass]) + [r.registerStart, r.registersNum, r.attrId, r.fetchIndex]
  }

  function ResourcesWords(embedded: bool, rs: seq<Resource>): seq<nat> {
    if rs == [] then [] else ResourceWords(embedded, rs[0]) + ResourcesWords(embedded, rs[1..])
  }

  function VertexWords(v: Option<VertexInfo>): seq<nat> {
    if v.None? then [0]
    else
      var x := v.value;
      [1, x.fetchAttribReg, x.fetchBufferReg, if x.fetchEmbedded then 1
       else 0, x.paClVsOutCntl, |x.resources|] + ResourcesWords(x.fetchEmbedded, x.resources)
  }

  function TextsWords(texts: seq<seq<nat>>): seq<nat> {
    if texts == [] then [] else Counted(texts[0]) + TextsWords(texts[1..])
  }

  function TargetWords(t: Target): seq<nat> {
    t.versions + (Counted(t.capabilities)
                  + (([|t.extensions|] + TextsWords(t.extensions))
                     + (t.limits + (Optional(t.mesh) + (Optional(t.tessellation) + t.features)))))
  }

  function MeshWords(i: Interface): seq<nat> { if i.stage == Mesh then Optional(i.mesh) else [] }
  function TessellationWords(i: Interface): seq<nat> { if Tessellates(i.stage) then Optional(i.tessellation) else [] }

  const ABI_VERSION: nat := 12

  function CodeWords(c: CodePart): seq<nat> { if c.Hashed? then [c.size, c.hash] else Counted(c.words) }

  function InterfaceWords(i: Interface): seq<nat> {
    i.context + (Optional(i.compute)
                 + (PixelWords(i.pixel) + (VertexWords(i.vertex) + (Optional(i.floatMode) + (Counted(i.fallbacks)
    + (MeshWords(i) + (TessellationWords(i) + (TargetWords(i.target) + i.switches))))))))
  }

  function KeyWords(i: Interface): seq<nat> {
    [ABI_VERSION, StageWord(i.stage)] + (CodeWords(i.code) + InterfaceWords(i))
  }

  // ----- Prefix decodability

  /** Runs of one length are told apart from what follows them. */
  lemma RunPrefix<T>(a: seq<T>, b: seq<T>, s: seq<T>, t: seq<T>)
    requires |a| == |b| && a + s == b + t
    ensures a == b && s == t
  {
    assert a == (a + s)[..|a|] == b;
    assert s == (a + s)[|a|..] == t;
  }

  lemma CountedPrefix(xs: seq<nat>, ys: seq<nat>, s: seq<nat>, t: seq<nat>)
    requires Counted(xs) + s == Counted(ys) + t
    ensures xs == ys && s == t
  {
    assert |xs| == (Counted(xs) + s)[0] == |ys|;
    RunPrefix(Counted(xs), Counted(ys), s, t);
    assert xs == Counted(xs)[1..];
  }

  lemma OptionalPrefix(p: Option<seq<nat>>, q: Option<seq<nat>>, n: nat, s: seq<nat>, t: seq<nat>)
    requires OfLength(p, n) && OfLength(q, n) && Optional(p) + s == Optional(q) + t
    ensures p == q && s == t
  {
    assert (if p.Some? then 1 else 0) == (Optional(p) + s)[0] == (if q.Some? then 1 else 0);
    RunPrefix(Optional(p), Optional(q), s, t);
    if p.Some? { assert p.value == Optional(p)[1..]; }
  }

  lemma FirstPrefix(a: seq<nat>, b: seq<nat>, s: seq<nat>, t: seq<nat>)
    requires a != [] && b != [] && a + s == b + t
    ensures a[0] == b[0] && a[1..] + s == b[1..] + t
  {
    assert a[0] == (a + s)[0] == b[0];
    assert a[1..] + s == (a + s)[1..] && b[1..] + t == (b + t)[1..];
  }

  lemma PixelPrefix(p: Option<PixelInfo>, q: Option<PixelInfo>, s: seq<nat>, t: seq<nat>)
    requires (p.Some? ==> |p.value.fields| == 37) && (q.Some? ==> |q.value.fields| == 37)
    requires PixelWords(p) + s == PixelWords(q) + t
    ensures p == q && s == t
  {
    FirstPrefix(PixelWords(p), PixelWords(q), s, t);
    if p.Some? {
      var x, y := p.value, q.value;
      assert PixelWords(p)[1..] + s == Counted(x.interpolators) + (x.fields + s);
      assert PixelWords(q)[1..] + t == Counted(y.interpolators) + (y.fields + t);
      CountedPrefix(x.interpolators, y.interpolators, x.fields + s, y.fields + t);
      RunPrefix(x.fields, y.fields, s, t);
    } else {
      assert PixelWords(p)[1..] + s == s && PixelWords(q)[1..] + t == t;
    }
  }

  lemma {:induction false} ResourcesPrefix(embedded: bool, rs: seq<Resource>, us: seq<Resource>, s: seq<nat>,
                                           t: seq<nat>)
    requires |rs| == |us| && ResourcesWords(embedded, rs) + s == ResourcesWords(embedded, us) + t
    requires embedded ==> (forall r <- rs :: r.numericClass == 0) && (forall r <- us :: r.numericClass == 0)
    ensures rs == us && s == t
    decreases |rs|
  {
    if rs == [] {
      assert [] + s == s && [] + t == t;
    } else {
      var a, b := ResourceWords(embedded, rs[0]), ResourceWords(embedded, us[0]);
      assert ResourcesWords(embedded, rs) + s == a + (ResourcesWords(embedded, rs[1..]) + s);
      assert ResourcesWords(embedded, us) + t == b + (ResourcesWords(embedded, us[1..]) + t);
      RunPrefix(a, b, ResourcesWords(embedded, rs[1..]) + s, ResourcesWords(embedded, us[1..]) + t);
      SameResource(embedded, rs[0], us[0]);
      ResourcesPrefix(embedded, rs[1..], us[1..], s, t);
      assert rs == [rs[0]] + rs[1..] && us == [us[0]] + us[1..];
    }
  }

  lemma SameResource(embedded: bool, r: Resource, u: Resource)
    requires ResourceWords(embedded, r) == ResourceWords(embedded, u)
             && (embedded ==> r.numericClass == u.numericClass == 0)
    ensures r == u
  {
    var a, b := ResourceWords(embedded, r), ResourceWords(embedded, u);
    var k := if embedded then 0 else 1;
    assert a[k] == b[k] && a[k + 1] == b[k + 1] && a[k + 2] == b[k + 2] && a[k + 3] == b[k + 3] && a[0] == b[0];
  }

  lemma VertexPrefix(v: Option<VertexInfo>, w: Option<VertexInfo>, s: seq<nat>, t: seq<nat>)
    requires VertexWords(v) + s == VertexWords(w) + t
    requires v.Some? && v.value.fetchEmbedded ==> forall r <- v.value.resources ::
             r.numericClass == 0
             && r.fetchIndex == 0
    requires w.Some? && w.value.fetchEmbedded ==> forall r <- w.value.resources ::
             r.numericClass == 0
             && r.fetchIndex == 0
    ensures v == w && s == t
  {
    FirstPrefix(VertexWords(v), VertexWords(w), s, t);
    if v.Some? {
      var x, y := v.value, w.value;
      var a := [1, x.fetchAttribReg, x.fetchBufferReg, if x.fetchEmbedded then 1
                else 0, x.paClVsOutCntl, |x.resources|];
      var b := [1, y.fetchAttribReg, y.fetchBufferReg, if y.fetchEmbedded then 1
                else 0, y.paClVsOutCntl, |y.resources|];
      var rest, other := ResourcesWords(x.fetchEmbedded, x.resources) + s,
          ResourcesWords(y.fetchEmbedded, y.resources) + t;
      assert VertexWords(v) + s == a + rest && VertexWords(w) + t == b + other;
      RunPrefix(a, b, rest, other);
      assert a[1] == b[1] && a[2] == b[2] && a[3] == b[3] && a[4] == b[4] && a[5] == b[5];
      ResourcesPrefix(x.fetchEmbedded, x.resources, y.resources, s, t);
    } else {
      assert VertexWords(v)[1..] + s == s && VertexWords(w)[1..] + t == t;
    }
  }

  lemma {:induction false} TextsPrefix(a: seq<seq<nat>>, b: seq<seq<nat>>, s: seq<nat>, t: seq<nat>)
    requires |a| == |b| && TextsWords(a) + s == TextsWords(b) + t
    ensures a == b && s == t
    decreases |a|
  {
    if a == [] {
      assert [] + s == s && [] + t == t;
    } else {
      assert TextsWords(a) + s == Counted(a[0]) + (TextsWords(a[1..]) + s);
      assert TextsWords(b) + t == Counted(b[0]) + (TextsWords(b[1..]) + t);
      CountedPrefix(a[0], b[0], TextsWords(a[1..]) + s, TextsWords(b[1..]) + t);
      TextsPrefix(a[1..], b[1..], s, t);
      assert a == [a[0]] + a[1..] && b == [b[0]] + b[1..];
    }
  }

  // ----- The same with more to come after what follows

  lemma PeelRun(x: seq<nat>, y: seq<nat>, r: seq<nat>, q: seq<nat>, s: seq<nat>, t: seq<nat>)
    requires |x| == |y| && x + r + s == y + q + t
    ensures x == y && r + s == q + t
  {
    assert x + r + s == x + (r + s) && y + q + t == y + (q + t);
    RunPrefix(x, y, r + s, q + t);
  }

  lemma PeelCounted(x: seq<nat>, y: seq<nat>, r: seq<nat>, q: seq<nat>, s: seq<nat>, t: seq<nat>)
    requires Counted(x) + r + s == Counted(y) + q + t
    ensures x == y && r + s == q + t
  {
    assert Counted(x) + r + s == Counted(x) + (r + s) && Counted(y) + q + t == Counted(y) + (q + t);
    CountedPrefix(x, y, r + s, q + t);
  }

  lemma PeelOptional(x: Option<seq<nat>>, y: Option<seq<nat>>, n: nat, r: seq<nat>, q: seq<nat>, s: seq<nat>,
                     t: seq<nat>)
    requires OfLength(x, n) && OfLength(y, n) && Optional(x) + r + s == Optional(y) + q + t
    ensures x == y && r + s == q + t
  {
    assert Optional(x) + r + s == Optional(x) + (r + s) && Optional(y) + q + t == Optional(y) + (q + t);
    OptionalPrefix(x, y, n, r + s, q + t);
  }

  lemma Regroup(a: seq<nat>, b: seq<nat>, c: seq<nat>, d: seq<nat>)
    ensures (a + b) + c + d == a + (b + (c + d))
  {
  }

  lemma PeelTexts(x: seq<seq<nat>>, y: seq<seq<nat>>, r: seq<nat>, q: seq<nat>, s: seq<nat>, t: seq<nat>)
    requires ([|x|] + TextsWords(x)) + r + s == ([|y|] + TextsWords(y)) + q + t
    ensures x == y && r + s == q + t
  {
    Regroup([|x|], TextsWords(x), r, s);
    Regroup([|y|], TextsWords(y), q, t);
    RunPrefix([|x|], [|y|], TextsWords(x) + (r + s), TextsWords(y) + (q + t));
    assert [|x|][0] == [|y|][0];
    TextsPrefix(x, y, r + s, q + t);
  }

  lemma TargetPrefix(a: Target, b: Target, s: seq<nat>, t: seq<nat>)
    requires |a.versions| == |b.versions| == 4 && |a.limits| == |b.limits| == 6 && |a.features| == |b.features| == 9
    requires OfLength(a.mesh, 11) && OfLength(b.mesh, 11) && OfLength(a.tessellation, 7) && OfLength(b.tessellation, 7)
    requires TargetWords(a) + s == TargetWords(b) + t
    ensures a == b && s == t
  {
    var a5, b5 := Optional(a.tessellation) + a.features, Optional(b.tessellation) + b.features;
    var a4, b4 := Optional(a.mesh) + a5, Optional(b.mesh) + b5;
    var a3, b3 := a.limits + a4, b.limits + b4;
    var a2, b2 := ([|a.extensions|] + TextsWords(a.extensions)) + a3,
        ([|b.extensions|] + TextsWords(b.extensions)) + b3;
    var a1, b1 := Counted(a.capabilities) + a2, Counted(b.capabilities) + b2;
    PeelRun(a.versions, b.versions, a1, b1, s, t);
    PeelCounted(a.capabilities, b.capabilities, a2, b2, s, t);
    PeelTexts(a.extensions, b.extensions, a3, b3, s, t);
    PeelRun(a.limits, b.limits, a4, b4, s, t);
    PeelOptional(a.mesh, b.mesh, 11, a5, b5, s, t);
    PeelOptional(a.tessellation, b.tessellation, 7, a.features, b.features, s, t);
    RunPrefix(a.features, b.features, s, t);
  }

  lemma StagesDiffer(a: Stage, b: Stage)
    ensures StageWord(a) == StageWord(b) <==> a == b
  {
  }

  lemma StagePartsPrefix(i: Interface, j: Interface, s: seq<nat>, t: seq<nat>)
    requires WellShaped(i) && WellShaped(j) && i.stage == j.stage
    requires MeshWords(i) + (TessellationWords(i) + s) == MeshWords(j) + (TessellationWords(j) + t)
    ensures i.mesh == j.mesh && i.tessellation == j.tessellation && s == t
  {
    if i.stage == Mesh {
      OptionalPrefix(i.mesh, j.mesh, 10, TessellationWords(i) + s, TessellationWords(j) + t);
    } else {
      assert MeshWords(i) + (TessellationWords(i) + s) == TessellationWords(i) + s;
      assert MeshWords(j) + (TessellationWords(j) + t) == TessellationWords(j) + t;
    }
    if Tessellates(i.stage) {
      OptionalPrefix(i.tessellation, j.tessellation, if i.stage == Local then 5 else 8, s, t);
    } else {
      assert TessellationWords(i) + s == s && TessellationWords(j) + t == t;
    }
  }

  lemma CodePartPrefix(c: CodePart, d: CodePart, s: seq<nat>, t: seq<nat>)
    requires c.Hashed? == d.Hashed? && CodeWords(c) + s == CodeWords(d) + t
    ensures c == d && s == t
  {
    if c.Hashed? {
      RunPrefix(CodeWords(c), CodeWords(d), s, t);
      assert CodeWords(c)[0] == c.size && CodeWords(c)[1] == c.hash && CodeWords(d)[0] == d.size
          && CodeWords(d)[1] == d.hash;
    } else {
      CountedPrefix(c.words, d.words, s, t);
    }
  }

  /** What follows the code tells the rest of the interface. */
  lemma InterfaceWordsInjective(i: Interface, j: Interface)
    requires WellShaped(i) && WellShaped(j) && i.stage == j.stage && i.code == j.code
             && InterfaceWords(i) == InterfaceWords(j)
    ensures i == j
  {
    var s, t := TargetWords(i.target) + i.switches, TargetWords(j.target) + j.switches;
    var a5 := Counted(i.fallbacks) + (MeshWords(i) + (TessellationWords(i) + s));
    var b5 := Counted(j.fallbacks) + (MeshWords(j) + (TessellationWords(j) + t));
    var a4, b4 := Optional(i.floatMode) + a5, Optional(j.floatMode) + b5;
    var a3, b3 := VertexWords(i.vertex) + a4, VertexWords(j.vertex) + b4;
    var a2, b2 := PixelWords(i.pixel) + a3, PixelWords(j.pixel) + b3;
    RunPrefix(i.context, j.context, Optional(i.compute) + a2, Optional(j.compute) + b2);
    OptionalPrefix(i.compute, j.compute, 11, a2, b2);
    PixelPrefix(i.pixel, j.pixel, a3, b3);
    VertexPrefix(i.vertex, j.vertex, a4, b4);
    OptionalPrefix(i.floatMode, j.floatMode, 4, a5, b5);
    CountedPrefix(i.fallbacks, j.fallbacks, MeshWords(i) + (TessellationWords(i) + s),
                  MeshWords(j) + (TessellationWords(j) + t));
    StagePartsPrefix(i, j, s, t);
    TargetPrefix(i.target, j.target, i.switches, j.switches);
  }

  lemma KeyHeads(i: Interface, j: Interface)
    requires KeyWords(i) == KeyWords(j)
    ensures i.stage == j.stage && CodeWords(i.code) + InterfaceWords(i) == CodeWords(j.code) + InterfaceWords(j)
  {
    var head, other := [ABI_VERSION, StageWord(i.stage)], [ABI_VERSION, StageWord(j.stage)];
    RunPrefix(head, other, CodeWords(i.code) + InterfaceWords(i), CodeWords(j.code) + InterfaceWords(j));
    assert head[1] == other[1];
    StagesDiffer(i.stage, j.stage);
  }

  /** Equal key words come from equal interfaces, whichever form the code has in a process. */
  lemma KeyWordsInjective(i: Interface, j: Interface)
    requires WellShaped(i) && WellShaped(j) && i.code.Hashed? == j.code.Hashed? && KeyWords(i) == KeyWords(j)
    ensures i == j
  {
    KeyHeads(i, j);
    CodePartPrefix(i.code, j.code, InterfaceWords(i), InterfaceWords(j));
    InterfaceWordsInjective(i, j);
  }

  /** Key words of the two forms are equal only if the hash of the code is its first word, or the wave size if it has
      none. */
  lemma FormsDiffer(i: Interface, j: Interface)
    requires WellShaped(i) && WellShaped(j) && i.code.Hashed? && j.code.Whole? && KeyWords(i) == KeyWords(j)
    ensures i.code.hash == if j.code.words == [] then j.context[0] else j.code.words[0]
  {
    KeyHeads(i, j);
    ContextFirst(j);
    SecondWord(i.code.size, i.code.hash, j.code.words, InterfaceWords(i), InterfaceWords(j));
  }

  lemma ContextFirst(i: Interface)
    requires |i.context| == 3
    ensures InterfaceWords(i) != [] && InterfaceWords(i)[0] == i.context[0]
  {
  }

  lemma SecondWord(size: nat, hash: nat, words: seq<nat>, s: seq<nat>, t: seq<nat>)
    requires [size, hash] + s == Counted(words) + t && t != []
    ensures hash == if words == [] then t[0] else words[0]
  {
    assert ([size, hash] + s)[1] == hash;
    assert (Counted(words) + t)[1] == if words == [] then t[0] else words[0];
  }

  // ----- Bytes

  /** What a disk entry is stored for. */
  datatype Request = Request(interface: Interface, code: seq<nat>, hostSubgroupSize: nat, layout: seq<nat>)

  type CodeHash = seq<nat> -> nat

  /** The code part of the interface is that of the code. */
  ghost predicate Coded(codeHash: CodeHash, r: Request) {
    match r.interface.code
    case Hashed(size, hash) => size == |r.code| && hash == codeHash(r.code)
    case Whole(words) => words == r.code
  }

  /** The hash of the code is what its whole form begins with. */
  ghost predicate Mimics(codeHash: CodeHash, r: Request)
    requires WellShaped(r.interface)
  {
    codeHash(r.code) == if r.code == [] then r.interface.context[0] else r.code[0]
  }

  ghost predicate Fits(r: Request) {
    && WellShaped(r.interface) && |KeyWords(r.interface)| < WORD_LIMIT
    && (forall w <- KeyWords(r.interface) :: w < WORD_LIMIT)
    && Words32(r.code) && r.hostSubgroupSize < 0x1_0000_0000 && |r.layout| == 4
    && forall k :: 0 <= k < 4 ==> r.layout[k] < 0x1_0000_0000
  }

  function WideEnc(): (nat, nat) -> seq<Byte> { (x: nat, i: nat) => Fixed(x, 8) }
  function WideDec(data: seq<Byte>): (nat, nat) -> Read<nat> { (p: nat, i: nat) => ReadFixed(data, p, 8) }

  function LayoutBytes(layout: seq<nat>): seq<Byte>
    requires |layout| == 4
  {
    Fixed(layout[0], 4) + (Fixed(layout[1], 4) + (Fixed(layout[2], 4) + Fixed(layout[3], 4)))
  }

  /** A switch of the environment that can change the result, by name and value. */
  datatype Switch = Switch(name: seq<Byte>, value: seq<Byte>)

  ghost predicate FitsSwitches(switches: seq<Switch>) {
    forall x <- switches :: |x.name| < WORD_LIMIT && |x.value| < WORD_LIMIT
  }

  function TextBytes(text: seq<Byte>): seq<Byte> { Fixed(|text|, 8) + text }

  /** The switches that are set, one after another without a count. */
  function SwitchBytes(switches: seq<Switch>): seq<Byte> {
    if switches == [] then [] else TextBytes(switches[0].name)
                                   + (TextBytes(switches[0].value) + SwitchBytes(switches[1..]))
  }

  function Head(b: Build): seq<Byte> { Fixed(MAGIC, 4) + Fixed(b.format, 4) + Fixed(b.sourceVersion, 8) }

  /** The key of a request, under the switches of the process. */
  function KeyBytes(b: Build, r: Request, switches: seq<Switch>): seq<Byte>
    requires |r.layout| == 4
  {
    Head(b) + (EncodeCounted(KeyWords(r.interface), WideEnc()) + (EncodeWords(r.code)
    + (Fixed(r.hostSubgroupSize, 4) + (LayoutBytes(r.layout) + SwitchBytes(switches)))))
  }

  lemma FixedInjective(x: nat, y: nat, width: nat)
    requires x < Range(width) && y < Range(width) && Fixed(x, width) == Fixed(y, width)
    ensures x == y
  {
    FixedReads(x, width);
    FixedReads(y, width);
  }

  lemma WideRead(data: seq<Byte>, xs: seq<nat>, rest: seq<Byte>)
    requires data == EncodeCounted(xs, WideEnc()) + rest && |xs| < WORD_LIMIT && forall w <- xs :: w < WORD_LIMIT
    ensures ReadCounted(data, 0, 8, WideDec(data)) == Got(xs, |EncodeCounted(xs, WideEnc())|)
  {
    RangeOf8();
    HoldsAll(data, data);
    HoldsParts(data, 0, EncodeCounted(xs, WideEnc()), rest);
    forall i: nat | i < |xs| ensures |WideEnc()(xs[i], i)| >= 8 && Decodes(data, xs[i], i, WideEnc(), WideDec(data)) {
      assert xs[i] in xs;
      forall p: nat | Holds(data, p, Fixed(xs[i], 8)) ensures ReadFixed(data, p, 8) == Got(xs[i], p + 8) {
        FixedHolds(data, p, xs[i], 8);
      }
    }
    CountedReads(data, 0, xs, 8, WideEnc(), WideDec(data));
  }

  lemma WidePrefix(xs: seq<nat>, ys: seq<nat>, s: seq<Byte>, t: seq<Byte>)
    requires EncodeCounted(xs, WideEnc()) + s == EncodeCounted(ys, WideEnc()) + t
    requires |xs| < WORD_LIMIT && |ys| < WORD_LIMIT && (forall w <- xs :: w < WORD_LIMIT)
             && forall w <- ys :: w < WORD_LIMIT
    ensures xs == ys && s == t
  {
    var data := EncodeCounted(xs, WideEnc()) + s;
    WideRead(data, xs, s);
    WideRead(data, ys, t);
    RunPrefix(EncodeCounted(xs, WideEnc()), EncodeCounted(ys, WideEnc()), s, t);
  }

  lemma CodePrefix(xs: seq<nat>, ys: seq<nat>, s: seq<Byte>, t: seq<Byte>)
    requires EncodeWords(xs) + s == EncodeWords(ys) + t && Words32(xs) && Words32(ys)
    ensures xs == ys && s == t
  {
    var data := EncodeWords(xs) + s;
    HoldsAll(data, data);
    var next := WordsRead(data, 0, xs, s);
    var other := WordsRead(data, 0, ys, t);
    RunPrefix(EncodeWords(xs), EncodeWords(ys), s, t);
  }

  lemma LayoutInjective(a: seq<nat>, b: seq<nat>)
    requires |a| == |b| == 4 && LayoutBytes(a) == LayoutBytes(b)
    requires forall k :: 0 <= k < 4 ==> a[k] < 0x1_0000_0000 && b[k] < 0x1_0000_0000
    ensures a == b
  {
    RangeOf8();
    RunPrefix(Fixed(a[0], 4), Fixed(b[0], 4), Fixed(a[1], 4) + (Fixed(a[2], 4) + Fixed(a[3], 4)),
              Fixed(b[1], 4) + (Fixed(b[2], 4) + Fixed(b[3], 4)));
    RunPrefix(Fixed(a[1], 4), Fixed(b[1], 4), Fixed(a[2], 4) + Fixed(a[3], 4), Fixed(b[2], 4) + Fixed(b[3], 4));
    RunPrefix(Fixed(a[2], 4), Fixed(b[2], 4), Fixed(a[3], 4), Fixed(b[3], 4));
    FixedInjective(a[0], b[0], 4);
    FixedInjective(a[1], b[1], 4);
    FixedInjective(a[2], b[2], 4);
    FixedInjective(a[3], b[3], 4);
  }

  lemma TextPrefix(x: seq<Byte>, y: seq<Byte>, s: seq<Byte>, t: seq<Byte>)
    requires |x| < WORD_LIMIT && |y| < WORD_LIMIT && TextBytes(x) + s == TextBytes(y) + t
    ensures x == y && s == t
  {
    assert TextBytes(x) + s == Fixed(|x|, 8) + (x + s) && TextBytes(y) + t == Fixed(|y|, 8) + (y + t);
    RunPrefix(Fixed(|x|, 8), Fixed(|y|, 8), x + s, y + t);
    RangeOf8();
    FixedInjective(|x|, |y|, 8);
    RunPrefix(x, y, s, t);
  }

  lemma {:induction false} SwitchesInjective(a: seq<Switch>, b: seq<Switch>)
    requires FitsSwitches(a) && FitsSwitches(b) && SwitchBytes(a) == SwitchBytes(b)
    ensures a == b
    decreases |a|
  {
    if a != [] && b != [] {
      assert a[0] in a && b[0] in b;
      TextPrefix(a[0].name, b[0].name, TextBytes(a[0].value) + SwitchBytes(a[1..]),
                 TextBytes(b[0].value) + SwitchBytes(b[1..]));
      TextPrefix(a[0].value, b[0].value, SwitchBytes(a[1..]), SwitchBytes(b[1..]));
      SwitchesInjective(a[1..], b[1..]);
      assert a == [a[0]] + a[1..] && b == [b[0]] + b[1..];
    }
  }

  /** The parts of equal keys are equal. */
  lemma KeyParts(b: Build, c: Build, r: Request, u: Request, switches: seq<Switch>, others: seq<Switch>)
    requires FitsBuild(b) && FitsBuild(c) && Fits(r) && Fits(u) && FitsSwitches(switches) && FitsSwitches(others)
    requires KeyBytes(b, r, switches) == KeyBytes(c, u, others)
    ensures b == c && switches == others && KeyWords(r.interface) == KeyWords(u.interface)
    ensures r.code == u.code && r.hostSubgroupSize == u.hostSubgroupSize && r.layout == u.layout
  {
    var s, t := SwitchBytes(switches), SwitchBytes(others);
    var a3, b3 := LayoutBytes(r.layout) + s, LayoutBytes(u.layout) + t;
    var a2, b2 := Fixed(r.hostSubgroupSize, 4) + a3, Fixed(u.hostSubgroupSize, 4) + b3;
    var a1, b1 := EncodeWords(r.code) + a2, EncodeWords(u.code) + b2;
    RunPrefix(Head(b), Head(c), EncodeCounted(KeyWords(r.interface), WideEnc()) + a1,
              EncodeCounted(KeyWords(u.interface), WideEnc()) + b1);
    HeadInjective(b, c);
    WidePrefix(KeyWords(r.interface), KeyWords(u.interface), a1, b1);
    CodePrefix(r.code, u.code, a2, b2);
    RunPrefix(Fixed(r.hostSubgroupSize, 4), Fixed(u.hostSubgroupSize, 4), a3, b3);
    RangeOf8();
    FixedInjective(r.hostSubgroupSize, u.hostSubgroupSize, 4);
    RunPrefix(LayoutBytes(r.layout), LayoutBytes(u.layout), s, t);
    LayoutInjective(r.layout, u.layout);
    SwitchesInjective(switches, others);
  }

  /** Equal keys come from the same build, equal requests and equal switches. The switch that chooses the form of the
      code is not among those; two processes that differ in it have different keys, unless a hash happens to be the
      first word. */
  lemma KeyInjective(codeHash: CodeHash, b: Build, c: Build, r: Request, u: Request, switches: seq<Switch>,
                     others: seq<Switch>)
    requires FitsBuild(b) && FitsBuild(c) && Fits(r) && Fits(u) && FitsSwitches(switches) && FitsSwitches(others)
    requires Coded(codeHash, r) && Coded(codeHash, u) && KeyBytes(b, r, switches) == KeyBytes(c, u, others)
    ensures b == c && switches == others
    ensures if r.interface.code.Hashed? == u.interface.code.Hashed? then r == u
            else Mimics(codeHash, r) || Mimics(codeHash, u)
  {
    KeyParts(b, c, r, u, switches, others);
    if r.interface.code.Hashed? == u.interface.code.Hashed? { KeyWordsInjective(r.interface, u.interface); }
    else if r.interface.code.Hashed? { FormsDiffer(r.interface, u.interface); }
    else { FormsDiffer(u.interface, r.interface); }
  }

  lemma HeadInjective(b: Build, c: Build)
    requires FitsBuild(b) && FitsBuild(c) && Head(b) == Head(c)
    ensures b == c
  {
    var m := Fixed(MAGIC, 4);
    RangeOf8();
    RunPrefix(m + Fixed(b.format, 4), m + Fixed(c.format, 4), Fixed(b.sourceVersion, 8), Fixed(c.sourceVersion, 8));
    RunPrefix(m, m, Fixed(b.format, 4), Fixed(c.format, 4));
    FixedInjective(b.format, c.format, 4);
    FixedInjective(b.sourceVersion, c.sourceVersion, 8);
  }

  /** What loads for a request from a file that was stored for a request was stored for that very request, under the
      same switches and with the code in the same form. */
  lemma HitIsEqualRequest(codeHash: CodeHash, b: Build, hash: Hash, r: Request, stored: Request, switches: seq<Switch>,
                          others: seq<Switch>, payload: seq<Byte>)
    requires FitsBuild(b) && Fits(r) && Fits(stored) && FitsSwitches(switches) && FitsSwitches(others)
    requires Coded(codeHash, r) && Coded(codeHash, stored) && |KeyBytes(b, stored, others)| < WORD_LIMIT
             && |payload| < WORD_LIMIT
    ensures var loaded := Unwrap(b, hash, Wrap(b, hash, KeyBytes(b, stored, others), payload),
                                 KeyBytes(b, r, switches));
            if r == stored && switches == others then loaded == Loaded(payload)
            else loaded == KeyMismatch || (r.interface.code.Hashed? != stored.interface.code.Hashed?
                                           && (Mimics(codeHash, r) || Mimics(codeHash, stored)))
  {
    if r == stored && switches == others {
      WrappedLoads(b, hash, KeyBytes(b, stored, others), payload);
    } else if KeyBytes(b, r, switches) == KeyBytes(b, stored, others) {
      KeyInjective(codeHash, b, b, r, stored, switches, others);
    } else {
      OtherKeyMismatches(b, hash, KeyBytes(b, stored, others), payload, KeyBytes(b, r, switches));
    }
  }
}
