/** Building cache keys by appending: the words of the in-memory key, and the bytes of the disk key around them. */
module KeyBuilding {
  import opened Wrappers
  import opened Uleb128
  import opened Serial
  import opened WordVectors
  import opened PlanStreams
  import opened EntryContainer
  import opened CacheKey

  class KeyBuilder {
    var key: seq<nat>

    constructor ()
      ensures key == []
    {
      key := [];
    }

    method Append(word: nat)
      modifies this
      ensures key == old(key) + [word]
    {
      key := key + [word];
    }

    /** A run of fields, or an array of known length. */
    method AppendRun(words: seq<nat>)
      modifies this
      ensures key == old(key) + words
    {
      for k := 0 to |words|
        invariant key == old(key) + words[..k]
      {
        Append(words[k]);
      }
    }

    /** A span: its length, then its elements. */
    method AppendSpan(words: seq<nat>)
      modifies this
      ensures key == old(key) + Counted(words)
    {
      Append(|words|);
      AppendRun(words);
    }

    /** An optional part: whether it is there, then the part. */
    method AppendOptional(part: Option<seq<nat>>)
      modifies this
      ensures key == old(key) + Optional(part)
    {
      Append(if part.Some? then 1 else 0);
      if part.Some? { AppendRun(part.value); }
    }

    method AppendPixel(p: Option<PixelInfo>)
      modifies this
      ensures key == old(key) + PixelWords(p)
    {
      Append(if p.Some? then 1 else 0);
      if p.Some? {
        ghost var before := key;
        AppendSpan(p.value.interpolators);
        AppendRun(p.value.fields);
        RegroupRuns(before, Counted(p.value.interpolators), p.value.fields);
        RegroupRuns(old(key), [1], Counted(p.value.interpolators) + p.value.fields);
      }
    }

    /** An embedded fetch leaves the numeric class out; its fetch index is zero. */
    method AppendVertex(v: Option<VertexInfo>)
      requires v.Some? && v.value.fetchEmbedded ==> forall r <- v.value.resources :: r.fetchIndex == 0
      modifies this
      ensures key == old(key) + VertexWords(v)
    {
      if v.None? { Append(0); return; }
      var x := v.value;
      ghost var fields := [1, x.fetchAttribReg, x.fetchBufferReg, if x.fetchEmbedded then 1
                           else 0, x.paClVsOutCntl, |x.resources|];
      AppendRun([1, x.fetchAttribReg, x.fetchBufferReg, if x.fetchEmbedded then 1
                 else 0, x.paClVsOutCntl, |x.resources|]);
      AppendResources(x.fetchEmbedded, x.resources);
      RegroupRuns(old(key), fields, ResourcesWords(x.fetchEmbedded, x.resources));
    }

    method AppendResources(embedded: bool, resources: seq<Resource>)
      requires embedded ==> forall r <- resources :: r.fetchIndex == 0
      modifies this
      ensures key == old(key) + ResourcesWords(embedded, resources)
    {
      for k := 0 to |resources|
        invariant key + ResourcesWords(embedded, resources[k..]) == old(key) + ResourcesWords(embedded, resources)
      {
        var r := resources[k];
        assert resources[k..][1..] == resources[k + 1..];
        RegroupRuns(key, ResourceWords(embedded, r), ResourcesWords(embedded, resources[k + 1..]));
        assert r in resources;
        AppendResource(embedded, r);
      }
      assert resources[|resources|..] == [] && key + [] == key;
    }

    method AppendResource(embedded: bool, r: Resource)
      requires embedded ==> r.fetchIndex == 0
      modifies this
      ensures key == old(key) + ResourceWords(embedded, r)
    {
      if !embedded { Append(r.numericClass); }
      AppendRun([r.registerStart, r.registersNum, r.attrId, if embedded then 0 else r.fetchIndex]);
    }

    method AppendTexts(texts: seq<seq<nat>>)
      modifies this
      ensures key == old(key) + ([|texts|] + TextsWords(texts))
    {
      Append(|texts|);
      ghost var head := key;
      RegroupRuns(old(key), [|texts|], TextsWords(texts));
      for k := 0 to |texts|
        invariant key + TextsWords(texts[k..]) == head + TextsWords(texts)
      {
        assert texts[k..][1..] == texts[k + 1..];
        RegroupRuns(key, Counted(texts[k]), TextsWords(texts[k + 1..]));
        AppendSpan(texts[k]);
      }
      assert texts[|texts|..] == [] && key + [] == key;
    }

    method AppendTarget(t: Target)
      modifies this
      ensures key == old(key) + TargetWords(t)
    {
      AppendRun(t.versions);
      AppendSpan(t.capabilities);
      AppendTexts(t.extensions);
      AppendRun(t.limits);
      AppendOptional(t.mesh);
      AppendOptional(t.tessellation);
      AppendRun(t.features);
      TargetJoins(old(key), t);
    }

    method Build(i: Interface)
      requires WellShaped(i)
      modifies this
      ensures key == KeyWords(i)
    {
      key := [];
      AppendShader(i);
      AppendRest(i);
      KeyJoins(i);
    }

    method AppendShader(i: Interface)
      requires WellShaped(i)
      modifies this
      ensures key == old(key) + ShaderWords(i)
    {
      ghost var before := key;
      Append(ABI_VERSION);
      Append(StageWord(i.stage));
      AppendCode(i.code);
      AppendRun(i.context);
      AppendOptional(i.compute);
      AppendPixel(i.pixel);
      AppendVertex(i.vertex);
      assert before + [ABI_VERSION] + [StageWord(i.stage)] + CodeWords(i.code) == before + HeadWords(i);
      JoinRuns(before, HeadWords(i), i.context, Optional(i.compute), PixelWords(i.pixel), VertexWords(i.vertex));
    }

    /** The code as its length and hash, or word by word. */
    method AppendCode(c: CodePart)
      modifies this
      ensures key == old(key) + CodeWords(c)
    {
      if c.Whole? {
        AppendSpan(c.words);
      } else {
        Append(c.size);
        Append(c.hash);
      }
    }

    method AppendRest(i: Interface)
      modifies this
      ensures key == old(key) + RestWords(i)
    {
      ghost var before := key;
      AppendOptional(i.floatMode);
      AppendSpan(i.fallbacks);
      AppendStageParts(i);
      AppendTarget(i.target);
      AppendRun(i.switches);
      JoinRuns(before, Optional(i.floatMode), Counted(i.fallbacks), MeshWords(i) + TessellationWords(i),
               TargetWords(i.target), i.switches);
    }

    /** Of the mesh and tessellation parts only those of the stage enter the key. */
    method AppendStageParts(i: Interface)
      modifies this
      ensures key == old(key) + (MeshWords(i) + TessellationWords(i))
    {
      if i.stage == Mesh { AppendOptional(i.mesh); }
      if Tessellates(i.stage) { AppendOptional(i.tessellation); }
    }
  }

  lemma RegroupRuns(a: seq<nat>, b: seq<nat>, c: seq<nat>)
    ensures a + (b + c) == a + b + c
  {
  }

  lemma TargetJoins(before: seq<nat>, t: Target)
    ensures before + TargetWords(t) == before + t.versions + Counted(t.capabilities)
            + ([|t.extensions|] + TextsWords(t.extensions)) + t.limits
                                     + Optional(t.mesh) + Optional(t.tessellation) + t.features
  {
    var d4 := Optional(t.tessellation) + t.features;
    var d3 := Optional(t.mesh) + d4;
    var d2 := t.limits + d3;
    var d1 := ([|t.extensions|] + TextsWords(t.extensions)) + d2;
    var now := before + t.versions;
    RegroupRuns(before, t.versions, Counted(t.capabilities) + d1);
    RegroupRuns(now, Counted(t.capabilities), d1);
    now := now + Counted(t.capabilities);
    RegroupRuns(now, [|t.extensions|] + TextsWords(t.extensions), d2);
    now := now + ([|t.extensions|] + TextsWords(t.extensions));
    RegroupRuns(now, t.limits, d3);
    now := now + t.limits;
    RegroupRuns(now, Optional(t.mesh), d4);
    RegroupRuns(now + Optional(t.mesh), Optional(t.tessellation), t.features);
  }

  function HeadWords(i: Interface): seq<nat> { [ABI_VERSION, StageWord(i.stage)] + CodeWords(i.code) }

  function ShaderWords(i: Interface): seq<nat> {
    HeadWords(i) + (i.context + (Optional(i.compute) + (PixelWords(i.pixel) + VertexWords(i.vertex))))
  }

  function RestWords(i: Interface): seq<nat> {
    Optional(i.floatMode) + (Counted(i.fallbacks)
                             + ((MeshWords(i) + TessellationWords(i)) + (TargetWords(i.target) + i.switches)))
  }

  lemma JoinRuns(before: seq<nat>, a: seq<nat>, b: seq<nat>, c: seq<nat>, d: seq<nat>, e: seq<nat>)
    ensures before + (a + (b + (c + (d + e)))) == before + a + b + c + d + e
  {
    RegroupRuns(before, a, b + (c + (d + e)));
    RegroupRuns(before + a, b, c + (d + e));
    RegroupRuns(before + a + b, c, d + e);
    RegroupRuns(before + a + b + c, d, e);
  }

  lemma KeyJoins(i: Interface)
    ensures KeyWords(i) == [] + ShaderWords(i) + RestWords(i)
  {
    var d8 := TargetWords(i.target) + i.switches;
    RegroupRuns(MeshWords(i), TessellationWords(i), d8);
    var rest := Optional(i.floatMode) + (Counted(i.fallbacks) + (MeshWords(i) + (TessellationWords(i) + d8)));
    assert rest == RestWords(i);
    var head, a, b, c, d := HeadWords(i), i.context, Optional(i.compute), PixelWords(i.pixel), VertexWords(i.vertex);
    RegroupRuns(head, a + (b + (c + d)), rest);
    RegroupRuns(a, b + (c + d), rest);
    RegroupRuns(b, c + d, rest);
    RegroupRuns(c, d, rest);
    RegroupRuns([ABI_VERSION, StageWord(i.stage)], CodeWords(i.code), InterfaceWords(i));
    assert [] + ShaderWords(i) == ShaderWords(i);
  }

  // ----- The disk key

  /** The bytes of a request's disk key. */
  method BuildKey(b: Build, r: Request, switches: seq<Switch>) returns (key: seq<Byte>)
    requires WellShaped(r.interface) && |r.layout| == 4
    ensures key == KeyBytes(b, r, switches)
  {
    var words := new KeyBuilder();
    words.Build(r.interface);
    var writer := new Writer();
    writer.Value(MAGIC, 4);
    writer.Value(b.format, 4);
    writer.Value(b.sourceVersion, 8);
    writer.Values(words.key, 8, WideEnc());
    writer.Words(r.code);
    writer.Value(r.hostSubgroupSize, 4);
    writer.Value(r.layout[0], 4);
    writer.Value(r.layout[1], 4);
    writer.Value(r.layout[2], 4);
    writer.Value(r.layout[3], 4);
    var tail := SwitchKey(switches);
    KeyBytesJoin(b, r, tail);
    key := writer.out + tail;
  }

  method SwitchKey(switches: seq<Switch>) returns (bytes: seq<Byte>)
    ensures bytes == SwitchBytes(switches)
  {
    var writer := new Writer();
    for k := 0 to |switches|
      invariant writer.out + SwitchBytes(switches[k..]) == SwitchBytes(switches)
      invariant fresh(writer)
    {
      var x := switches[k];
      assert switches[k..][1..] == switches[k + 1..];
      PlanStreams.Regroup(writer.out, TextBytes(x.name), TextBytes(x.value) + SwitchBytes(switches[k + 1..]));
      PlanStreams.Regroup(writer.out + TextBytes(x.name), TextBytes(x.value), SwitchBytes(switches[k + 1..]));
      writer.Text(x.name);
      writer.Text(x.value);
    }
    assert switches[|switches|..] == [] && writer.out + [] == writer.out;
    bytes := writer.out;
  }

  lemma KeyBytesJoin(b: Build, r: Request, tail: seq<Byte>)
    requires |r.layout| == 4
    ensures Head(b) + (EncodeCounted(KeyWords(r.interface), WideEnc())
                       + (EncodeWords(r.code) + (Fixed(r.hostSubgroupSize, 4) + (LayoutBytes(r.layout) + tail))))
         == [] + Fixed(MAGIC, 4) + Fixed(b.format, 4) + Fixed(b.sourceVersion, 8)
             + EncodeCounted(KeyWords(r.interface), WideEnc())
            + EncodeWords(r.code) + Fixed(r.hostSubgroupSize, 4) + Fixed(r.layout[0], 4) + Fixed(r.layout[1], 4)
            + Fixed(r.layout[2], 4) + Fixed(r.layout[3], 4) + tail
  {
    assert [] + Fixed(MAGIC, 4) == Fixed(MAGIC, 4);
    var words, d3 := EncodeCounted(KeyWords(r.interface), WideEnc()), LayoutBytes(r.layout) + tail;
    var d2 := Fixed(r.hostSubgroupSize, 4) + d3;
    PlanStreams.Regroup(Head(b), words, EncodeWords(r.code) + d2);
    PlanStreams.Regroup(Head(b) + words, EncodeWords(r.code), d2);
    PlanStreams.Regroup(Head(b) + words + EncodeWords(r.code), Fixed(r.hostSubgroupSize, 4), d3);
    var now := Head(b) + words + EncodeWords(r.code) + Fixed(r.hostSubgroupSize, 4);
    var f0, f1, f2, f3 := Fixed(r.layout[0], 4), Fixed(r.layout[1], 4), Fixed(r.layout[2], 4), Fixed(r.layout[3], 4);
    PlanStreams.Regroup(now, f0 + (f1 + (f2 + f3)), tail);
    PlanStreams.Regroup(now, f0, f1 + (f2 + f3));
    PlanStreams.Regroup(now + f0, f1, f2 + f3);
    PlanStreams.Regroup(now + f0 + f1, f2, f3);
  }
}
