/** The tables of a resource plan beside its values, and their layout in a cache entry. Plain fields that nothing looks
at are runs of numbers in the order they are written. */
module PlanLayout {
  import opened Wrappers
  import opened Uleb128
  import opened Serial
  import opened Layouts

  // ----- The tables; a pointer is of type P

  /** Where a descriptor's words come from when a table holds it. `fields` are heap source, stride, addend, offset, word
      count, largest key, and whether it is a sampler and an address; a key domain is a source, an offset, a stride and
      whether it is a value; `more` are the unkeyed and the indirect flag, indirect offset and immediate, folded addend
      and carry. */
  datatype Column = Column(fields: seq<nat>, keyDomains: seq<seq<nat>>, more: seq<nat>)

  datatype Source<P> = Source(dwords: seq<P>, dwordCount: nat, column: Option<Column>)

  /** A block of the resource control flow: its branch condition, where it goes, and what it uses. */
  datatype ControlBlock<P> = ControlBlock(condition: P, successors: seq<nat>, sources: seq<nat>, images: seq<nat>)

  datatype SrtRead<P> = SrtRead(value: P, flatOffset: nat)

  datatype StageInput = StageInput(fields: seq<nat>, name: seq<nat>, perVertex: nat)
  datatype StageOutput = StageOutput(fields: seq<nat>, name: seq<nat>)

  /** Resources begin with the number of their source; `prepared` says whether the image modes are prepared. */
  datatype Info = Info(sizes: seq<nat>, buffers: seq<seq<nat>>, images: seq<seq<nat>>, prepared: bool,
                       samplers: seq<seq<nat>>, pairs: seq<seq<nat>>, inputs: seq<StageInput>,
                       outputs: seq<StageOutput>, rest: seq<nat>)

  /** `flags` are the four of the plan; `fillFields` kind, resource, three strides, word count and value of the uniform
      fill. */
  datatype Tables<P> = Tables(memory: seq<seq<nat>>, sources: seq<Source<P>>, controlFlow: seq<ControlBlock<P>>,
                              materialization: seq<nat>, srtReads: seq<SrtRead<P>>, guardedSlots: seq<nat>,
                              guardOffset: nat, cleanSlots: seq<nat>, pureSlots: seq<nat>, flags: seq<nat>, info: Info,
                              fillFields: seq<nat>, fill: seq<P>)

  type Index = Option<nat>

  // ----- Layouts

  function W(): Shape { Field(4, 0x1_0000_0000) }
  function H(): Shape { Field(2, 0x1_0000) }
  function U(): Shape { Field(1, 0x100) }
  function B(): Shape { Field(1, 2) }
  function Q(): Shape { Field(8, WORD_LIMIT) }

  function Repeat(s: Shape, n: nat): (parts: seq<Shape>)
    ensures |parts| == n && forall k :: 0 <= k < n ==> parts[k] == s
  {
    seq(n, _ => s)
  }

  function Words(): Shape { Many(4, W()) }
  function Bytes(): Shape { Many(1, U()) }

  function MemoryShape(): Shape { Record(Repeat(W(), 15) + Repeat(B(), 8) + Repeat(W(), 1) + Repeat(B(), 7)) }
  function DomainShape(): Shape { Record(Repeat(W(), 3) + Repeat(B(), 1)) }
  function ColumnShape(): Shape {
    Record([Record(Repeat(W(), 6) + Repeat(B(), 2)), Many(13, DomainShape()), Record(Repeat(B(), 2) + Repeat(W(), 4))])
  }
  function SourceShape(): Shape { Record([Record(Repeat(Pointer, 8)), W(), B(), ColumnShape()]) }
  function BlockShape(): Shape { Record([Pointer, Words(), Words(), Words()]) }
  function SrtShape(): Shape { Record([Pointer, W()]) }
  function BufferShape(): Shape {
    Record(Repeat(W(), 4) + Repeat(B(), 5) + Repeat(W(), 1) + Repeat(B(), 1) + Repeat(U(), 1))
  }
  function ImageShape(): Shape {
    Record(Repeat(W(), 9) + Repeat(B(), 9) + Repeat(W(), 1) + Repeat(B(), 13) + Repeat(W(), 6))
  }
  function SamplerShape(): Shape {
    Record(Repeat(W(), 3) + Repeat(B(), 2) + Repeat(H(), 1) + Repeat(B(), 1) + Repeat(W(), 1))
  }
  function PairShape(): Shape { Record(Repeat(W(), 3)) }
  function InputShape(): Shape { Record([Record(Repeat(W(), 3)), Bytes(), B()]) }
  function OutputShape(): Shape { Record([Record(Repeat(W(), 3)), Bytes()]) }
  function InfoShape(): Shape {
    InfoOf(BufferShape(), ImageShape(), SamplerShape(), PairShape(), InputShape(), OutputShape(), InfoRestShape())
  }
  function InfoRestShape(): Shape { Record(Repeat(U(), 32) + Repeat(W(), 2) + Repeat(B(), 11)) }
  function InfoOf(buffer: Shape, image: Shape, sampler: Shape, pair: Shape, input: Shape, output: Shape,
                  rest: Shape): Shape {
    Record([Record(Repeat(W(), 2)), Many(27, buffer), Many(77, image), B(), Many(21, sampler), Many(12, pair),
            Many(21, input), Many(20, output), rest])
  }
  function TablesShape(): Shape { TablesOf(MemoryShape(), SourceShape(), BlockShape(), SrtShape(), InfoShape()) }
  function TablesOf(memory: Shape, source: Shape, block: Shape, srt: Shape, info: Shape): Shape {
    Record(RowParts(memory, source, block, srt) + OtherParts(info))
  }
  function OtherParts(info: Shape): seq<Shape> {
    [W(), Bytes(), Bytes(), Record(Repeat(B(), 4)), info, Record(Repeat(W(), 7)), Record(Repeat(Pointer, 4))]
  }
  function RowParts(memory: Shape, source: Shape, block: Shape, srt: Shape): seq<Shape> {
    [Many(79, memory), Many(72, source), Many(28, block), Words(), Many(8, srt), Words()]
  }

  /** Stage, shader hash, user data base and count and sRGB formats, then the ids of the blocks. */
  function HeadShape(): Shape { Record([Record(Repeat(W(), 1) + Repeat(Q(), 1) + Repeat(W(), 3)), Words()]) }

  // ----- Layouts are sound

  lemma {:induction false} SoundJoin(a: seq<Shape>, b: seq<Shape>)
    ensures AllSound(a + b) <==> AllSound(a) && AllSound(b)
    ensures MinSizes(a + b) == MinSizes(a) + MinSizes(b)
    decreases |a|
  {
    if a == [] { assert a + b == b; } else {
      assert (a + b)[1..] == a[1..] + b;
      SoundJoin(a[1..], b);
    }
  }

  lemma {:induction false} SoundRepeat(s: Shape, n: nat)
    requires Sound(s)
    ensures AllSound(Repeat(s, n)) && MinSizes(Repeat(s, n)) == n * MinSize(s)
  {
    if n > 0 {
      assert Repeat(s, n)[1..] == Repeat(s, n - 1);
      SoundRepeat(s, n - 1);
      assert n * MinSize(s) == MinSize(s) + (n - 1) * MinSize(s);
    }
  }

  lemma SoundFields()
    ensures Sound(W()) && Sound(H()) && Sound(U()) && Sound(B()) && Sound(Q())
  {
    RangeOf8();
    assert Range(1) == 256 && Range(2) == 256 * Range(1);
  }

  /** `n` fields more. */
  lemma SoundMore(parts: seq<Shape>, s: Shape, n: nat)
    requires AllSound(parts) && Sound(s)
    ensures AllSound(parts + Repeat(s, n)) && MinSizes(parts + Repeat(s, n)) == MinSizes(parts) + n * MinSize(s)
  {
    SoundRepeat(s, n);
    SoundJoin(parts, Repeat(s, n));
  }

  lemma SoundMemory()
    ensures Sound(MemoryShape()) && MinSize(MemoryShape()) == 79
  {
    SoundFields();
    SoundRepeat(W(), 15);
    SoundMore(Repeat(W(), 15), B(), 8);
    SoundMore(Repeat(W(), 15) + Repeat(B(), 8), W(), 1);
    SoundMore(Repeat(W(), 15) + Repeat(B(), 8) + Repeat(W(), 1), B(), 7);
  }

  lemma SoundColumn()
    ensures Sound(DomainShape()) && MinSize(DomainShape()) == 13
    ensures Sound(ColumnShape()) && MinSize(ColumnShape()) == 52
  {
    SoundFields();
    SoundRepeat(W(), 3);
    SoundMore(Repeat(W(), 3), B(), 1);
    SoundRepeat(W(), 6);
    SoundMore(Repeat(W(), 6), B(), 2);
    SoundRepeat(B(), 2);
    SoundMore(Repeat(B(), 2), W(), 4);
    SoundThree(Record(Repeat(W(), 6) + Repeat(B(), 2)), Many(13, DomainShape()),
               Record(Repeat(B(), 2) + Repeat(W(), 4)));
  }

  lemma SoundTwo(a: Shape, b: Shape)
    ensures Sound(Record([a, b])) <==> Sound(a) && Sound(b)
    ensures MinSize(Record([a, b])) == MinSize(a) + MinSize(b)
  {
    assert [a, b][1..] == [b] && [b][1..] == [];
    assert MinSizes([]) == 0 && MinSizes([b]) == MinSize(b);
    assert AllSound([]) && (AllSound([b]) <==> Sound(b));
    assert MinSizes([a, b]) == MinSize(a) + MinSizes([b]);
  }

  lemma {:induction false} SoundThree(a: Shape, b: Shape, c: Shape)
    ensures Sound(Record([a, b, c])) <==> Sound(a) && Sound(b) && Sound(c)
    ensures MinSize(Record([a, b, c])) == MinSize(a) + MinSize(b) + MinSize(c)
  {
    assert [a, b, c][1..] == [b, c];
    assert MinSizes([a, b, c]) == MinSize(a) + MinSizes([b, c]);
    SoundTwo(b, c);
  }

  lemma {:induction false} SoundFour(a: Shape, b: Shape, c: Shape, d: Shape)
    ensures Sound(Record([a, b, c, d])) <==> Sound(a) && Sound(b) && Sound(c) && Sound(d)
    ensures MinSize(Record([a, b, c, d])) == MinSize(a) + MinSize(b) + MinSize(c) + MinSize(d)
  {
    assert [a, b, c, d][1..] == [b, c, d];
    assert MinSizes([a, b, c, d]) == MinSize(a) + MinSizes([b, c, d]);
    SoundThree(b, c, d);
  }

  lemma SoundRows()
    ensures Sound(SourceShape()) && MinSize(SourceShape()) >= 72
    ensures Sound(BlockShape()) && MinSize(BlockShape()) == 28 && Sound(SrtShape()) && MinSize(SrtShape()) == 8
    ensures Sound(Words()) && Sound(Bytes())
  {
    SoundFields();
    SoundColumn();
    SoundRepeat(Pointer, 8);
    SoundFour(Record(Repeat(Pointer, 8)), W(), B(), ColumnShape());
    SoundFour(Pointer, Words(), Words(), Words());
    SoundTwo(Pointer, W());
  }

  lemma SoundResources()
    ensures Sound(BufferShape()) && MinSize(BufferShape()) == 27 && Sound(SamplerShape())
            && MinSize(SamplerShape()) == 21
    ensures Sound(PairShape()) && MinSize(PairShape()) == 12
  {
    SoundFields();
    SoundFive(W(), 4, B(), 5, W(), 1, B(), 1, U(), 1, [16, 5, 4, 1, 1]);
    SoundFive(W(), 3, B(), 2, H(), 1, B(), 1, W(), 1, [12, 2, 2, 1, 4]);
    SoundRepeat(W(), 3);
  }

  lemma SoundImages()
    ensures Sound(ImageShape()) && MinSize(ImageShape()) >= 77
  {
    SoundFields();
    SoundFive(W(), 9, B(), 9, W(), 1, B(), 13, W(), 6, [36, 9, 4, 13, 24]);
  }

  lemma {:induction false} SoundFive(a: Shape, i: nat, b: Shape, j: nat, c: Shape, k: nat, d: Shape, l: nat, e: Shape,
                                     m: nat, ts: seq<nat>)
    requires Sound(a) && Sound(b) && Sound(c) && Sound(d) && Sound(e)
    requires ts == [i * MinSize(a), j * MinSize(b), k * MinSize(c), l * MinSize(d), m * MinSize(e)]
    ensures var parts := Repeat(a, i) + Repeat(b, j) + Repeat(c, k) + Repeat(d, l) + Repeat(e, m);
            AllSound(parts) && MinSizes(parts) == ts[0] + ts[1] + ts[2] + ts[3] + ts[4]
  {
    SoundRepeat(a, i);
    SoundMore(Repeat(a, i), b, j);
    SoundMore(Repeat(a, i) + Repeat(b, j), c, k);
    SoundMore(Repeat(a, i) + Repeat(b, j) + Repeat(c, k), d, l);
    SoundMore(Repeat(a, i) + Repeat(b, j) + Repeat(c, k) + Repeat(d, l), e, m);
  }

  lemma SoundStages()
    ensures Sound(InputShape()) && MinSize(InputShape()) == 21 && Sound(OutputShape()) && MinSize(OutputShape()) == 20
  {
    SoundFields();
    SoundRows();
    SoundRepeat(W(), 3);
    SoundThree(Record(Repeat(W(), 3)), Bytes(), B());
    SoundTwo(Record(Repeat(W(), 3)), Bytes());
  }

  lemma {:induction false} SoundAll(parts: seq<Shape>)
    requires forall k :: 0 <= k < |parts| ==> Sound(parts[k])
    ensures AllSound(parts)
  {
    if parts != [] { SoundAll(parts[1..]); }
  }

  lemma SoundInfoRest()
    ensures Sound(InfoRestShape())
  {
    SoundFields();
    SoundRepeat(U(), 32);
    SoundMore(Repeat(U(), 32), W(), 2);
    SoundMore(Repeat(U(), 32) + Repeat(W(), 2), B(), 11);
  }

  lemma {:induction false} SoundInfoOf(buffer: Shape, image: Shape, sampler: Shape, pair: Shape, input: Shape,
                                       output: Shape, rest: Shape)
    requires Sound(buffer) && MinSize(buffer) >= 27 && Sound(image) && MinSize(image) >= 77 && Sound(sampler)
             && MinSize(sampler) >= 21
    requires Sound(pair) && MinSize(pair) >= 12 && Sound(input) && MinSize(input) >= 21 && Sound(output)
             && MinSize(output) >= 20 && Sound(rest)
    ensures Sound(InfoOf(buffer, image, sampler, pair, input, output, rest))
  {
    SoundFields();
    SoundRepeat(W(), 2);
    var parts := InfoOf(buffer, image, sampler, pair, input, output, rest).parts;
    forall k | 0 <= k < |parts| ensures Sound(parts[k]) {}
    SoundAll(parts);
  }

  lemma {:induction false} SoundTablesOf(memory: Shape, source: Shape, block: Shape, srt: Shape, info: Shape)
    requires Sound(memory) && MinSize(memory) >= 79 && Sound(source) && MinSize(source) >= 72 && Sound(block)
             && MinSize(block) >= 28
    requires Sound(srt) && MinSize(srt) >= 8 && Sound(info)
    ensures Sound(TablesOf(memory, source, block, srt, info))
  {
    SoundFields();
    SoundRepeat(B(), 4);
    SoundRepeat(W(), 7);
    SoundRepeat(Pointer, 4);
    SoundAll(RowParts(memory, source, block, srt));
    SoundAll(OtherParts(info));
    SoundJoin(RowParts(memory, source, block, srt), OtherParts(info));
  }

  lemma SoundHead()
    ensures Sound(HeadShape())
  {
    SoundFields();
    SoundRepeat(W(), 1);
    SoundMore(Repeat(W(), 1), Q(), 1);
    SoundMore(Repeat(W(), 1) + Repeat(Q(), 1), W(), 3);
    SoundTwo(Record(Repeat(W(), 1) + Repeat(Q(), 1) + Repeat(W(), 3)), Words());
  }

  /** No reader asks for more bytes of a row than a row has. */
  lemma LayoutsSound()
    ensures Sound(TablesShape()) && Sound(HeadShape())
  {
    SoundMemory();
    SoundRows();
    SoundResources();
    SoundImages();
    SoundStages();
    SoundInfoRest();
    SoundInfoOf(BufferShape(), ImageShape(), SamplerShape(), PairShape(), InputShape(), OutputShape(), InfoRestShape());
    SoundTablesOf(MemoryShape(), SourceShape(), BlockShape(), SrtShape(), InfoShape());
    SoundHead();
  }
}
