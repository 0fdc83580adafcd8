/** A resource plan as a whole: what an entry says, and the plan it stands for. */
module PlanTables {
  import opened Wrappers
  import opened Uleb128
  import opened Serial
  import opened PlanCodec
  import opened Layouts
  import opened PlanLayout
  import opened PlanEntries
  import opened PlanAgain
  import opened PlanRefit

  // ----- Entries and plans

  /** What the bytes say: stage and block ids, the values, and the tables. */
  datatype Entry = Entry(head: Datum, nodes: seq<Node>, tables: Datum)

  /** `head` are stage, shader hash, user data base and count, and sRGB formats. */
  datatype Plan = Plan(head: seq<nat>, blockIds: seq<nat>, nodes: seq<Node>, tables: Tables<Index>)

  function NodeEnc(): (Node, nat) -> seq<Byte> { (x: Node, i: nat) => EncodeNode(x, i) }
  function NodeDec(data: seq<Byte>, nodes: nat, blocks: nat): (nat, nat) -> Read<Node> {
    (p: nat, i: nat) => DecodeNode(data, p, i, nodes, blocks)
  }

  function EncodeEntry(e: Entry): seq<Byte> {
    EncodeShape(HeadShape(), e.head) + (EncodeCounted(e.nodes, NodeEnc()) + EncodeShape(TablesShape(), e.tables))
  }

  /** Arguments are checked against the number of values, which is read first. */
  function ReadNodes(data: seq<Byte>, at: nat, blocks: nat): Read<seq<Node>> {
    match ReadFixed(data, at, 8)
    case Bad => Bad
    case Got(count, _) => ReadCounted(data, at, 6, NodeDec(data, count, blocks))
  }

  function BlockCount(head: Datum): nat { |RunOf(Item(head, 1))| }

  function ReadEntry(data: seq<Byte>): Read<Entry> {
    match ReadShape(data, 0, HeadShape(), 0)
    case Bad => Bad
    case Got(head, m1) =>
      match ReadNodes(data, m1, BlockCount(head))
      case Bad => Bad
      case Got(nodes, m2) =>
        match ReadShape(data, m2, TablesShape(), |nodes|)
        case Bad => Bad
        case Got(tables, end) => Got(Entry(head, nodes, tables), end)
  }

  function EntryOf(plan: Plan): Entry {
    Entry(Group([Run(plan.head), Run(plan.blockIds)]), plan.nodes, LiftTables(plan.tables))
  }

  function PlanIn(e: Entry): Plan { Plan(RunOf(Item(e.head, 0)), RunOf(Item(e.head, 1)), e.nodes, TablesIn(e.tables)) }

  function EncodePlan(plan: Plan): seq<Byte> { EncodeEntry(EntryOf(plan)) }

  predicate AllBelow(xs: seq<nat>, end: nat) { forall i :: 0 <= i < |xs| ==> xs[i] < end }

  predicate ValidBlock(b: ControlBlock<Index>, blocks: nat, sources: nat, images: nat) {
    && (b.condition.None? || |b.successors| == 2) && AllBelow(b.successors, blocks) && AllBelow(b.sources, sources)
    && AllBelow(b.images, images)
  }

  /** No more words than there is room for, and a table that is held by a known source under keys of known sources. */
  predicate ValidSource(s: Source<Index>, sources: nat) {
    && s.dwordCount <= |s.dwords|
    && (s.column.Some? ==> FirstBelow(s.column.value.fields, sources)
                           && forall i :: 0 <= i < |s.column.value.keyDomains| ==>
                              FirstBelow(s.column.value.keyDomains[i], sources))
  }

  /** A resource, column or key domain begins with its source. */
  predicate FirstBelow(fields: seq<nat>, end: nat) { fields != [] ==> fields[0] < end }

  predicate AllFirstBelow(rows: seq<seq<nat>>, end: nat) { forall i :: 0 <= i < |rows| ==> FirstBelow(rows[i], end) }

  /** Where the uniform fill keeps its word count. */
  const FILL_WORDS: nat := 5

  /** Indices into other tables are in range; a conditional block has two successors. */
  predicate ValidTables(t: Tables<Index>) {
    && (|t.fillFields| > FILL_WORDS ==> t.fillFields[FILL_WORDS] <= |t.fill|)
    && AllBelow(t.materialization, |t.sources|)
    && (forall i :: 0 <= i < |t.sources| ==> ValidSource(t.sources[i], |t.sources|))
    && AllFirstBelow(t.info.buffers, |t.sources|) && AllFirstBelow(t.info.images, |t.sources|)
    && AllFirstBelow(t.info.samplers, |t.sources|)
    && forall i :: 0 <= i < |t.controlFlow| ==>
       ValidBlock(t.controlFlow[i], |t.controlFlow|, |t.sources|, |t.info.images|)
  }

  /** The whole input must be used, and every index must be in range. */
  function DecodePlan(data: seq<Byte>): Option<Plan> {
    match ReadEntry(data)
    case Bad => None
    case Got(e, end) => if end == |data| && ValidTables(TablesIn(e.tables)) then Some(PlanIn(e)) else None
  }

  ghost predicate FitsNodes(nodes: seq<Node>, blocks: nat) {
    |nodes| <= NO_INDEX && forall i: nat :: i < |nodes| ==> FitsNode(nodes[i], |nodes|, blocks)
  }

  ghost predicate FitsEntry(e: Entry) {
    Fits(HeadShape(), e.head, 0) && FitsNodes(e.nodes, BlockCount(e.head)) && Fits(TablesShape(), e.tables, |e.nodes|)
  }

  /** A plan of the program: its fields have their widths, and its pointers point at its own values. */
  ghost predicate FitsPlan(plan: Plan) { FitsEntry(EntryOf(plan)) && Enumerated(plan.tables.info.images) }

  /** What comes back of a plan: image modes are prepared again only where there are images. */
  function SettledPlan(plan: Plan): Plan { plan.(tables := Settled(plan.tables)) }

  // ----- Values

  lemma CountedRead<T>(data: seq<Byte>, at: nat, xs: seq<T>, minimum: nat, enc: (T, nat) -> seq<Byte>,
                       dec: (nat, nat) -> Read<T>, rest: seq<Byte>)
    returns (next: nat)
    requires Holds(data, at, EncodeCounted(xs, enc) + rest) && |xs| < WORD_LIMIT
    requires forall i: nat :: i < |xs| ==> |enc(xs[i], i)| >= minimum && Decodes(data, xs[i], i, enc, dec)
    ensures ReadCounted(data, at, minimum, dec) == Got(xs, next) && Holds(data, next, rest)
            && next + |rest| == at + |EncodeCounted(xs, enc) + rest|
  {
    HoldsParts(data, at, EncodeCounted(xs, enc), rest);
    CountedReads(data, at, xs, minimum, enc, dec);
    next := at + |EncodeCounted(xs, enc)|;
  }

  lemma {:induction false} NumbersLength(numbers: seq<nat>)
    ensures |EncodeNumbers(numbers)| >= |numbers|
  {
    if numbers != [] { NumbersLength(numbers[1..]); }
  }

  lemma NodesRead(data: seq<Byte>, at: nat, nodes: seq<Node>, blocks: nat, rest: seq<Byte>) returns (next: nat)
    requires Holds(data, at, EncodeCounted(nodes, NodeEnc()) + rest) && FitsNodes(nodes, blocks) && blocks < WORD_LIMIT
    ensures ReadNodes(data, at, blocks) == Got(nodes, next) && Holds(data, next, rest)
    ensures next + |rest| == at + |EncodeCounted(nodes, NodeEnc()) + rest|
  {
    var n := |nodes|;
    forall i: nat | i < n ensures |NodeEnc()(nodes[i], i)| >= 6
        && Decodes(data, nodes[i], i, NodeEnc(), NodeDec(data, n, blocks)) {
      NumbersLength(NodeNumbers(nodes[i], i));
      forall p: nat | Holds(data, p, EncodeNode(nodes[i], i))
        ensures DecodeNode(data, p, i, n, blocks) == Got(nodes[i], p + |EncodeNode(nodes[i], i)|) {
        HoldsIsAt(data, p, EncodeNode(nodes[i], i));
        NodeDecodes(data, p, nodes[i], i, n, blocks);
      }
    }
    HoldsParts(data, at, EncodeCounted(nodes, NodeEnc()), rest);
    HoldsParts(data, at, Fixed(n, 8), EncodeList(nodes, NodeEnc()));
    RangeOf8();
    FixedHolds(data, at, n, 8);
    next := CountedRead(data, at, nodes, 6, NodeEnc(), NodeDec(data, n, blocks), rest);
  }

  lemma NodesWritten(data: seq<Byte>, at: nat, blocks: nat)
    requires ReadNodes(data, at, blocks).Got? && |data| <= WORD32
    ensures var r := ReadNodes(data, at, blocks);
            && Holds(data, at, EncodeCounted(r.value, NodeEnc()))
            && r.next == at + |EncodeCounted(r.value, NodeEnc())| <= |data|
            && FitsNodes(r.value, blocks)
  {
    var count := ReadFixed(data, at, 8).value;
    var dec := NodeDec(data, count, blocks);
    forall p: nat, i: nat | p <= |data| ensures Encodes(data, p, i, NodeEnc(), dec) {
      var r := DecodeNode(data, p, i, count, blocks);
      if r.Got? {
        NodeEncodes(data, p, i, count, blocks);
        HoldsSlice(data, p, r.next, EncodeNode(r.value, i));
      }
    }
    CountedWrites(data, at, 6, NodeEnc(), dec);
    var r := ReadCounted(data, at, 6, dec);
    forall i: nat | i < |r.value| ensures FitsNode(r.value[i], count, blocks) {
      assert Came(data, r.value[i], i, dec);
      var p: nat :| p <= |data| && dec(p, i).Got? && dec(p, i).value == r.value[i];
      NodeEncodes(data, p, i, count, blocks);
    }
  }

  // ----- Entries and bytes

  lemma EntryReads(e: Entry)
    requires FitsEntry(e)
    ensures ReadEntry(EncodeEntry(e)) == Got(e, |EncodeEntry(e)|)
  {
    LayoutsSound();
    BlockCountFits(e.head);
    var m1, m2 := PartsRead(EncodeEntry(e), HeadShape(), TablesShape(), e);
    EntrySteps(EncodeEntry(e), e, m1, m2, |EncodeEntry(e)|);
  }

  lemma {:induction false} PartsRead(data: seq<Byte>, headShape: Shape, tablesShape: Shape, e: Entry)
    returns (m1: nat, m2: nat)
    requires data == EncodeShape(headShape, e.head)
             + (EncodeCounted(e.nodes, NodeEnc()) + EncodeShape(tablesShape, e.tables))
    requires Sound(headShape) && Sound(tablesShape) && Fits(headShape, e.head, 0)
             && Fits(tablesShape, e.tables, |e.nodes|)
    requires FitsNodes(e.nodes, BlockCount(e.head)) && BlockCount(e.head) < WORD_LIMIT
    ensures ReadShape(data, 0, headShape, 0) == Got(e.head, m1)
            && ReadNodes(data, m1, BlockCount(e.head)) == Got(e.nodes, m2)
    ensures ReadShape(data, m2, tablesShape, |e.nodes|) == Got(e.tables, |data|)
  {
    m1 := FrontRead(data, headShape, e.head, EncodeCounted(e.nodes, NodeEnc()) + EncodeShape(tablesShape, e.tables));
    m2 := NodesRead(data, m1, e.nodes, BlockCount(e.head), EncodeShape(tablesShape, e.tables));
    ShapeReads(data, m2, tablesShape, e.tables, |e.nodes|);
  }

  lemma FrontRead(data: seq<Byte>, shape: Shape, head: Datum, rest: seq<Byte>) returns (next: nat)
    requires data == EncodeShape(shape, head) + rest && Sound(shape) && Fits(shape, head, 0)
    ensures ReadShape(data, 0, shape, 0) == Got(head, next) && Holds(data, next, rest) && next + |rest| == |data|
  {
    HoldsAll(data, data);
    HoldsParts(data, 0, EncodeShape(shape, head), rest);
    ShapeReads(data, 0, shape, head, 0);
    next := |EncodeShape(shape, head)|;
  }

  lemma EntrySteps(data: seq<Byte>, e: Entry, m1: nat, m2: nat, end: nat)
    requires ReadShape(data, 0, HeadShape(), 0) == Got(e.head, m1)
             && ReadNodes(data, m1, BlockCount(e.head)) == Got(e.nodes, m2)
    requires ReadShape(data, m2, TablesShape(), |e.nodes|) == Got(e.tables, end)
    ensures ReadEntry(data) == Got(e, end)
  {
  }

  lemma BlockCountFits(head: Datum)
    requires Fits(HeadShape(), head, 0)
    ensures BlockCount(head) < WORD_LIMIT
  {
    FitPart(HeadShape().parts, head, 1, 0);
  }

  lemma EntryWritten(data: seq<Byte>)
    requires ReadEntry(data).Got? && |data| <= WORD32
    ensures var r := ReadEntry(data); FitsEntry(r.value) && Holds(data, 0, EncodeEntry(r.value))
                                      && r.next == |EncodeEntry(r.value)|
  {
    var e := ReadEntry(data).value;
    var m1 := ReadShape(data, 0, HeadShape(), 0).next;
    ShapeWritten(data, 0, HeadShape(), 0);
    NodesWritten(data, m1, BlockCount(e.head));
    var m2 := ReadNodes(data, m1, BlockCount(e.head)).next;
    ShapeWritten(data, m2, TablesShape(), |e.nodes|);
    JoinThree(data, EncodeShape(HeadShape(), e.head), EncodeCounted(e.nodes, NodeEnc()),
              EncodeShape(TablesShape(), e.tables), m1, m2);
  }

  lemma JoinThree(data: seq<Byte>, a: seq<Byte>, b: seq<Byte>, c: seq<Byte>, m1: nat, m2: nat)
    requires Holds(data, 0, a) && m1 == |a| && Holds(data, m1, b) && m2 == m1 + |b| && Holds(data, m2, c)
    ensures Holds(data, 0, a + (b + c)) && |a + (b + c)| == m2 + |c|
  {
    HoldsParts(data, m1, b, c);
    HoldsParts(data, 0, a, b + c);
  }

  // ----- The theorems

  /** Decoding what was encoded gives the same plan: values, edges, phi blocks and all tables with their pointers; only
      image modes prepared for no images are not prepared any more. */
  lemma PlanDecodes(plan: Plan)
    requires FitsPlan(plan)
    ensures DecodePlan(EncodePlan(plan)) == if ValidTables(plan.tables) then Some(SettledPlan(plan)) else None
  {
    EntryReads(EntryOf(plan));
    PlanBack(plan);
  }

  lemma PlanBack(plan: Plan)
    requires Enumerated(plan.tables.info.images)
    ensures PlanIn(EntryOf(plan)) == SettledPlan(plan)
            && (ValidTables(Settled(plan.tables)) <==> ValidTables(plan.tables))
  {
    RunBack(plan.head);
    RunBack(plan.blockIds);
    TablesBack(plan.tables);
  }

  lemma HeadAgain(head: Datum)
    requires Fits(HeadShape(), head, 0)
    ensures Group([Run(RunOf(Item(head, 0))), Run(RunOf(Item(head, 1)))]) == head
  {
    FieldsJoin(Repeat(W(), 1), Repeat(Q(), 1));
    FieldsJoin(Repeat(W(), 1) + Repeat(Q(), 1), Repeat(W(), 3));
    FitTwo(Record(Repeat(W(), 1) + Repeat(Q(), 1) + Repeat(W(), 3)), Words(), head, 0);
    RunAgain(Repeat(W(), 1) + Repeat(Q(), 1) + Repeat(W(), 3), Item(head, 0), 0);
    WordsAgain(4, 4, 0x1_0000_0000, Item(head, 1), 0);
    assert head.items == [Item(head, 0), Item(head, 1)];
  }

  /** Different entries have different bytes. */
  lemma EntriesDiffer(a: Entry, b: Entry)
    requires FitsEntry(a) && FitsEntry(b)
    ensures EncodeEntry(a) == EncodeEntry(b) <==> a == b
  {
    EntryReads(a);
    EntryReads(b);
  }

  /** Every accepted entry holds a plan of the program, and exactly the entries whose sources without a column have the
      fields of the default one, whose table operations are bytes, and which prepare image modes only for images are the
      ones the encoder writes for their plans. */
  lemma PlanEncodes(data: seq<Byte>)
    requires DecodePlan(data).Some? && |data| <= WORD32
    ensures var plan := DecodePlan(data).value;
            && FitsPlan(plan) && ValidTables(plan.tables) && SettledPlan(plan) == plan
            && (EncodePlan(plan) == data <==> Plain(ReadEntry(data).value.tables))
  {
    var e := ReadEntry(data).value;
    EntryWritten(data);
    HoldsAll(data, EncodeEntry(e));
    HeadAgain(e.head);
    TablesAgain(e.tables, |e.nodes|);
    TablesRefit(e.tables, |e.nodes|);
    EntriesDiffer(EntryOf(PlanIn(e)), e);
  }
}
