/** The value graph of a resource plan as bytes. Arguments are written as distances between the places of two
values in the storage, so a graph may point forwards and in circles. */
module PlanCodec {
  import opened Wrappers
  import opened Uleb128
  import opened Serial

  const OPCODES: nat := 471
  const PHI: nat := 1

  /** A value; arguments and phi blocks are places in the storage, None a null pointer. */
  datatype Node = Node(opcode: nat, typ: nat, id: nat, flags: nat, bank: nat, register: nat, immediate: Option<nat>,
                       arguments: seq<Option<nat>>, phis: seq<nat>)

  // ----- Runs of compact numbers

  function EncodeNumbers(numbers: seq<nat>): seq<Byte> {
    if numbers == [] then [] else Encode(numbers[0]) + EncodeNumbers(numbers[1..])
  }

  /** The next `count` compact values. */
  function ReadNumbers(data: seq<Byte>, at: nat, count: nat): (r: Read<seq<nat>>)
    ensures r.Got? ==> |r.value| == count && r.next >= at + count && (at <= |data| ==> r.next <= |data|)
    decreases count
  {
    if count == 0 then Got([], at)
    else
      match ReadCompact(data, at)
      case Bad => Bad
      case Got(first, next) =>
        match ReadNumbers(data, next, count - 1)
        case Bad => Bad
        case Got(rest, end) => Got([first] + rest, end)
  }

  ghost predicate Words64(numbers: seq<nat>) { forall i :: 0 <= i < |numbers| ==> numbers[i] < WORD_LIMIT }

  lemma {:induction false} NumbersRead(data: seq<Byte>, at: nat, numbers: seq<nat>)
    requires At(data, at, EncodeNumbers(numbers)) && Words64(numbers)
    ensures ReadNumbers(data, at, |numbers|) == Got(numbers, at + |EncodeNumbers(numbers)|)
    decreases |numbers|
  {
    if numbers != [] {
      var first, rest := numbers[0], numbers[1..];
      var next := NumberRead(data, at, first, EncodeNumbers(rest));
      NumbersRead(data, next, rest);
      assert numbers == [first] + rest;
    }
  }

  lemma NumberRead(data: seq<Byte>, at: nat, value: nat, rest: seq<Byte>) returns (next: nat)
    requires At(data, at, Encode(value) + rest) && value < WORD_LIMIT
    ensures ReadCompact(data, at) == Got(value, next) && At(data, next, rest)
            && next + |rest| == at + |Encode(value) + rest|
  {
    AtParts(data, at, Encode(value), rest);
    CompactBijection(data, at, value);
    next := at + |Encode(value)|;
  }

  lemma {:induction false} NumbersWritten(data: seq<Byte>, at: nat, numbers: seq<nat>, next: nat)
    requires ReadNumbers(data, at, |numbers|) == Got(numbers, next) && at <= |data|
    ensures Words64(numbers) && data[at..next] == EncodeNumbers(numbers)
    decreases |numbers|
  {
    if numbers == [] {
      assert data[at..next] == [];
    } else {
      var first := ReadCompact(data, at);
      CompactBijection(data, at, numbers[0]);
      var rest := ReadNumbers(data, first.next, |numbers| - 1).value;
      assert numbers[1..] == rest;
      NumbersWritten(data, first.next, rest, next);
      assert data[at..next] == data[at..first.next] + data[first.next..next];
    }
  }

  lemma {:induction false} ReadNumbersSplits(data: seq<Byte>, at: nat, a: nat, b: nat)
    ensures ReadNumbers(data, at, a + b) ==
            match ReadNumbers(data, at, a)
            case Bad => Bad
            case Got(first, next) =>
              match ReadNumbers(data, next, b)
              case Bad => Bad
              case Got(rest, end) => Got(first + rest, end)
    decreases a
  {
    if a > 0 {
      var head := ReadCompact(data, at);
      if head.Got? {
        ReadNumbersSplits(data, head.next, a - 1, b);
        var first := ReadNumbers(data, head.next, a - 1);
        if first.Got? {
          var rest := ReadNumbers(data, first.next, b);
          if rest.Got? { assert [head.value] + (first.value + rest.value) == [head.value] + first.value + rest.value; }
        }
      }
    } else {
      var rest := ReadNumbers(data, at, b);
      if rest.Got? { assert [] + rest.value == rest.value; }
    }
  }

  // ----- Arguments

  /** The distance zigzagged and raised by one; zero is the null pointer. */
  function ArgumentCode(argument: Option<nat>, current: nat): nat {
    match argument
    case None => 0
    case Some(index) =>
      var delta := index - current;
      (if delta >= 0 then 2 * delta else -2 * delta - 1) + 1
  }

  function Distance(zigzag: nat): int { if zigzag % 2 == 0 then zigzag / 2 else -(zigzag / 2) - 1 }

  predicate ValidCode(code: nat, current: nat, nodes: nat) { code == 0 || 0 <= current + Distance(code - 1) < nodes }

  function Argument(code: nat, current: nat): Option<nat>
    requires code == 0 || 0 <= current + Distance(code - 1)
  {
    if code == 0 then None else Some(current + Distance(code - 1))
  }

  /** Codes and arguments are in bijection. */
  lemma CodeOfArgument(argument: Option<nat>, current: nat, nodes: nat)
    requires argument.Some? ==> argument.value < nodes
    ensures var code := ArgumentCode(argument, current);
            ValidCode(code, current, nodes) && Argument(code, current) == argument
    ensures current < WORD32 && nodes <= WORD32 ==> ArgumentCode(argument, current) < WORD_LIMIT
  {
  }

  lemma ArgumentOfCode(code: nat, current: nat, nodes: nat)
    requires ValidCode(code, current, nodes)
    ensures ArgumentCode(Argument(code, current), current) == code
    ensures Argument(code, current).Some? ==> Argument(code, current).value < nodes
  {
  }

  function Codes(arguments: seq<Option<nat>>, current: nat): (codes: seq<nat>)
    ensures |codes| == |arguments| && forall i :: 0 <= i < |codes| ==> codes[i] == ArgumentCode(arguments[i], current)
  {
    seq(|arguments|, i requires 0 <= i < |arguments| => ArgumentCode(arguments[i], current))
  }

  predicate ValidCodes(codes: seq<nat>, current: nat, nodes: nat) {
    forall i :: 0 <= i < |codes| ==> ValidCode(codes[i], current, nodes)
  }

  function Arguments(codes: seq<nat>, current: nat, nodes: nat): (arguments: seq<Option<nat>>)
    requires ValidCodes(codes, current, nodes)
    ensures |arguments| == |codes| && forall i :: 0 <= i < |codes| ==> arguments[i] == Argument(codes[i], current)
  {
    seq(|codes|, i requires 0 <= i < |codes| => Argument(codes[i], current))
  }

  lemma CodesOfArguments(arguments: seq<Option<nat>>, current: nat, nodes: nat)
    requires forall i :: 0 <= i < |arguments| && arguments[i].Some? ==> arguments[i].value < nodes
    requires current < WORD32 && nodes <= WORD32
    ensures var codes := Codes(arguments, current);
            Words64(codes) && ValidCodes(codes, current, nodes) && Arguments(codes, current, nodes) == arguments
  {
    forall i | 0 <= i < |arguments|
      ensures var code := Codes(arguments, current)[i];
              code < WORD_LIMIT && ValidCode(code, current, nodes) && Argument(code, current) == arguments[i]
    {
      CodeOfArgument(arguments[i], current, nodes);
    }
  }

  lemma ArgumentsOfCodes(codes: seq<nat>, current: nat, nodes: nat)
    requires ValidCodes(codes, current, nodes)
    ensures Codes(Arguments(codes, current, nodes), current) == codes
    ensures forall argument <- Arguments(codes, current, nodes) :: argument.Some? ==> argument.value < nodes
  {
    var arguments := Arguments(codes, current, nodes);
    forall i | 0 <= i < |codes|
      ensures ArgumentCode(arguments[i], current) == codes[i] && (arguments[i].Some? ==> arguments[i].value < nodes)
    {
      ArgumentOfCode(codes[i], current, nodes);
    }
    assert Codes(arguments, current) == codes;
  }

  // ----- Nodes

  /** The range checks of the decoder, and what the IR guarantees of its values. */
  ghost predicate FitsNode(n: Node, nodes: nat, blocks: nat) {
    && n.opcode < OPCODES && n.typ < WORD32 && n.id < WORD32 && n.flags < WORD_LIMIT && n.bank < 16
    && n.register < WORD32
    && (n.immediate.Some? ==> n.immediate.value < WORD_LIMIT) && 2 * |n.arguments| + 1 < WORD_LIMIT
    && (forall argument <- n.arguments :: argument.Some? ==> argument.value < nodes)
    && |n.phis| == (if n.opcode == PHI then |n.arguments| else 0) && forall phi <- n.phis :: phi < blocks
  }

  function Head(n: Node): (head: seq<nat>)
    ensures |head| == 6
  {
    [n.opcode, n.typ, n.id, n.flags, n.register * 16 + n.bank, |n.arguments| * 2 + if n.immediate.Some? then 1 else 0]
  }

  function Immediate(n: Node): seq<nat> { if n.immediate.Some? then [n.immediate.value] else [] }

  function NodeNumbers(n: Node, current: nat): seq<nat> {
    Head(n) + (Immediate(n) + (Codes(n.arguments, current) + n.phis))
  }

  function EncodeNode(n: Node, current: nat): seq<Byte> { EncodeNumbers(NodeNumbers(n, current)) }

  predicate HeadInRange(head: seq<nat>)
    requires |head| == 6
  {
    head[0] < OPCODES && head[1] < WORD32 && head[2] < WORD32 && head[4] / 16 < WORD32
  }

  function NodeOf(head: seq<nat>, immediate: seq<nat>, arguments: seq<Option<nat>>, phis: seq<nat>): Node
    requires |head| == 6
  {
    Node(head[0], head[1], head[2], head[3], head[4] % 16, head[4] / 16, if immediate == [] then None
         else Some(immediate[0]), arguments, phis)
  }

  /** The value stored at `at`, the `current`-th of `nodes` values. */
  function DecodeNode(data: seq<Byte>, at: nat, current: nat, nodes: nat, blocks: nat): (r: Read<Node>)
    ensures r.Got? && at <= |data| ==> at + 6 <= r.next <= |data|
  {
    var head := ReadNumbers(data, at, 6);
    if head.Bad? || !HeadInRange(head.value) || head.value[5] / 2 > |data| - head.next then Bad
    else
      var count := head.value[5] / 2;
      var immediate := ReadNumbers(data, head.next, head.value[5] % 2);
      if immediate.Bad? then Bad
      else
        var codes := ReadNumbers(data, immediate.next, count);
        if codes.Bad? || !ValidCodes(codes.value, current, nodes) then Bad
        else
          var phis := ReadNumbers(data, codes.next, if head.value[0] == PHI then count else 0);
          if phis.Bad? || exists phi <- phis.value :: phi >= blocks then Bad
          else Got(NodeOf(head.value, immediate.value, Arguments(codes.value, current, nodes), phis.value), phis.next)
  }

  /** The parts of a run that is read as a whole. */
  lemma ReadsFour(data: seq<Byte>, at: nat, a: seq<nat>, b: seq<nat>, c: seq<nat>, d: seq<nat>, next: nat)
    returns (m1: nat, m2: nat, m3: nat)
    requires ReadNumbers(data, at, |a| + (|b| + (|c| + |d|))) == Got(a + (b + (c + d)), next) && at <= |data|
    ensures ReadNumbers(data, at, |a|) == Got(a, m1) && ReadNumbers(data, m1, |b|) == Got(b, m2)
    ensures ReadNumbers(data, m2, |c|) == Got(c, m3) && ReadNumbers(data, m3, |d|) == Got(d, next)
    ensures m1 + |b| + |c| + |d| <= |data|
  {
    m1 := ReadsTwo(data, at, a, b + (c + d), next);
    m2 := ReadsTwo(data, m1, b, c + d, next);
    m3 := ReadsTwo(data, m2, c, d, next);
  }

  lemma ReadsTwo(data: seq<Byte>, at: nat, a: seq<nat>, b: seq<nat>, next: nat) returns (m: nat)
    requires ReadNumbers(data, at, |a| + |b|) == Got(a + b, next)
    ensures ReadNumbers(data, at, |a|) == Got(a, m) && ReadNumbers(data, m, |b|) == Got(b, next)
  {
    ReadNumbersSplits(data, at, |a|, |b|);
    var first := ReadNumbers(data, at, |a|);
    m := first.next;
    var rest := ReadNumbers(data, m, |b|);
    assert first.value == (first.value + rest.value)[..|a|] == (a + b)[..|a|] == a;
    assert rest.value == (first.value + rest.value)[|a|..] == (a + b)[|a|..] == b;
  }

  /** Decoding inverts encoding. */
  lemma NodeDecodes(data: seq<Byte>, at: nat, n: Node, current: nat, nodes: nat, blocks: nat)
    requires At(data, at, EncodeNode(n, current)) && FitsNode(n, nodes, blocks) && current < nodes <= WORD32
             && blocks <= WORD_LIMIT
    ensures DecodeNode(data, at, current, nodes, blocks) == Got(n, at + |EncodeNode(n, current)|)
  {
    var codes := Codes(n.arguments, current);
    CodesOfArguments(n.arguments, current, nodes);
    NodeWords(n, current, nodes, blocks);
    NumbersRead(data, at, NodeNumbers(n, current));
    var m1, m2, m3 := ReadsFour(data, at, Head(n), Immediate(n), codes, n.phis, at + |EncodeNode(n, current)|);
    HeadParts(n);
  }

  lemma NodeWords(n: Node, current: nat, nodes: nat, blocks: nat)
    requires FitsNode(n, nodes, blocks) && Words64(Codes(n.arguments, current)) && blocks <= WORD_LIMIT
    ensures Words64(NodeNumbers(n, current))
  {
    forall i | 0 <= i < |n.phis| ensures n.phis[i] < WORD_LIMIT { assert n.phis[i] in n.phis; }
    JoinedWords(Codes(n.arguments, current), n.phis);
    JoinedWords(Immediate(n), Codes(n.arguments, current) + n.phis);
    JoinedWords(Head(n), Immediate(n) + (Codes(n.arguments, current) + n.phis));
  }

  lemma JoinedWords(a: seq<nat>, b: seq<nat>)
    requires Words64(a) && Words64(b)
    ensures Words64(a + b)
  {
  }

  lemma HeadParts(n: Node)
    requires n.bank < 16
    ensures Head(n)[4] % 16 == n.bank && Head(n)[4] / 16 == n.register
    ensures Head(n)[5] / 2 == |n.arguments| && Head(n)[5] % 2 == |Immediate(n)|
  {
    Split(n.register, n.bank, 16);
    Split(|n.arguments|, |Immediate(n)|, 2);
  }

  lemma Split(high: nat, low: nat, base: nat)
    requires low < base && (base == 2 || base == 16)
    ensures (high * base + low) % base == low && (high * base + low) / base == high
  {
  }

  /** The numbers of a node made of parts that were read. */
  lemma PartsOfNode(head: seq<nat>, immediate: seq<nat>, codes: seq<nat>, phis: seq<nat>, current: nat, nodes: nat)
    requires |head| == 6 && |immediate| == head[5] % 2 && |codes| == head[5] / 2 && ValidCodes(codes, current, nodes)
    ensures NodeNumbers(NodeOf(head, immediate, Arguments(codes, current, nodes), phis), current) == head
            + (immediate + (codes + phis))
  {
    ArgumentsOfCodes(codes, current, nodes);
    var n := NodeOf(head, immediate, Arguments(codes, current, nodes), phis);
    assert Head(n) == head && Immediate(n) == immediate;
  }

  lemma JoinsFour(data: seq<Byte>, at: nat, a: Read<seq<nat>>, b: Read<seq<nat>>, c: Read<seq<nat>>, d: Read<seq<nat>>)
    requires a.Got? && b.Got? && c.Got? && d.Got?
    requires ReadNumbers(data, at, |a.value|) == a && ReadNumbers(data, a.next, |b.value|) == b
    requires ReadNumbers(data, b.next, |c.value|) == c && ReadNumbers(data, c.next, |d.value|) == d
    ensures ReadNumbers(data, at, |a.value + (b.value + (c.value + d.value))|) ==
            Got(a.value + (b.value + (c.value + d.value)), d.next)
  {
    var cd := JoinsTwo(data, b.next, c, d);
    var bcd := JoinsTwo(data, a.next, b, cd);
    var abcd := JoinsTwo(data, at, a, bcd);
  }

  lemma JoinsTwo(data: seq<Byte>, at: nat, a: Read<seq<nat>>, b: Read<seq<nat>>) returns (both: Read<seq<nat>>)
    requires a.Got? && b.Got? && ReadNumbers(data, at, |a.value|) == a && ReadNumbers(data, a.next, |b.value|) == b
    ensures both == Got(a.value + b.value, b.next) && ReadNumbers(data, at, |a.value + b.value|) == both
  {
    ReadNumbersSplits(data, at, |a.value|, |b.value|);
    both := Got(a.value + b.value, b.next);
  }

  /** What is decoded is in range, and its bytes are the ones the encoder writes for it. */
  lemma NodeEncodes(data: seq<Byte>, at: nat, current: nat, nodes: nat, blocks: nat)
    requires DecodeNode(data, at, current, nodes, blocks).Got? && at <= |data|
    ensures var r := DecodeNode(data, at, current, nodes, blocks);
            FitsNode(r.value, nodes, blocks) && data[at..r.next] == EncodeNode(r.value, current)
  {
    var head := ReadNumbers(data, at, 6);
    var count := head.value[5] / 2;
    var immediate := ReadNumbers(data, head.next, head.value[5] % 2);
    var codes := ReadNumbers(data, immediate.next, count);
    var phis := ReadNumbers(data, codes.next, if head.value[0] == PHI then count else 0);
    JoinsFour(data, at, head, immediate, codes, phis);
    PartsOfNode(head.value, immediate.value, codes.value, phis.value, current, nodes);
    NumbersWritten(data, at, head.value + (immediate.value + (codes.value + phis.value)), phis.next);
    PartsFit(head.value, immediate.value, codes.value, phis.value, current, nodes, blocks);
  }

  lemma PartsFit(head: seq<nat>, immediate: seq<nat>, codes: seq<nat>, phis: seq<nat>, current: nat, nodes: nat,
                 blocks: nat)
    requires |head| == 6 && |immediate| == head[5] % 2 && |codes| == head[5] / 2 && ValidCodes(codes, current, nodes)
             && HeadInRange(head)
    requires Words64(head + (immediate + (codes + phis)))
    requires |phis| == (if head[0] == PHI then |codes| else 0) && !exists phi <- phis :: phi >= blocks
    ensures FitsNode(NodeOf(head, immediate, Arguments(codes, current, nodes), phis), nodes, blocks)
  {
    ArgumentsOfCodes(codes, current, nodes);
    var all := head + (immediate + (codes + phis));
    assert head[3] == all[3] && head[5] == all[5];
    if immediate != [] { assert immediate[0] == all[6]; }
  }
}
