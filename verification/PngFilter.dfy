/** PNG row filtering (section 9 of ISO/IEC 15948): every row is stored as its differences from a prediction, under
the enabled filter whose differences are smallest. */
module PngFilter {
  import opened Wrappers
  import opened Uleb128

  const FILTER_TYPES: nat := 5
  const FILTER_ALL: nat := 0x1F
  const MAX_LEVEL: int := 9
  const INT_MAX: nat := 0x7FFF_FFFF
  const WORST: nat := 0xFFFF_FFFF_FFFF_FFFF

  // ----- Predictions

  function Abs(x: int): nat { if x < 0 then -x else x }

  function Paeth(left: int, up: int, upLeft: int): int {
    var estimate := left + up - upLeft;
    if Abs(estimate - left) <= Abs(estimate - up) && Abs(estimate - left) <= Abs(estimate - upLeft) then left
    else if Abs(estimate - up) <= Abs(estimate - upLeft) then up
    else upLeft
  }

  /** `p` is the first of `candidates` that lies nearest to `target`. */
  ghost predicate FirstNearest(candidates: seq<int>, target: int, p: int) {
    exists k :: 0 <= k < |candidates| && candidates[k] == p
                && forall j :: 0 <= j < |candidates| ==>
                     Abs(target - p) <= Abs(target - candidates[j])
                       && (j < k ==> Abs(target - p) < Abs(target - candidates[j]))
  }

  lemma FirstNearestOnce(candidates: seq<int>, target: int, p: int, q: int)
    requires FirstNearest(candidates, target, p) && FirstNearest(candidates, target, q)
    ensures p == q
  {
  }

  /** Paeth's predictor is the neighbour nearest to left + up - upLeft, ties going to left, then up. */
  lemma PaethIsNearest(left: int, up: int, upLeft: int)
    ensures FirstNearest([left, up, upLeft], left + up - upLeft, Paeth(left, up, upLeft))
  {
    var paeth := Paeth(left, up, upLeft);
    assert [left, up, upLeft][if paeth == left then 0 else if paeth == up then 1 else 2] == paeth;
  }

  /** The predictors of table 9.1 of ISO/IEC 15948: nothing, left, up, the mean rounded down, the nearest neighbour. */
  ghost predicate Standard(filter: nat, left: int, up: int, upLeft: int, p: int) {
    match filter
    case 0 => p == 0
    case 1 => p == left
    case 2 => p == up
    case 3 => 2 * p <= left + up < 2 * p + 2
    case 4 => FirstNearest([left, up, upLeft], left + up - upLeft, p)
    case _ => false
  }

  lemma PredictionIsStandard(filter: nat, left: Byte, up: Byte, upLeft: Byte, p: int)
    requires filter < FILTER_TYPES
    ensures Standard(filter, left, up, upLeft, p) <==> p == Prediction(filter, left, up, upLeft)
  {
    if filter == 4 {
      var candidates, target, paeth := [left as int, up, upLeft], left + up - upLeft, Paeth(left, up, upLeft);
      PaethIsNearest(left, up, upLeft);
      if FirstNearest(candidates, target, p) { FirstNearestOnce(candidates, target, p, paeth); }
    }
  }

  function Prediction(filter: nat, left: Byte, up: Byte, upLeft: Byte): int {
    match filter
    case 1 => left
    case 2 => up
    case 3 => (left + up) / 2
    case 4 => Paeth(left, up, upLeft)
    case _ => 0
  }

  /** The prediction for byte `i`; what lies outside the image counts as zero. */
  function Predicted(filter: nat, row: seq<Byte>, previous: Option<seq<Byte>>, pixelSize: nat, i: nat): int
    requires i <= |row| && pixelSize > 0 && (previous.Some? ==> i < |previous.value|)
  {
    var left := if i >= pixelSize then row[i - pixelSize] else 0;
    var up := if previous.Some? then previous.value[i] else 0;
    var upLeft := if previous.Some? && i >= pixelSize then previous.value[i - pixelSize] else 0;
    Prediction(filter, left, up, upLeft)
  }

  ghost predicate Above(previous: Option<seq<Byte>>, size: nat) { previous.Some? ==> |previous.value| == size }

  function Filtered(filter: nat, row: seq<Byte>, previous: Option<seq<Byte>>, pixelSize: nat): (f: seq<Byte>)
    requires pixelSize > 0 && Above(previous, |row|)
    ensures |f| == |row|
  {
    seq(|row|, i requires 0 <= i < |row| => (row[i] - Predicted(filter, row, previous, pixelSize, i)) % 256)
  }

  /** Undoing a filter byte by byte: the bytes to the left are known by then. */
  function Unfiltered(filter: nat, f: seq<Byte>, previous: Option<seq<Byte>>, pixelSize: nat): (row: seq<Byte>)
    requires pixelSize > 0 && (previous.Some? ==> |previous.value| >= |f|)
    ensures |row| == |f|
  {
    if f == [] then []
    else
      var n := |f| - 1;
      var known := Unfiltered(filter, f[..n], previous, pixelSize);
      known + [(f[n] + Predicted(filter, known, previous, pixelSize, n)) % 256]
  }

  /** Undoing a filter gives the row back. */
  lemma {:induction false} UnfilterFilter(filter: nat, row: seq<Byte>, previous: Option<seq<Byte>>, pixelSize: nat,
                                          n: nat)
    requires pixelSize > 0 && Above(previous, |row|) && n <= |row|
    ensures Unfiltered(filter, Filtered(filter, row, previous, pixelSize)[..n], previous, pixelSize) == row[..n]
  {
    if n > 0 {
      var f := Filtered(filter, row, previous, pixelSize);
      UnfilterFilter(filter, row, previous, pixelSize, n - 1);
      assert f[..n][..n - 1] == f[..n - 1];
      var p := Predicted(filter, row, previous, pixelSize, n - 1);
      assert Predicted(filter, row[..n - 1], previous, pixelSize, n - 1) == p;
      Wraps(row[n - 1], p);
      assert row[..n] == row[..n - 1] + [row[n - 1]];
    }
  }

  lemma Wraps(x: Byte, p: int)
    ensures ((x - p) % 256 + p) % 256 == x
  {
  }

  // ----- Costs

  /** A difference counts by its distance from zero. */
  function ByteCost(b: Byte): (cost: nat)
    ensures (cost == b || cost == 256 - b) && cost <= b && cost <= 256 - b
  {
    if b < 0x80 then b else 0x100 - b
  }

  function Cost(f: seq<Byte>): (cost: nat)
    ensures cost <= 128 * |f|
    decreases |f|
  {
    if f == [] then 0 else Cost(f[..|f| - 1]) + ByteCost(f[|f| - 1])
  }

  function Bits(filter: nat): (bits: nat)
    ensures bits > 0
  {
    if filter == 0 then 1 else 2 * Bits(filter - 1)
  }

  predicate Enabled(filters: nat, filter: nat) { filter < FILTER_TYPES && filters / Bits(filter) % 2 == 1 }

  lemma SomeEnabled(filters: nat)
    requires 0 < filters <= FILTER_ALL
    ensures exists filter: nat :: Enabled(filters, filter)
  {
    assert Bits(1) == 2 && Bits(2) == 4 && Bits(3) == 8 && Bits(4) == 16;
    assert Enabled(filters, 0) || Enabled(filters, 1) || Enabled(filters, 2) || Enabled(filters, 3)
        || Enabled(filters, 4);
  }

  /** The least cost among the enabled filters, ties to the lowest type. */
  ghost predicate Best(filters: nat, row: seq<Byte>, previous: Option<seq<Byte>>, pixelSize: nat, best: nat, below: nat)
    requires pixelSize > 0 && Above(previous, |row|)
  {
    best < below && Enabled(filters, best) &&
    forall other: nat :: other < below && Enabled(filters, other) ==>
      var mine, theirs := Cost(Filtered(best, row, previous, pixelSize)),
          Cost(Filtered(other, row, previous, pixelSize));
      mine <= theirs && (other < best ==> mine < theirs)
  }

  // ----- The encoder's rows

  function Row(pixels: seq<Byte>, rowSize: nat, y: nat): (row: seq<Byte>)
    requires |pixels| >= rowSize * (y + 1)
    ensures |row| == rowSize
  {
    assert rowSize * (y + 1) == rowSize * y + rowSize;
    pixels[rowSize * y..rowSize * y + rowSize]
  }

  function Previous(pixels: seq<Byte>, rowSize: nat, y: nat): (row: Option<seq<Byte>>)
    requires |pixels| >= rowSize * (y + 1)
    ensures Above(row, rowSize)
  {
    if y == 0 then None
    else
      assert rowSize * (y + 1) == rowSize * y + rowSize;
      Some(Row(pixels, rowSize, y - 1))
  }

  /** A row as it is stored: the filter type, then the filtered bytes. */
  ghost predicate Stored(stored: seq<Byte>, pixels: seq<Byte>, rowSize: nat, y: nat, pixelSize: nat, filters: nat)
    requires pixelSize > 0 && |pixels| >= rowSize * (y + 1)
  {
    var row, previous := Row(pixels, rowSize, y), Previous(pixels, rowSize, y);
    && |stored| == rowSize + 1 && Best(filters, row, previous, pixelSize, stored[0], FILTER_TYPES)
    && stored[1..] == Filtered(stored[0], row, previous, pixelSize)
  }

  method FilterRow(row: seq<Byte>, previous: Option<seq<Byte>>, pixelSize: nat, filter: nat, filtered: array<Byte>)
    returns (cost: nat)
    requires pixelSize > 0 && Above(previous, |row|) && filtered.Length == |row|
    modifies filtered
    ensures filtered[..] == Filtered(filter, row, previous, pixelSize) && cost == Cost(filtered[..])
  {
    cost := 0;
    ghost var f := Filtered(filter, row, previous, pixelSize);
    for i := 0 to |row|
      invariant (forall k :: 0 <= k < i ==> filtered[k] == f[k]) && cost == Cost(f[..i])
    {
      filtered[i] := (row[i] - Predicted(filter, row, previous, pixelSize, i)) % 256;
      CostStep(f, i);
      cost := cost + ByteCost(filtered[i]);
    }
    assert filtered[..] == f && f[..|row|] == f;
  }

  lemma CostStep(f: seq<Byte>, i: nat)
    requires i < |f|
    ensures Cost(f[..i + 1]) == Cost(f[..i]) + ByteCost(f[i])
  {
    assert f[..i + 1][..i] == f[..i];
  }

  /** The best enabled filter for a row, and the row under it. */
  method BestRow(row: seq<Byte>, previous: Option<seq<Byte>>, pixelSize: nat, filters: nat)
    returns (best: nat, stored: seq<Byte>)
    requires pixelSize > 0 && Above(previous, |row|) && |row| <= INT_MAX && 0 < filters <= FILTER_ALL
    ensures Best(filters, row, previous, pixelSize, best, FILTER_TYPES)
            && stored == Filtered(best, row, previous, pixelSize)
  {
    var candidate := new Byte[|row|];
    var bestCost := WORST;
    best, stored := 0, [];
    for filter := 0 to FILTER_TYPES
      invariant bestCost == WORST ==> forall other: nat :: other < filter ==> !Enabled(filters, other)
      invariant bestCost != WORST ==> Best(filters, row, previous, pixelSize, best, filter)
                                      && stored == Filtered(best, row, previous, pixelSize)
      invariant bestCost != WORST ==> bestCost == Cost(stored)
    {
      if !Enabled(filters, filter) { continue; }
      var cost := FilterRow(row, previous, pixelSize, filter, candidate);
      if cost >= bestCost { continue; }
      bestCost, best, stored := cost, filter, candidate[..];
    }
    SomeEnabled(filters);
  }

  predicate Encodable(pixels: seq<Byte>, width: nat, height: nat, channels: nat, level: int, filters: nat) {
    && 1 <= channels <= 4 && 0 <= level <= MAX_LEVEL && 0 < filters <= FILTER_ALL && width > 0 && height > 0
    && width * channels <= INT_MAX && (width * channels + 1) * height <= INT_MAX
    && |pixels| >= width * channels * height
  }

  lemma RowsFit(rowSize: nat, y: nat, height: nat)
    requires y < height
    ensures rowSize * (y + 1) <= rowSize * height && rowSize * (y + 1) == rowSize * y + rowSize
  {
  }

  /** The part of the buffer that holds row `y`. */
  function StoredRow(buffer: seq<Byte>, rowSize: nat, y: nat): (stored: seq<Byte>)
    requires |buffer| >= (rowSize + 1) * (y + 1)
    ensures |stored| == rowSize + 1
  {
    Row(buffer, rowSize + 1, y)
  }

  /** The rows before `n` are stored. */
  ghost predicate RowsStored(buffer: seq<Byte>, pixels: seq<Byte>, rowSize: nat, pixelSize: nat, filters: nat, n: nat)
    requires pixelSize > 0 && |pixels| >= rowSize * n && |buffer| >= (rowSize + 1) * n
  {
    forall y: nat :: y < n ==> RowStored(buffer, pixels, rowSize, pixelSize, filters, y)
  }

  ghost predicate RowStored(buffer: seq<Byte>, pixels: seq<Byte>, rowSize: nat, pixelSize: nat, filters: nat, y: nat)
    requires pixelSize > 0
  {
    && |pixels| >= rowSize * (y + 1) && |buffer| >= (rowSize + 1) * (y + 1)
    && Stored(StoredRow(buffer, rowSize, y), pixels, rowSize, y, pixelSize, filters)
  }

  lemma RowStays(buffer: seq<Byte>, more: seq<Byte>, pixels: seq<Byte>, rowSize: nat, pixelSize: nat, filters: nat,
                 y: nat)
    requires pixelSize > 0 && RowStored(buffer, pixels, rowSize, pixelSize, filters, y)
    ensures RowStored(buffer + more, pixels, rowSize, pixelSize, filters, y)
  {
    RowsFit(rowSize + 1, y, y + 1);
    assert StoredRow(buffer + more, rowSize, y) == StoredRow(buffer, rowSize, y);
  }

  lemma RowAdded(buffer: seq<Byte>, stored: seq<Byte>, pixels: seq<Byte>, rowSize: nat, pixelSize: nat, filters: nat,
                 y: nat)
    requires pixelSize > 0 && |pixels| >= rowSize * (y + 1) && |buffer| == (rowSize + 1) * y
    requires Stored(stored, pixels, rowSize, y, pixelSize, filters)
    ensures |buffer + stored| == (rowSize + 1) * (y + 1)
            && RowStored(buffer + stored, pixels, rowSize, pixelSize, filters, y)
  {
    RowsFit(rowSize + 1, y, y + 1);
    assert StoredRow(buffer + stored, rowSize, y) == stored;
  }

  /** The buffer that is compressed; None where the encoder throws. */
  method FilterImage(pixels: seq<Byte>, width: nat, height: nat, channels: nat, level: int, filters: nat)
    returns (filtered: Option<seq<Byte>>)
    ensures filtered.Some? <==> Encodable(pixels, width, height, channels, level, filters)
    ensures filtered.Some? ==> |filtered.value| == (width * channels + 1) * height
    ensures filtered.Some? ==> RowsStored(filtered.value, pixels, width * channels, channels, filters, height)
  {
    if !Encodable(pixels, width, height, channels, level, filters) { return None; }
    var rowSize := width * channels;
    var buffer: seq<Byte> := [];
    for y := 0 to height
      invariant |buffer| == (rowSize + 1) * y && rowSize * y <= rowSize * height
      invariant RowsStored(buffer, pixels, rowSize, channels, filters, y)
    {
      RowsFit(rowSize, y, height);
      var best, row := BestRow(Row(pixels, rowSize, y), Previous(pixels, rowSize, y), channels, filters);
      var stored: seq<Byte> := [best] + row;
      assert stored[1..] == row;
      RowAdded(buffer, stored, pixels, rowSize, channels, filters, y);
      forall k: nat | k < y ensures RowStored(buffer + stored, pixels, rowSize, channels, filters, k) {
        assert RowStored(buffer, pixels, rowSize, channels, filters, k);
        RowStays(buffer, stored, pixels, rowSize, channels, filters, k);
      }
      buffer := buffer + stored;
    }
    filtered := Some(buffer);
  }

  // ----- Reading the rows back

  /** A decoder's view: rows `0..n`, each undone against the one before it. */
  function Undone(buffer: seq<Byte>, rowSize: nat, pixelSize: nat, n: nat): (rows: seq<seq<Byte>>)
    requires pixelSize > 0 && |buffer| >= (rowSize + 1) * n
    ensures |rows| == n && forall row <- rows :: |row| == rowSize
  {
    if n == 0 then []
    else
      RowsFit(rowSize + 1, n - 1, n);
      var before := Undone(buffer, rowSize, pixelSize, n - 1);
      var stored := StoredRow(buffer, rowSize, n - 1);
      before + [Unfiltered(stored[0], stored[1..], if n == 1 then None else Some(before[n - 2]), pixelSize)]
  }

  lemma RowUndone(stored: seq<Byte>, pixels: seq<Byte>, rowSize: nat, y: nat, pixelSize: nat, filters: nat)
    requires pixelSize > 0 && |pixels| >= rowSize * (y + 1) && Stored(stored, pixels, rowSize, y, pixelSize, filters)
    ensures Unfiltered(stored[0], stored[1..], Previous(pixels, rowSize, y), pixelSize) == Row(pixels, rowSize, y)
  {
    var row, previous := Row(pixels, rowSize, y), Previous(pixels, rowSize, y);
    UnfilterFilter(stored[0], row, previous, pixelSize, rowSize);
    assert stored[1..][..rowSize] == stored[1..] && row[..rowSize] == row;
  }

  /** Row `y` is the image's. */
  ghost predicate IsRow(rows: seq<seq<Byte>>, pixels: seq<Byte>, rowSize: nat, y: nat) {
    y < |rows| && |pixels| >= rowSize * (y + 1) && rows[y] == Row(pixels, rowSize, y)
  }

  /** Undoing the filters of a stored image gives its pixels, row by row. */
  lemma {:induction false} UndoneIsImage(buffer: seq<Byte>, pixels: seq<Byte>, rowSize: nat, pixelSize: nat,
                                         filters: nat, n: nat)
    requires pixelSize > 0 && |pixels| >= rowSize * n && |buffer| >= (rowSize + 1) * n
    requires RowsStored(buffer, pixels, rowSize, pixelSize, filters, n)
    ensures forall y: nat :: y < n ==> IsRow(Undone(buffer, rowSize, pixelSize, n), pixels, rowSize, y)
  {
    if n > 0 {
      RowsFit(rowSize + 1, n - 1, n);
      RowsFit(rowSize, n - 1, n);
      UndoneIsImage(buffer, pixels, rowSize, pixelSize, filters, n - 1);
      assert RowStored(buffer, pixels, rowSize, pixelSize, filters, n - 1);
      RowUndone(StoredRow(buffer, rowSize, n - 1), pixels, rowSize, n - 1, pixelSize, filters);
      var before := Undone(buffer, rowSize, pixelSize, n - 1);
      if n > 1 { assert IsRow(before, pixels, rowSize, n - 2); }
      UndoneExtends(before, Undone(buffer, rowSize, pixelSize, n), pixels, rowSize, n);
    }
  }

  lemma UndoneExtends(before: seq<seq<Byte>>, rows: seq<seq<Byte>>, pixels: seq<Byte>, rowSize: nat, n: nat)
    requires n > 0 && |before| == n - 1 && |rows| == n && rows[..n - 1] == before && IsRow(rows, pixels, rowSize, n - 1)
    requires forall y: nat :: y < n - 1 ==> IsRow(before, pixels, rowSize, y)
    ensures forall y: nat :: y < n ==> IsRow(rows, pixels, rowSize, y)
  {
    forall y: nat | y < n ensures IsRow(rows, pixels, rowSize, y) {
      if y < n - 1 { assert IsRow(before, pixels, rowSize, y) && rows[y] == before[y]; }
    }
  }
}
