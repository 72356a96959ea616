/** PNG row filters (RFC 2083, section 6): a row rebuilt in place undoes the filter
    it was written with. */
module PngFilters {
  import opened Wrappers

  type Byte = b: int | 0 <= b < 256

  const BYTES_PER_PIXEL := 4

  function Abs(x: int): nat { if x < 0 then -x else x }

  /** The first index holding the least value: `distances.index(min(distances))`. */
  function FirstLeast(distances: seq<nat>): (i: nat)
    requires |distances| > 0
    ensures i < |distances|
    ensures forall k :: 0 <= k < |distances| ==> distances[i] <= distances[k]
    ensures forall k :: 0 <= k < i ==> distances[i] < distances[k]
  {
    if |distances| == 1 then 0
    else
      var later := FirstLeast(distances[1..]) + 1;
      if distances[0] <= distances[later] then 0 else later
  }

  function Paeth(left: Byte, above: Byte, upperLeft: Byte): Byte {
    var estimate := left + above - upperLeft;
    var distances := [Abs(estimate - left), Abs(estimate - above), Abs(estimate - upperLeft)];
    [left, above, upperLeft][FirstLeast(distances)]
  }

  /** The predictor of section 6.6: the nearest neighbour, ties broken in the order
      left, above, upper left. */
  lemma PaethBreaksTiesInOrder(left: Byte, above: Byte, upperLeft: Byte)
    ensures var p := left + above - upperLeft;
            var (pa, pb, pc) := (Abs(p - left), Abs(p - above), Abs(p - upperLeft));
            Paeth(left, above, upperLeft)
              == if pa <= pb && pa <= pc then left else if pb <= pc then above else upperLeft
  {
    var p := left + above - upperLeft;
    var distances := [Abs(p - left), Abs(p - above), Abs(p - upperLeft)];
    var i := FirstLeast(distances);
    assert distances[0] == Abs(p - left) && distances[1] == Abs(p - above) && distances[2] == Abs(p - upperLeft);
    assert i == 0 || i == 1 || i == 2;
  }

  function Predict(filter: Byte, left: Byte, above: Byte, upperLeft: Byte): Byte {
    if filter == 1 then left
    else if filter == 2 then above
    else if filter == 3 then (left + above) / 2
    else if filter == 4 then Paeth(left, above, upperLeft)
    else 0
  }

  /** The byte one pixel back, or nothing before the row begins. */
  function Back(row: seq<Byte>, column: nat): Byte
    requires column <= |row|
  {
    if column >= BYTES_PER_PIXEL then row[column - BYTES_PER_PIXEL] else 0
  }

  function Prediction(filter: Byte, done: seq<Byte>, previous: seq<Byte>, column: nat): Byte
    requires column <= |done| && column < |previous|
  {
    Predict(filter, Back(done, column), previous[column], Back(previous, column))
  }

  /** The first `n` bytes of a row rebuilt from its filtered bytes. */
  function Rebuilt(filter: Byte, raw: seq<Byte>, previous: seq<Byte>, n: nat): (row: seq<Byte>)
    requires n <= |raw| == |previous|
    ensures |row| == n
  {
    if n == 0 then []
    else
      var done := Rebuilt(filter, raw, previous, n - 1);
      done + [(raw[n - 1] + Prediction(filter, done, previous, n - 1)) % 256]
  }

  // ------------------------------------------------------- the encoder's side

  /** The neighbours of a byte as section 6.1 names them, four bytes a pixel: to the
      left, above, and above to the left; zero outside the image. */
  function West(row: seq<Byte>, i: nat): Byte
    requires i < |row|
  {
    if i < 4 then 0 else row[i - 4]
  }

  function North(previous: seq<Byte>, i: nat): Byte
    requires i < |previous|
  {
    previous[i]
  }

  function NorthWest(previous: seq<Byte>, i: nat): Byte
    requires i < |previous|
  {
    if i < 4 then 0 else previous[i - 4]
  }

  /** The predictor of section 6.6, as the standard writes it. */
  function PaethPredictor(a: Byte, b: Byte, c: Byte): Byte {
    var p := a + b - c;
    var pa := if p > a then p - a else a - p;
    var pb := if p > b then p - b else b - p;
    var pc := if p > c then p - c else c - p;
    if pa <= pb && pa <= pc then a else if pb <= pc then b else c
  }

  /** What an encoder writes for a byte with these neighbours: section 6.2 is None,
      6.3 Sub, 6.4 Up, 6.5 Average and 6.6 Paeth. */
  function Encoded(filter: Byte, raw: Byte, a: Byte, b: Byte, c: Byte): Byte {
    match filter
    case 1 => (raw - a) % 256
    case 2 => (raw - b) % 256
    case 3 => (raw - (a + b) / 2) % 256
    case 4 => (raw - PaethPredictor(a, b, c)) % 256
    case _ => raw
  }

  function FilteredByte(filter: Byte, row: seq<Byte>, previous: seq<Byte>, i: nat): Byte
    requires i < |row| == |previous|
  {
    Encoded(filter, row[i], West(row, i), North(previous, i), NorthWest(previous, i))
  }

  /** What an encoder writes for `row` under one filter. */
  function Filtered(filter: Byte, row: seq<Byte>, previous: seq<Byte>): (raw: seq<Byte>)
    requires |row| == |previous|
    ensures |raw| == |row|
    ensures forall i: nat :: i < |row| ==> raw[i] == FilteredByte(filter, row, previous, i)
  {
    seq(|row|, i requires 0 <= i < |row| => FilteredByte(filter, row, previous, i))
  }

  /** What the decoder adds is what the encoder took away. */
  lemma PredictionIsTheStandards(filter: Byte, row: seq<Byte>, previous: seq<Byte>, i: nat)
    requires i < |row| == |previous|
    ensures (FilteredByte(filter, row, previous, i) + Prediction(filter, row[..i], previous, i)) % 256 == row[i]
  {
    var (a, b, c) := (West(row, i), North(previous, i), NorthWest(previous, i));
    assert Back(row[..i], i) == a && Back(previous, i) == c;
    EncoderTakesAway(filter, row[i], a, b, c);
    hide Encoded, Predict;
    AddBack(row[i], Predict(filter, a, b, c));
  }

  lemma EncoderTakesAway(filter: Byte, raw: Byte, a: Byte, b: Byte, c: Byte)
    ensures Encoded(filter, raw, a, b, c) == (raw - Predict(filter, a, b, c)) % 256
  {
    PaethIsTheStandards(a, b, c);
    hide Paeth, PaethPredictor;
    if filter == 3 {
      assert Predict(filter, a, b, c) == (a + b) / 2;
    } else if filter < 1 || filter > 4 {
      assert (raw - 0) % 256 == raw;
    }
  }

  lemma PaethIsTheStandards(a: Byte, b: Byte, c: Byte)
    ensures Paeth(a, b, c) == PaethPredictor(a, b, c)
  {
    PaethBreaksTiesInOrder(a, b, c);
    hide Paeth;
  }

  lemma AddBack(x: Byte, p: Byte)
    ensures ((x - p) % 256 + p) % 256 == x
  {
  }

  lemma TakeBack(x: Byte, p: Byte)
    ensures ((x + p) % 256 - p) % 256 == x
  {
  }

  /** Rebuilding undoes the standard's filters. */
  lemma {:induction false} RebuildUndoesFilter(filter: Byte, row: seq<Byte>, previous: seq<Byte>, n: nat)
    requires n <= |row| == |previous|
    ensures Rebuilt(filter, Filtered(filter, row, previous), previous, n) == row[..n]
  {
    if n > 0 {
      hide Prediction, FilteredByte;
      RebuildUndoesFilter(filter, row, previous, n - 1);
      PredictionIsTheStandards(filter, row, previous, n - 1);
    }
  }

  /** And the filters undo rebuilding, so a row has one filtered form. */
  lemma {:induction false} FilterUndoesRebuild(filter: Byte, raw: seq<Byte>, previous: seq<Byte>)
    requires |raw| == |previous|
    ensures Filtered(filter, Rebuilt(filter, raw, previous, |raw|), previous) == raw
  {
    hide Prediction, FilteredByte, Rebuilt;
    var row := Rebuilt(filter, raw, previous, |raw|);
    var again := Filtered(filter, row, previous);
    forall i: nat | i < |raw|
      ensures again[i] == raw[i]
    {
      PredictionIsTheStandards(filter, row, previous, i);
      RebuiltAt(filter, raw, previous, i, |raw|);
      SameSum(again[i], raw[i], Prediction(filter, row[..i], previous, i));
    }
  }

  lemma {:induction false} RebuiltAt(filter: Byte, raw: seq<Byte>, previous: seq<Byte>, i: nat, n: nat)
    requires i < n <= |raw| == |previous|
    ensures var row := Rebuilt(filter, raw, previous, n);
      row[i] == (raw[i] + Prediction(filter, row[..i], previous, i)) % 256
    decreases n
  {
    hide Prediction;
    var done := Rebuilt(filter, raw, previous, n - 1);
    var row := Rebuilt(filter, raw, previous, n);
    assert row[..n - 1] == done;
    if i < n - 1 {
      RebuiltAt(filter, raw, previous, i, n - 1);
      assert row[..i] == done[..i];
    }
  }

  lemma SameSum(x: Byte, y: Byte, p: Byte)
    requires (x + p) % 256 == (y + p) % 256
    ensures x == y
  {
    TakeBack(x, p);
    TakeBack(y, p);
  }

  method PredictAt(filter: Byte, current: array<Byte>, previous: seq<Byte>, column: nat) returns (prediction: Byte)
    requires column < current.Length == |previous|
    ensures prediction == Prediction(filter, current[..column], previous, column)
  {
    hide Paeth;
    var left := if column >= BYTES_PER_PIXEL then current[column - BYTES_PER_PIXEL] else 0;
    var above := previous[column];
    var upperLeft := if column >= BYTES_PER_PIXEL then previous[column - BYTES_PER_PIXEL] else 0;
    if filter == 1 {
      prediction := left;
    } else if filter == 2 {
      prediction := above;
    } else if filter == 3 {
      var both: int := left as int + above as int;
      prediction := both / 2;
    } else if filter == 4 {
      prediction := Paeth(left, above, upperLeft);
    } else {
      prediction := 0;
    }
  }

  /** One row, in place: each byte is finished from bytes already finished. */
  method RebuildRow(filter: Byte, current: array<Byte>, previous: seq<Byte>)
    requires current.Length == |previous|
    modifies current
    ensures current[..] == Rebuilt(filter, old(current[..]), previous, |previous|)
  {
    hide Prediction;
    ghost var raw := current[..];
    for column := 0 to current.Length
      invariant current[..column] == Rebuilt(filter, raw, previous, column)
      invariant current[column..] == raw[column..]
    {
      var prediction := PredictAt(filter, current, previous, column);
      ghost var done := current[..column];
      assert current[column] == raw[column] by {
        assert current[column..][0] == raw[column..][0];
      }
      ghost var later := current[column + 1..];
      assert later == raw[column + 1..] by {
        assert current[column..][1..] == raw[column..][1..];
      }
      var value: int := current[column] as int + prediction as int;
      current[column] := value % 256;
      assert current[..column] == done && current[..column + 1] == done + [current[column]];
      assert current[column + 1..] == later;
    }
    assert current[..] == current[..current.Length];
  }

  // ------------------------------------------------------------- whole images

  function Zeros(n: nat): (z: seq<Byte>)
    ensures |z| == n
  {
    seq(n, _ => 0)
  }

  ghost predicate RowsOf(rows: seq<seq<Byte>>, stride: nat) {
    forall i :: 0 <= i < |rows| ==> |rows[i]| == stride
  }

  ghost predicate KnownFilters(filters: seq<Byte>) {
    forall i :: 0 <= i < |filters| ==> filters[i] <= 4
  }

  /** The scan lines, each behind its filter byte. */
  ghost function FilteredRows(filters: seq<Byte>, rows: seq<seq<Byte>>, previous: seq<Byte>): (data: seq<Byte>)
    requires |filters| == |rows| && RowsOf(rows, |previous|)
    decreases |rows|
  {
    if |rows| == 0 then []
    else
      [filters[0]] + Filtered(filters[0], rows[0], previous) + FilteredRows(filters[1..], rows[1..], rows[0])
  }

  lemma {:induction false} FilteredLength(filters: seq<Byte>, rows: seq<seq<Byte>>, previous: seq<Byte>)
    requires |filters| == |rows| && RowsOf(rows, |previous|)
    ensures |FilteredRows(filters, rows, previous)| == (|previous| + 1) * |rows|
    decreases |rows|
  {
    if |rows| > 0 {
      FilteredLength(filters[1..], rows[1..], rows[0]);
      OneMoreRow(|previous| + 1, |rows| - 1);
    }
  }

  lemma OneMoreRow(size: nat, count: nat)
    ensures size * (count + 1) == size * count + size
  {
  }

  function Flat(rows: seq<seq<Byte>>): seq<Byte> {
    if |rows| == 0 then [] else rows[0] + Flat(rows[1..])
  }

  /** The scan lines of a stream, rebuilt one after another; a filter byte above 4
      stops it. */
  function RebuiltRows(data: seq<Byte>, stride: nat, previous: seq<Byte>): (pixels: Option<seq<Byte>>)
    requires |previous| == stride
    decreases |data|
  {
    if |data| < stride + 1 then Some([])
    else if data[0] > 4 then None
    else
      var row := Rebuilt(data[0], data[1..stride + 1], previous, stride);
      var later := RebuiltRows(data[stride + 1..], stride, row);
      if later.None? then None else Some(row + later.value)
  }

  lemma {:induction false} RebuiltSize(data: seq<Byte>, stride: nat, previous: seq<Byte>, height: nat)
    requires |previous| == stride && |data| == (stride + 1) * height
    ensures var pixels := RebuiltRows(data, stride, previous);
            pixels.Some? ==> |pixels.value| == stride * height
    decreases height
  {
    if height > 0 {
      OneMoreRow(stride + 1, height - 1);
      OneMoreRow(stride, height - 1);
      if data[0] <= 4 {
        RebuiltSize(data[stride + 1..], stride, Rebuilt(data[0], data[1..stride + 1], previous, stride), height - 1);
      }
    }
  }

  /** Whatever filter each row was written with, rebuilding gives the pixels back. */
  lemma {:induction false} RowsComeBack(filters: seq<Byte>, rows: seq<seq<Byte>>, previous: seq<Byte>)
    requires |filters| == |rows| && RowsOf(rows, |previous|)
    requires KnownFilters(filters)
    ensures RebuiltRows(FilteredRows(filters, rows, previous), |previous|, previous) == Some(Flat(rows))
    decreases |rows|
  {
    if |rows| > 0 {
      hide Rebuilt, Filtered, RebuiltRows;
      var stride, raw := |previous|, Filtered(filters[0], rows[0], previous);
      var later := FilteredRows(filters[1..], rows[1..], rows[0]);
      var data := [filters[0]] + raw + later;
      assert data[1..stride + 1] == raw && data[stride + 1..] == later;
      RebuildUndoesFilter(filters[0], rows[0], previous, stride);
      assert rows[0][..stride] == rows[0];
      RowsComeBack(filters[1..], rows[1..], rows[0]);
      RowStep(data, stride, previous);
    } else {
      RowEnd([], |previous|, previous);
    }
  }

  /** Scan lines of one size, each filtered by the standard's own rules: `filters`
      and `rows` are what an encoder wrote. */
  ghost predicate ScanLines(data: seq<Byte>, stride: nat, previous: seq<Byte>, filters: seq<Byte>, rows: seq<seq<Byte>>) {
    && |previous| == stride && |filters| == |rows| && RowsOf(rows, stride) && KnownFilters(filters)
    && data == FilteredRows(filters, rows, previous)
  }

  /** Whatever the row loop accepts is scan lines an encoder would have written. */
  lemma {:induction false} AcceptedRowsAreScanLines(data: seq<Byte>, stride: nat, previous: seq<Byte>, height: nat)
    returns (filters: seq<Byte>, rows: seq<seq<Byte>>)
    requires |previous| == stride && |data| == (stride + 1) * height && RebuiltRows(data, stride, previous).Some?
    ensures |rows| == height && ScanLines(data, stride, previous, filters, rows)
    ensures RebuiltRows(data, stride, previous) == Some(Flat(rows))
    decreases height
  {
    hide Rebuilt, Filtered, RebuiltRows;
    if height == 0 {
      filters, rows := [], [];
      RowEnd(data, stride, previous);
    } else {
      OneMoreRow(stride + 1, height - 1);
      RowStep(data, stride, previous);
      var raw := data[1..stride + 1];
      var row := Rebuilt(data[0], raw, previous, stride);
      FilterUndoesRebuild(data[0], raw, previous);
      var f, r := AcceptedRowsAreScanLines(data[stride + 1..], stride, row, height - 1);
      filters, rows := [data[0]] + f, [row] + r;
      assert filters[1..] == f && rows[1..] == r;
      assert data == [data[0]] + raw + data[stride + 1..];
    }
  }

  /** The row loop of the decoder. */
  method RebuildRows(data: seq<Byte>, stride: nat, height: nat) returns (pixels: Option<seq<Byte>>)
    requires |data| == (stride + 1) * height
    ensures pixels == RebuiltRows(data, stride, Zeros(stride))
  {
    hide Rebuilt, RebuiltRows;
    var previous: seq<Byte> := Zeros(stride);
    var done: seq<Byte> := [];
    var start := 0;
    ghost var left := height;
    assert data[0..] == data;
    Joins([], [], RebuiltRows(data, stride, previous));
    while start < |data|
      invariant start <= |data| && |previous| == stride && |data| - start == (stride + 1) * left
      invariant RebuiltRows(data, stride, Zeros(stride))
             == var later := RebuiltRows(data[start..], stride, previous);
                if later.None? then None else Some(done + later.value)
    {
      OneMoreRow(stride + 1, left - 1);
      RowStep(data[start..], stride, previous);
      var filter := data[start];
      if filter > 4 {
        return None;
      }
      var current := new Byte[stride](i requires 0 <= i < stride => data[start + 1 + i]);
      assert current[..] == data[start..][1..stride + 1];
      RebuildRow(filter, current, previous);
      var next := start + stride + 1;
      assert data[next..] == data[start..][stride + 1..];
      Joins(done, current[..], RebuiltRows(data[next..], stride, current[..]));
      done := done + current[..];
      previous := current[..];
      start, left := next, left - 1;
    }
    RowEnd(data[start..], stride, previous);
    assert done + [] == done;
    return Some(done);
  }

  lemma RowStep(data: seq<Byte>, stride: nat, previous: seq<Byte>)
    requires |previous| == stride && |data| >= stride + 1
    ensures data[0] > 4 ==> RebuiltRows(data, stride, previous) == None
    ensures data[0] <= 4 ==>
      var row := Rebuilt(data[0], data[1..stride + 1], previous, stride);
      var later := RebuiltRows(data[stride + 1..], stride, row);
      RebuiltRows(data, stride, previous) == if later.None? then None else Some(row + later.value)
  {
  }

  lemma {:induction false} RowEnd(data: seq<Byte>, stride: nat, previous: seq<Byte>)
    requires |previous| == stride && |data| < stride + 1
    ensures RebuiltRows(data, stride, previous) == Some([])
  {
  }

  lemma Joins(a: seq<Byte>, b: seq<Byte>, later: Option<seq<Byte>>)
    ensures later.Some? ==> a + (b + later.value) == (a + b) + later.value && [] + later.value == later.value
  {
  }
}
