/** The screenshot verifier's PNG decoder: the chunk loop, and the whole decode
    against a writer. CRC and inflate are parameters. */
module Png {
  import opened PngFilters
  import opened Wrappers

  const SIGNATURE: seq<Byte> := [137, 80, 78, 71, 13, 10, 26, 10]
  const IHDR: seq<Byte> := [73, 72, 68, 82]
  const IDAT: seq<Byte> := [73, 68, 65, 84]
  const IEND: seq<Byte> := [73, 69, 78, 68]
  const PLTE: seq<Byte> := [80, 76, 84, 69]
  const RGBA8: seq<Byte> := [8, 6, 0, 0, 0]
  const MAX_PNG_PIXELS := 16_777_216
  const WORD := 0x1_0000_0000

  type Word = n: nat | n < WORD

  datatype Error =
    | BadSignature | TruncatedChunk | TruncatedPayload | ChunkCrc | FirstIhdr | PixelBudget | NotRgba8
    | DuplicateIhdr | NoncontiguousIdat | BadIend | UnknownCritical | MissingIend | BadStream | BadFilter

  datatype Image = Image(width: nat, height: nat, pixels: seq<Byte>)

  /** What the loop has gathered so far. */
  datatype Reader = Reader(size: Option<(nat, nat)>, compressed: seq<Byte>, started: bool, closed: bool)

  datatype Verdict = More(reader: Reader) | Ended(reader: Reader) | Refused(error: Error)

  // ------------------------------------------------------------------- numbers

  /** Four bytes, most significant first (RFC 2083, section 2.1). */
  function Be32(n: nat): (b: seq<Byte>)
    requires n < WORD
    ensures |b| == 4 && n == ((b[0] as int * 256 + b[1] as int) * 256 + b[2] as int) * 256 + b[3] as int
  {
    Be32Splits(n);
    [n / 0x100_0000, n / 0x1_0000 % 256, n / 256 % 256, n % 256]
  }

  function ReadBe32(b: seq<Byte>): (n: nat)
    requires |b| == 4
    ensures n < WORD
  {
    b[0] as int * 0x100_0000 + b[1] as int * 0x1_0000 + b[2] as int * 256 + b[3] as int
  }

  lemma Be32Splits(n: nat)
    requires n < WORD
    ensures n == ((n / 0x100_0000 * 256 + n / 0x1_0000 % 256) * 256 + n / 256 % 256) * 256 + n % 256
  {
    var (a, b, c) := (n / 256, n / 0x1_0000, n / 0x100_0000);
    assert b == a / 256 && c == b / 256;
    assert n == a * 256 + n % 256 && a == b * 256 + a % 256 && b == c * 256 + b % 256;
  }

  lemma Be32ReadsBack(n: nat)
    requires n < WORD
    ensures ReadBe32(Be32(n)) == n
  {
    Be32Splits(n);
  }

  // -------------------------------------------------------------- the chunk loop

  predicate IsOptional(kind: seq<Byte>)
    requires |kind| == 4
  {
    kind[0] / 32 % 2 == 1 || kind == PLTE
  }

  /** What one intact chunk does; `last` when nothing follows it. */
  function Step(reader: Reader, kind: seq<Byte>, payload: seq<Byte>, last: bool): Verdict
    requires |kind| == 4
  {
    if reader.size.None? then Header(reader, kind, payload)
    else if kind == IHDR then Refused(DuplicateIhdr)
    else if kind == IDAT then
      if reader.closed then Refused(NoncontiguousIdat)
      else More(reader.(started := true, compressed := reader.compressed + payload))
    else if kind == IEND then
      if payload == [] && reader.started && last then Ended(reader) else Refused(BadIend)
    else if IsOptional(kind) then More(reader.(closed := reader.started))
    else Refused(UnknownCritical)
  }

  function Header(reader: Reader, kind: seq<Byte>, payload: seq<Byte>): Verdict {
    if kind != IHDR || |payload| != 13 then Refused(FirstIhdr)
    else
      var (width, height) := (ReadBe32(payload[..4]), ReadBe32(payload[4..8]));
      if !(0 < width * height <= MAX_PNG_PIXELS) then Refused(PixelBudget)
      else if payload[8..] != RGBA8 then Refused(NotRgba8)
      else More(reader.(size := Some((width, height))))
  }

  /** One chunk's bytes, or why they are not one. */
  function TakeChunk(crc: seq<Byte> -> Word, data: seq<Byte>): (r: Result<nat, Error>)
    ensures r.Ok? ==> 12 <= r.value <= |data|
  {
    if |data| < 12 then Err(TruncatedChunk)
    else
      var end := 12 + ReadBe32(data[..4]);
      if end > |data| then Err(TruncatedPayload)
      else if crc(data[4..8] + data[8..end - 4]) != ReadBe32(data[end - 4..end]) then Err(ChunkCrc)
      else Ok(end)
  }

  /** The loop, from here to the end of the file. */
  function Walked(crc: seq<Byte> -> Word, data: seq<Byte>, reader: Reader): Result<Reader, Error>
    decreases |data|
  {
    if data == [] then Err(MissingIend)
    else
      var chunk := TakeChunk(crc, data);
      if chunk.Err? then Err(chunk.error)
      else
        var end := chunk.value;
        match Step(reader, data[4..8], data[8..end - 4], end == |data|)
        case Refused(error) => Err(error)
        case Ended(final) => Ok(final)
        case More(next) => Walked(crc, data[end..], next)
  }

  const START := Reader(None, [], false, false)

  /** The data stream: inflated, and exactly the rows the size calls for. */
  function Stream(inflate: seq<Byte> -> Option<seq<Byte>>, reader: Reader): (r: Result<seq<Byte>, Error>)
    requires reader.size.Some?
    ensures r.Ok? ==> |r.value| == (reader.size.value.0 * 4 + 1) * reader.size.value.1
  {
    var (width, height) := reader.size.value;
    var rows := inflate(reader.compressed);
    if rows.Some? && |rows.value| == (width * 4 + 1) * height then Ok(rows.value) else Err(BadStream)
  }

  function Decoded(crc: seq<Byte> -> Word, inflate: seq<Byte> -> Option<seq<Byte>>, data: seq<Byte>): Result<Image, Error> {
    if |data| < 8 || data[..8] != SIGNATURE then Err(BadSignature)
    else
      var reader := Walked(crc, data[8..], START);
      if reader.Err? then Err(reader.error) else DecodedFrom(inflate, reader.value)
  }

  /** The image in what the loop gathered. */
  function DecodedFrom(inflate: seq<Byte> -> Option<seq<Byte>>, reader: Reader): Result<Image, Error> {
    if reader.size.None? then Err(MissingIend)
    else
      var rows := Stream(inflate, reader);
      if rows.Err? then Err(rows.error)
      else
        var (width, height) := reader.size.value;
        var pixels := RebuiltRows(rows.value, width * 4, Zeros(width * 4));
        if pixels.None? then Err(BadFilter) else Ok(Image(width, height, pixels.value))
  }

  /** Past the header every reader knows its size, within the budget. */
  ghost predicate Sized(reader: Reader) {
    reader.size.Some? && 0 < reader.size.value.0 * reader.size.value.1 <= MAX_PNG_PIXELS
  }

  lemma StepKeepsSize(reader: Reader, kind: seq<Byte>, payload: seq<Byte>, last: bool)
    requires |kind| == 4 && (reader.size.None? || Sized(reader))
    ensures var v := Step(reader, kind, payload, last);
      (v.More? ==> Sized(v.reader)) && (v.Ended? ==> Sized(v.reader) && v.reader.started && last)
  {
  }

  lemma {:induction false} WalkedIsSized(crc: seq<Byte> -> Word, data: seq<Byte>, reader: Reader)
    requires reader.size.None? || Sized(reader)
    ensures Walked(crc, data, reader).Ok? ==> Sized(Walked(crc, data, reader).value)
    decreases |data|
  {
    hide Step, Sized;
    var chunk := TakeChunk(crc, data);
    if data != [] && chunk.Ok? {
      var end := chunk.value;
      StepKeepsSize(reader, data[4..8], data[8..end - 4], end == |data|);
      var v := Step(reader, data[4..8], data[8..end - 4], end == |data|);
      if v.More? {
        WalkedIsSized(crc, data[end..], v.reader);
      }
    }
  }

  /** Whatever is accepted is a whole image of four bytes a pixel within the budget. */
  lemma AcceptedIsWhole(crc: seq<Byte> -> Word, inflate: seq<Byte> -> Option<seq<Byte>>, data: seq<Byte>)
    ensures var r := Decoded(crc, inflate, data);
      r.Ok? ==>
        && 0 < r.value.width * r.value.height <= MAX_PNG_PIXELS
        && |r.value.pixels| == r.value.width * 4 * r.value.height
  {
    hide Walked, RebuiltRows;
    if |data| >= 8 {
      var reader := Walked(crc, data[8..], START);
      WalkedIsSized(crc, data[8..], START);
      if reader.Ok? {
        var rows := Stream(inflate, reader.value);
        if rows.Ok? {
          var (width, height) := reader.value.size.value;
          RebuiltSize(rows.value, width * 4, Zeros(width * 4), height);
        }
      }
    }
  }

  // ------------------------------------------------------------------- the code

  method ReadChunks(crc: seq<Byte> -> Word, data: seq<Byte>) returns (r: Result<Reader, Error>)
    requires |data| >= 8
    ensures r == Walked(crc, data[8..], START)
  {
    hide Walked, Step;
    var offset, reader := 8, START;
    while offset < |data|
      invariant 8 <= offset <= |data|
      invariant Walked(crc, data[8..], START) == Walked(crc, data[offset..], reader)
    {
      ghost var rest := data[offset..];
      WalkOne(crc, rest, reader);
      if offset + 12 > |data| {
        return Err(TruncatedChunk);
      }
      var length := ReadBe32(data[offset..offset + 4]);
      assert rest[..4] == data[offset..offset + 4];
      var kind := data[offset + 4..offset + 8];
      var end := offset + 12 + length;
      if end > |data| {
        return Err(TruncatedPayload);
      }
      var payload := data[offset + 8..end - 4];
      Slices(data, offset, end);
      if crc(kind + payload) != ReadBe32(data[end - 4..end]) {
        return Err(ChunkCrc);
      }
      var verdict := Step(reader, kind, payload, end == |data|);
      if verdict.Refused? {
        return Err(verdict.error);
      }
      if verdict.Ended? {
        return Ok(verdict.reader);
      }
      reader := verdict.reader;
      offset := end;
    }
    assert data[offset..] == [];
    WalkEnd(crc, reader);
    return Err(MissingIend);
  }

  lemma Slices(data: seq<Byte>, offset: nat, end: nat)
    requires offset + 12 <= end <= |data|
    ensures var rest := data[offset..];
      && rest[4..8] == data[offset + 4..offset + 8]
      && rest[8..end - offset - 4] == data[offset + 8..end - 4]
      && rest[end - offset - 4..end - offset] == data[end - 4..end]
      && rest[end - offset..] == data[end..]
  {
  }

  lemma {:induction false} WalkEnd(crc: seq<Byte> -> Word, reader: Reader)
    ensures Walked(crc, [], reader) == Err(MissingIend)
  {
  }

  lemma WalkOne(crc: seq<Byte> -> Word, data: seq<Byte>, reader: Reader)
    requires data != []
    ensures |data| < 12 ==> Walked(crc, data, reader) == Err(TruncatedChunk)
    ensures |data| >= 12 ==>
      var end := 12 + ReadBe32(data[..4]);
      if end > |data| then Walked(crc, data, reader) == Err(TruncatedPayload)
      else if crc(data[4..8] + data[8..end - 4]) != ReadBe32(data[end - 4..end]) then
        Walked(crc, data, reader) == Err(ChunkCrc)
      else
        var v := Step(reader, data[4..8], data[8..end - 4], end == |data|);
        && (v.Refused? ==> Walked(crc, data, reader) == Err(v.error))
        && (v.Ended? ==> Walked(crc, data, reader) == Ok(v.reader))
        && (v.More? ==> Walked(crc, data, reader) == Walked(crc, data[end..], v.reader))
  {
    hide Step;
  }

  /** `decode_png` */
  method DecodePng(crc: seq<Byte> -> Word, inflate: seq<Byte> -> Option<seq<Byte>>, data: seq<Byte>) returns (r: Result<Image, Error>)
    ensures r == Decoded(crc, inflate, data)
  {
    hide Walked, RebuiltRows;
    if |data| < 8 || data[..8] != SIGNATURE {
      return Err(BadSignature);
    }
    var reader := ReadChunks(crc, data);
    if reader.Err? {
      return Err(reader.error);
    }
    WalkedIsSized(crc, data[8..], START);
    var (width, height) := reader.value.size.value;
    var rows := Stream(inflate, reader.value);
    if rows.Err? {
      return Err(rows.error);
    }
    var pixels := RebuildRows(rows.value, width * 4, height);
    if pixels.None? {
      return Err(BadFilter);
    }
    return Ok(Image(width, height, pixels.value));
  }

  // ------------------------------------------------------------------ the writer

  datatype Chunk = Chunk(kind: seq<Byte>, payload: seq<Byte>)

  ghost predicate Writable(chunks: seq<Chunk>) {
    forall i :: 0 <= i < |chunks| ==> Fits(chunks[i])
  }

  predicate Fits(chunk: Chunk) {
    |chunk.kind| == 4 && |chunk.payload| < WORD
  }

  function Written(crc: seq<Byte> -> Word, chunk: Chunk): (b: seq<Byte>)
    requires Fits(chunk)
    ensures |b| == 12 + |chunk.payload|
  {
    Be32(|chunk.payload|) + chunk.kind + chunk.payload + Be32(crc(chunk.kind + chunk.payload))
  }

  ghost function WrittenAll(crc: seq<Byte> -> Word, chunks: seq<Chunk>): (b: seq<Byte>)
    requires Writable(chunks)
    ensures b == [] <==> chunks == []
  {
    if chunks == [] then [] else Written(crc, chunks[0]) + WrittenAll(crc, chunks[1..])
  }

  /** What the loop makes of a list of intact chunks. */
  function Ran(chunks: seq<Chunk>, reader: Reader): Result<Reader, Error>
    requires forall i :: 0 <= i < |chunks| ==> |chunks[i].kind| == 4
  {
    if chunks == [] then Err(MissingIend)
    else
      match Step(reader, chunks[0].kind, chunks[0].payload, |chunks| == 1)
      case Refused(error) => Err(error)
      case Ended(final) => Ok(final)
      case More(next) => Ran(chunks[1..], next)
  }

  lemma WrittenReadsBack(crc: seq<Byte> -> Word, chunk: Chunk, rest: seq<Byte>)
    requires Fits(chunk)
    ensures var data := Written(crc, chunk) + rest;
            var end := 12 + |chunk.payload|;
      && ReadBe32(data[..4]) == |chunk.payload| && data[4..8] == chunk.kind && data[8..end - 4] == chunk.payload
      && ReadBe32(data[end - 4..end]) == crc(chunk.kind + chunk.payload) && data[end..] == rest
  {
    hide Be32, ReadBe32;
    var data := Written(crc, chunk) + rest;
    var end := 12 + |chunk.payload|;
    Be32ReadsBack(|chunk.payload|);
    Be32ReadsBack(crc(chunk.kind + chunk.payload));
    assert data[..4] == Be32(|chunk.payload|);
    assert data[end - 4..end] == Be32(crc(chunk.kind + chunk.payload));
  }

  /** The bytes of a list of chunks are read as that list. */
  lemma {:induction false} WalkedIsRan(crc: seq<Byte> -> Word, chunks: seq<Chunk>, reader: Reader)
    requires Writable(chunks)
    ensures Walked(crc, WrittenAll(crc, chunks), reader) == Ran(chunks, reader)
  {
    hide Walked, Written, Step;
    if chunks == [] {
      WalkEnd(crc, reader);
    } else {
      var chunk, later := chunks[0], WrittenAll(crc, chunks[1..]);
      WrittenReadsBack(crc, chunk, later);
      WalkOne(crc, Written(crc, chunk) + later, reader);
      var v := Step(reader, chunk.kind, chunk.payload, |chunks| == 1);
      if v.More? {
        WalkedIsRan(crc, chunks[1..], v.reader);
      }
    }
  }

  predicate Ancillary(chunks: seq<Chunk>) {
    forall i :: 0 <= i < |chunks| ==> IsAncillary(chunks[i])
  }

  /** A chunk a reader may leave out: a palette, or one whose name has bit 5 of its
      first byte set (RFC 2083, section 3.3). */
  predicate IsAncillary(chunk: Chunk) {
    Fits(chunk) && (chunk.kind == PLTE || chunk.kind[0] as int % 64 >= 32)
  }

  lemma AncillaryIsOptional(chunk: Chunk)
    requires Fits(chunk)
    ensures IsAncillary(chunk) <==> IsOptional(chunk.kind) && chunk.kind !in {IHDR, IDAT, IEND}
  {
    BitFive(chunk.kind[0]);
  }

  lemma BitFive(b: Byte)
    ensures b as int / 32 % 2 == 1 <==> b as int % 64 >= 32
  {
  }

  function DataChunks(pieces: seq<seq<Byte>>): (chunks: seq<Chunk>)
    ensures |chunks| == |pieces|
    ensures forall i :: 0 <= i < |pieces| ==> chunks[i] == Chunk(IDAT, pieces[i])
  {
    seq(|pieces|, i requires 0 <= i < |pieces| => Chunk(IDAT, pieces[i]))
  }

  lemma {:induction false} AncillaryRuns(before: seq<Chunk>, rest: seq<Chunk>, reader: Reader)
    requires Ancillary(before) && Writable(before + rest) && rest != [] && reader.size.Some?
    requires forall i :: 0 <= i < |rest| ==> |rest[i].kind| == 4
    ensures Ran(before + rest, reader)
         == Ran(rest, if before == [] then reader else reader.(closed := reader.started))
  {
    if before == [] {
      assert before + rest == rest;
    } else {
      assert IsAncillary(before[0]);
      AncillaryIsOptional(before[0]);
      hide IsOptional;
      assert (before + rest)[1..] == before[1..] + rest;
      assert forall i :: 0 <= i < |before[1..] + rest| ==> (before[1..] + rest)[i] == (before + rest)[i + 1];
      AncillaryRuns(before[1..], rest, reader.(closed := reader.started));
    }
  }

  lemma {:induction false} DataRuns(pieces: seq<seq<Byte>>, rest: seq<Chunk>, reader: Reader)
    requires rest != [] && reader.size.Some? && !reader.closed
    requires forall i :: 0 <= i < |rest| ==> |rest[i].kind| == 4
    ensures Ran(DataChunks(pieces) + rest, reader)
         == Ran(rest, reader.(compressed := reader.compressed + Flat(pieces), started := reader.started || pieces != []))
    decreases |pieces|
  {
    if pieces == [] {
      assert DataChunks(pieces) + rest == rest && reader.compressed + [] == reader.compressed;
    } else {
      assert (DataChunks(pieces) + rest)[1..] == DataChunks(pieces[1..]) + rest;
      DataRuns(pieces[1..], rest, reader.(started := true, compressed := reader.compressed + pieces[0]));
      assert (reader.compressed + pieces[0]) + Flat(pieces[1..]) == reader.compressed + Flat(pieces);
    }
  }

  function HeaderBytes(width: nat, height: nat): (b: seq<Byte>)
    requires width < WORD && height < WORD
    ensures |b| == 13
  {
    Be32(width) + Be32(height) + RGBA8
  }

  /** A screenshot's chunks: the header, optional chunks, the data cut anywhere,
      optional chunks, the end. */
  ghost function FileChunks(width: nat, height: nat, before: seq<Chunk>, pieces: seq<seq<Byte>>, after: seq<Chunk>): seq<Chunk>
    requires width < WORD && height < WORD
  {
    [Chunk(IHDR, HeaderBytes(width, height))] + (before + (DataChunks(pieces) + (after + [Chunk(IEND, [])])))
  }

  ghost predicate IsFile(width: nat, height: nat, before: seq<Chunk>, pieces: seq<seq<Byte>>, after: seq<Chunk>) {
    && width < WORD && height < WORD && 0 < width * height <= MAX_PNG_PIXELS
    && Ancillary(before) && Ancillary(after) && pieces != []
    && forall i :: 0 <= i < |pieces| ==> |pieces[i]| < WORD
  }

  lemma FileIsWritable(width: nat, height: nat, before: seq<Chunk>, pieces: seq<seq<Byte>>, after: seq<Chunk>)
    requires IsFile(width, height, before, pieces, after)
    ensures Writable(FileChunks(width, height, before, pieces, after))
    ensures Writable(before + (DataChunks(pieces) + (after + [Chunk(IEND, [])])))
  {
    hide HeaderBytes;
    var tail := after + [Chunk(IEND, [])];
    assert Writable(tail);
    assert Writable(DataChunks(pieces) + tail);
    assert Writable(before + (DataChunks(pieces) + tail));
  }

  lemma HeaderIsRead(width: nat, height: nat)
    requires width < WORD && height < WORD && 0 < width * height <= MAX_PNG_PIXELS
    ensures Step(START, IHDR, HeaderBytes(width, height), false) == More(START.(size := Some((width, height))))
  {
    hide Be32, ReadBe32;
    var payload := HeaderBytes(width, height);
    Be32ReadsBack(width);
    Be32ReadsBack(height);
    assert payload[..4] == Be32(width) && payload[4..8] == Be32(height) && payload[8..] == RGBA8;
  }

  lemma {:induction false} RunHeader(width: nat, height: nat, rest: seq<Chunk>)
    requires width < WORD && height < WORD && 0 < width * height <= MAX_PNG_PIXELS && rest != []
    requires forall i :: 0 <= i < |rest| ==> |rest[i].kind| == 4
    ensures Ran([Chunk(IHDR, HeaderBytes(width, height))] + rest, START) == Ran(rest, START.(size := Some((width, height))))
  {
    hide HeaderBytes, Step;
    HeaderIsRead(width, height);
    assert ([Chunk(IHDR, HeaderBytes(width, height))] + rest)[1..] == rest;
  }

  /** The loop gathers the whole data stream, however it was cut into chunks. */
  lemma {:induction false} FileRuns(width: nat, height: nat, before: seq<Chunk>, pieces: seq<seq<Byte>>, after: seq<Chunk>)
    requires IsFile(width, height, before, pieces, after)
    ensures Writable(FileChunks(width, height, before, pieces, after))
    ensures Ran(FileChunks(width, height, before, pieces, after), START)
         == Ok(Reader(Some((width, height)), Flat(pieces), true, after != []))
  {
    hide HeaderBytes, Ran, Step, Ancillary;
    FileIsWritable(width, height, before, pieces, after);
    var end := [Chunk(IEND, [])];
    var tail := after + end;
    var data := DataChunks(pieces) + tail;
    var reader := START.(size := Some((width, height)));
    assert Writable(tail) by { Suffix(before, data); Suffix(DataChunks(pieces), tail); }
    assert Writable(data) by { Suffix(before, data); }
    RunHeader(width, height, before + data);
    AncillaryRuns(before, data, reader);
    assert (if before == [] then reader else reader.(closed := reader.started)) == reader;
    DataRuns(pieces, tail, reader);
    var read := reader.(compressed := reader.compressed + Flat(pieces), started := true);
    assert [] + Flat(pieces) == Flat(pieces);
    AncillaryRuns(after, end, read);
    EndRuns(if after == [] then read else read.(closed := true));
  }

  lemma Suffix(a: seq<Chunk>, b: seq<Chunk>)
    requires Writable(a + b)
    ensures Writable(b)
  {
    assert forall i :: 0 <= i < |b| ==> b[i] == (a + b)[|a| + i];
  }

  lemma {:induction false} EndRuns(reader: Reader)
    requires reader.size.Some? && reader.started
    ensures Ran([Chunk(IEND, [])], reader) == Ok(reader)
  {
  }

  ghost function FileBytes(crc: seq<Byte> -> Word, width: nat, height: nat,
                           before: seq<Chunk>, pieces: seq<seq<Byte>>, after: seq<Chunk>): seq<Byte>
    requires IsFile(width, height, before, pieces, after)
  {
    FileIsWritable(width, height, before, pieces, after);
    SIGNATURE + WrittenAll(crc, FileChunks(width, height, before, pieces, after))
  }

  /** For every image, every choice of filters, every cut of a stream that inflates
      to its scan lines and any optional chunks around it, decoding gives the image back. */
  lemma {:induction false} DecodeUndoesEncode(crc: seq<Byte> -> Word, inflate: seq<Byte> -> Option<seq<Byte>>, width: nat, height: nat,
                           rows: seq<seq<Byte>>, filters: seq<Byte>,
                           before: seq<Chunk>, pieces: seq<seq<Byte>>, after: seq<Chunk>)
    requires IsFile(width, height, before, pieces, after)
    requires |rows| == |filters| == height && RowsOf(rows, width * 4) && KnownFilters(filters)
    requires inflate(Flat(pieces)) == Some(FilteredRows(filters, rows, Zeros(width * 4)))
    ensures Decoded(crc, inflate, FileBytes(crc, width, height, before, pieces, after))
         == Ok(Image(width, height, Flat(rows)))
  {
    hide Walked, Ran, RebuiltRows, FileChunks, WrittenAll, FilteredRows, IsFile;
    FileDecodes(crc, inflate, width, height, before, pieces, after);
    FilteredLength(filters, rows, Zeros(width * 4));
    RowsComeBack(filters, rows, Zeros(width * 4));
  }

  lemma {:induction false} FileDecodes(crc: seq<Byte> -> Word, inflate: seq<Byte> -> Option<seq<Byte>>, width: nat, height: nat,
                    before: seq<Chunk>, pieces: seq<seq<Byte>>, after: seq<Chunk>)
    requires IsFile(width, height, before, pieces, after)
    ensures Decoded(crc, inflate, FileBytes(crc, width, height, before, pieces, after))
         == DecodedFrom(inflate, Reader(Some((width, height)), Flat(pieces), true, after != []))
  {
    hide Walked, Ran, RebuiltRows, FileChunks, WrittenAll, Ancillary;
    FileRuns(width, height, before, pieces, after);
    var chunks := FileChunks(width, height, before, pieces, after);
    WalkedIsRan(crc, chunks, START);
    var data := SIGNATURE + WrittenAll(crc, chunks);
    assert data[..8] == SIGNATURE && data[8..] == WrittenAll(crc, chunks);
  }

  /** However one stream is cut into contiguous data chunks, the verdict is the same. */
  lemma {:induction false} CutsDoNotMatter(crc: seq<Byte> -> Word, inflate: seq<Byte> -> Option<seq<Byte>>, width: nat, height: nat,
                        before: seq<Chunk>, one: seq<seq<Byte>>, other: seq<seq<Byte>>, after: seq<Chunk>)
    requires IsFile(width, height, before, one, after) && IsFile(width, height, before, other, after)
    requires Flat(one) == Flat(other)
    ensures Decoded(crc, inflate, FileBytes(crc, width, height, before, one, after))
         == Decoded(crc, inflate, FileBytes(crc, width, height, before, other, after))
  {
    hide IsFile, Decoded, FileBytes;
    FileDecodes(crc, inflate, width, height, before, one, after);
    FileDecodes(crc, inflate, width, height, before, other, after);
  }

  /** A file that comes back to its data after something else. */
  ghost function GappedChunks(width: nat, height: nat, before: seq<Chunk>, pieces: seq<seq<Byte>>, gap: seq<Chunk>,
                              piece: seq<Byte>, rest: seq<Chunk>): (chunks: seq<Chunk>)
    requires IsFile(width, height, before, pieces, gap) && |piece| < WORD && Writable(rest)
    ensures Writable(chunks)
  {
    var again := [Chunk(IDAT, piece)] + rest;
    GapIsWritable(width, height, before, pieces, gap, again);
    [Chunk(IHDR, HeaderBytes(width, height))] + (before + (DataChunks(pieces) + (gap + again)))
  }

  lemma GapIsWritable(width: nat, height: nat, before: seq<Chunk>, pieces: seq<seq<Byte>>, gap: seq<Chunk>, again: seq<Chunk>)
    requires IsFile(width, height, before, pieces, gap) && Writable(again)
    ensures Writable(gap + again) && Writable(DataChunks(pieces) + (gap + again))
    ensures Writable(before + (DataChunks(pieces) + (gap + again)))
    ensures Writable([Chunk(IHDR, HeaderBytes(width, height))] + (before + (DataChunks(pieces) + (gap + again))))
  {
    hide HeaderBytes;
    var tail := gap + again;
    assert Writable(tail);
    var data := DataChunks(pieces) + tail;
    assert Writable(data);
    assert Writable(before + data);
  }

  /** A data chunk after the data has been left is refused, whatever follows it. */
  lemma {:induction false} GapIsRefused(crc: seq<Byte> -> Word, inflate: seq<Byte> -> Option<seq<Byte>>, width: nat, height: nat,
                     before: seq<Chunk>, pieces: seq<seq<Byte>>, gap: seq<Chunk>, piece: seq<Byte>, rest: seq<Chunk>)
    requires IsFile(width, height, before, pieces, gap) && gap != [] && |piece| < WORD && Writable(rest)
    ensures Decoded(crc, inflate, SIGNATURE + WrittenAll(crc, GappedChunks(width, height, before, pieces, gap, piece, rest)))
         == Err(NoncontiguousIdat)
  {
    hide Walked, Ran, HeaderBytes, RebuiltRows, Step, Ancillary;
    var again := [Chunk(IDAT, piece)] + rest;
    var tail := gap + again;
    var data := DataChunks(pieces) + tail;
    var head := [Chunk(IHDR, HeaderBytes(width, height))];
    var reader := START.(size := Some((width, height)));
    GapIsWritable(width, height, before, pieces, gap, again);
    RunHeader(width, height, before + data);
    AncillaryRuns(before, data, reader);
    assert (if before == [] then reader else reader.(closed := reader.started)) == reader;
    DataRuns(pieces, tail, reader);
    var read := reader.(compressed := reader.compressed + Flat(pieces), started := true);
    AncillaryRuns(gap, again, read);
    LateDataIsRefused(piece, rest, read.(closed := true));
    WalkedIsRan(crc, head + (before + data), START);
    var bytes := SIGNATURE + WrittenAll(crc, head + (before + data));
    assert bytes[..8] == SIGNATURE && bytes[8..] == WrittenAll(crc, head + (before + data));
  }

  lemma {:induction false} LateDataIsRefused(piece: seq<Byte>, rest: seq<Chunk>, reader: Reader)
    requires reader.size.Some? && reader.closed && forall i :: 0 <= i < |rest| ==> |rest[i].kind| == 4
    ensures Ran([Chunk(IDAT, piece)] + rest, reader) == Err(NoncontiguousIdat)
  {
  }

  // ------------------------------------------------------------- nothing but files

  lemma LowByte(high: nat, low: Byte)
    ensures (high * 256 + low) / 256 == high && (high * 256 + low) % 256 == low
  {
  }

  lemma InBytes(n: nat)
    ensures n / 0x1_0000 == n / 256 / 256 && n / 0x100_0000 == n / 256 / 256 / 256
  {
  }

  lemma Be32WritesBack(b: seq<Byte>)
    requires |b| == 4
    ensures Be32(ReadBe32(b)) == b
  {
    var n := ReadBe32(b);
    var x: nat, y: nat, z: nat := b[0], b[0] as int * 256 + b[1] as int, (b[0] as int * 256 + b[1] as int) * 256 + b[2] as int;
    LowByte(x, b[1]);
    LowByte(y, b[2]);
    LowByte(z, b[3]);
    assert n == z * 256 + b[3];
    InBytes(n);
  }

  lemma TakenIsWritten(crc: seq<Byte> -> Word, data: seq<Byte>)
    requires TakeChunk(crc, data).Ok?
    ensures var end := TakeChunk(crc, data).value;
      var chunk := Chunk(data[4..8], data[8..end - 4]);
      Fits(chunk) && Written(crc, chunk) == data[..end]
  {
    hide Be32, ReadBe32;
    var end := TakeChunk(crc, data).value;
    Be32WritesBack(data[..4]);
    Be32WritesBack(data[end - 4..end]);
    assert data[..end] == data[..4] + data[4..8] + data[8..end - 4] + data[end - 4..end];
  }

  /** Whatever the loop accepts is the bytes of a list of chunks it accepts. */
  lemma {:induction false} WalkedIsWritten(crc: seq<Byte> -> Word, data: seq<Byte>, reader: Reader) returns (chunks: seq<Chunk>)
    requires Walked(crc, data, reader).Ok?
    ensures Writable(chunks) && WrittenAll(crc, chunks) == data && Ran(chunks, reader) == Walked(crc, data, reader)
    decreases |data|
  {
    hide Step, Written, TakeChunk;
    TakenIsWritten(crc, data);
    var end := TakeChunk(crc, data).value;
    var chunk := Chunk(data[4..8], data[8..end - 4]);
    var v := Step(reader, chunk.kind, chunk.payload, end == |data|);
    StepEndsLast(reader, chunk.kind, chunk.payload, end == |data|);
    assert data == data[..end] + data[end..];
    if v.Ended? {
      chunks := [chunk];
      assert WrittenAll(crc, chunks[1..]) == [] && data[end..] == [];
    } else {
      var rest := WalkedIsWritten(crc, data[end..], v.reader);
      chunks := [chunk] + rest;
      assert chunks[1..] == rest;
    }
  }

  lemma StepEndsLast(reader: Reader, kind: seq<Byte>, payload: seq<Byte>, last: bool)
    requires |kind| == 4
    ensures Step(reader, kind, payload, last).Ended? ==> last
  {
  }

  /** A list of chunks the loop accepts after its header is optional chunks, data,
      optional chunks and the end. */
  lemma {:induction false} RanIsSplit(chunks: seq<Chunk>, reader: Reader)
    returns (before: seq<Chunk>, pieces: seq<seq<Byte>>, after: seq<Chunk>)
    requires Writable(chunks) && reader.size.Some? && Ran(chunks, reader).Ok? && (reader.closed ==> reader.started)
    ensures Ancillary(before) && Ancillary(after) && forall i :: 0 <= i < |pieces| ==> |pieces[i]| < WORD
    ensures chunks == before + (DataChunks(pieces) + (after + [Chunk(IEND, [])]))
    ensures reader.closed || (reader.started && before != []) ==> pieces == []
    ensures reader.started || pieces != []
    decreases |chunks|
  {
    hide Ran, IsOptional;
    RanOnce(chunks, reader);
    var chunk, rest := chunks[0], chunks[1..];
    assert chunks == [chunk] + rest && Fits(chunk);
    before, pieces, after := [], [], [];
    if chunk.kind == IEND {
      assert chunks == [Chunk(IEND, [])];
      assert before + (DataChunks(pieces) + (after + [Chunk(IEND, [])])) == [Chunk(IEND, [])];
    } else if chunk.kind == IDAT {
      var b, p, a := RanIsSplit(rest, reader.(started := true, compressed := reader.compressed + chunk.payload));
      pieces, after := [chunk.payload] + p, b + a;
      OneMorePiece(chunk, b, p, a);
    } else {
      AncillaryIsOptional(chunk);
      before, pieces, after := RanIsSplit(rest, reader.(closed := reader.started));
      before := [chunk] + before;
    }
  }

  lemma {:induction false} RanOnce(chunks: seq<Chunk>, reader: Reader)
    requires Writable(chunks) && reader.size.Some? && Ran(chunks, reader).Ok?
    ensures chunks != [] && chunks[0].kind != IHDR
    ensures var (chunk, rest) := (chunks[0], chunks[1..]);
      if chunk.kind == IEND then chunk.payload == [] && rest == [] && reader.started
      else if chunk.kind == IDAT then
        !reader.closed && Ran(rest, reader.(started := true, compressed := reader.compressed + chunk.payload)).Ok?
      else IsOptional(chunk.kind) && Ran(rest, reader.(closed := reader.started)).Ok?
  {
    hide IsOptional;
  }

  lemma OneMorePiece(chunk: Chunk, b: seq<Chunk>, p: seq<seq<Byte>>, a: seq<Chunk>)
    requires chunk.kind == IDAT && (b != [] ==> p == [])
    ensures [chunk] + (b + (DataChunks(p) + (a + [Chunk(IEND, [])])))
         == [] + (DataChunks([chunk.payload] + p) + ((b + a) + [Chunk(IEND, [])]))
  {
    assert DataChunks([chunk.payload] + p) == [chunk] + DataChunks(p);
    if b == [] {
      assert b + a == a;
    } else {
      assert DataChunks(p) == [];
    }
  }

  lemma HeaderIsWritten(payload: seq<Byte>)
    requires Header(START, IHDR, payload).More?
    ensures var (width, height) := (ReadBe32(payload[..4]), ReadBe32(payload[4..8]));
      && 0 < width * height <= MAX_PNG_PIXELS && payload == HeaderBytes(width, height)
      && Header(START, IHDR, payload).reader == START.(size := Some((width, height)))
  {
    hide Be32, ReadBe32;
    Be32WritesBack(payload[..4]);
    Be32WritesBack(payload[4..8]);
    assert payload == payload[..4] + payload[4..8] + payload[8..];
  }

  /** What a decoder may accept: the signature, a header of the image's size, optional
      chunks, data cut anywhere, optional chunks and the end, where the data inflates
      to what an encoder writes for the image's rows under filters of its choice. */
  ghost predicate IsFileOf(crc: seq<Byte> -> Word, inflate: seq<Byte> -> Option<seq<Byte>>, data: seq<Byte>, image: Image) {
    exists before: seq<Chunk>, pieces: seq<seq<Byte>>, after: seq<Chunk>, filters: seq<Byte>, rows: seq<seq<Byte>> ::
      FileHolds(crc, inflate, data, image, before, pieces, after, filters, rows)
  }

  ghost predicate FileHolds(crc: seq<Byte> -> Word, inflate: seq<Byte> -> Option<seq<Byte>>, data: seq<Byte>, image: Image,
                            before: seq<Chunk>, pieces: seq<seq<Byte>>, after: seq<Chunk>,
                            filters: seq<Byte>, rows: seq<seq<Byte>>) {
    && IsFile(image.width, image.height, before, pieces, after)
    && data == FileBytes(crc, image.width, image.height, before, pieces, after)
    && |rows| == image.height && image.pixels == Flat(rows)
    && inflate(Flat(pieces)).Some?
    && ScanLines(inflate(Flat(pieces)).value, image.width * 4, Zeros(image.width * 4), filters, rows)
  }

  /** The decoder accepts exactly the files: nothing else, and all of them. */
  lemma AcceptsExactlyTheFiles(crc: seq<Byte> -> Word, inflate: seq<Byte> -> Option<seq<Byte>>, data: seq<Byte>, image: Image)
    ensures Decoded(crc, inflate, data) == Ok(image) <==> IsFileOf(crc, inflate, data, image)
  {
    hide Decoded, IsFile, FileBytes, FilteredRows, Flat;
    if IsFileOf(crc, inflate, data, image) {
      var before, pieces, after, filters, rows :| FileHolds(crc, inflate, data, image, before, pieces, after, filters, rows);
      DecodeUndoesEncode(crc, inflate, image.width, image.height, rows, filters, before, pieces, after);
    }
    if Decoded(crc, inflate, data) == Ok(image) {
      AcceptedIsAFile(crc, inflate, data, image);
    }
  }

  lemma AcceptedIsAFile(crc: seq<Byte> -> Word, inflate: seq<Byte> -> Option<seq<Byte>>, data: seq<Byte>, image: Image)
    requires Decoded(crc, inflate, data) == Ok(image)
    ensures IsFileOf(crc, inflate, data, image)
  {
    hide Walked, Ran, RebuiltRows, Ancillary, FileBytes, WrittenAll, HeaderBytes, ScanLines, Flat, Stream, DecodedFrom;
    var chunks := WalkedIsWritten(crc, data[8..], START);
    var width, height, before, pieces, after := AcceptedChunks(chunks);
    FileRuns(width, height, before, pieces, after);
    assert data == SIGNATURE + data[8..];
    FileBytesAre(crc, width, height, before, pieces, after);
    var reader := Ran(chunks, START).value;
    DecodedKeepsSize(inflate, reader);
    var filters, rows := DecodedIsFiltered(inflate, reader, image);
    assert FileHolds(crc, inflate, data, image, before, pieces, after, filters, rows);
  }

  /** The image comes from scan lines its rows filter to. */
  lemma DecodedIsFiltered(inflate: seq<Byte> -> Option<seq<Byte>>, reader: Reader, image: Image)
    returns (filters: seq<Byte>, rows: seq<seq<Byte>>)
    requires reader.size.Some? && DecodedFrom(inflate, reader) == Ok(image)
    ensures |rows| == image.height && image.pixels == Flat(rows) && inflate(reader.compressed).Some?
    ensures ScanLines(inflate(reader.compressed).value, image.width * 4, Zeros(image.width * 4), filters, rows)
  {
    hide RebuiltRows, ScanLines, Flat;
    var (width, height) := reader.size.value;
    filters, rows := AcceptedRowsAreScanLines(Stream(inflate, reader).value, width * 4, Zeros(width * 4), height);
  }

  lemma FileBytesAre(crc: seq<Byte> -> Word, width: nat, height: nat, before: seq<Chunk>, pieces: seq<seq<Byte>>, after: seq<Chunk>)
    requires IsFile(width, height, before, pieces, after)
    ensures Writable(FileChunks(width, height, before, pieces, after))
    ensures FileBytes(crc, width, height, before, pieces, after)
         == SIGNATURE + WrittenAll(crc, FileChunks(width, height, before, pieces, after))
  {
    FileIsWritable(width, height, before, pieces, after);
  }

  lemma DecodedKeepsSize(inflate: seq<Byte> -> Option<seq<Byte>>, reader: Reader)
    ensures var r := DecodedFrom(inflate, reader);
      r.Ok? ==> reader.size == Some((r.value.width, r.value.height))
  {
    hide RebuiltRows;
  }

  lemma AcceptedChunks(chunks: seq<Chunk>)
    returns (width: nat, height: nat, before: seq<Chunk>, pieces: seq<seq<Byte>>, after: seq<Chunk>)
    requires Writable(chunks)
    ensures Ran(chunks, START).Ok? ==>
      IsFile(width, height, before, pieces, after) && chunks == FileChunks(width, height, before, pieces, after)
  {
    hide Be32, ReadBe32, HeaderBytes, Ancillary;
    width, height, before, pieces, after := 0, 0, [], [], [];
    if Ran(chunks, START).Ok? {
      var chunk, rest := chunks[0], chunks[1..];
      assert chunks == [chunk] + rest && Fits(chunk);
      HeaderIsWritten(chunk.payload);
      width, height := ReadBe32(chunk.payload[..4]), ReadBe32(chunk.payload[4..8]);
      before, pieces, after := RanIsSplit(rest, START.(size := Some((width, height))));
    }
  }
}
