/** The command back-channel: newline-framed lines out of arbitrary reads. */
module Commands {
  import opened Wrappers

  type Byte = int

  const NEWLINE := 10
  const MAX_COMMAND_LINE_BYTES := 65_536
  const MAX_COMMAND_READS := 16

  function FirstNewline(bytes: seq<Byte>): (i: nat)
    ensures i <= |bytes|
    ensures i < |bytes| ==> bytes[i] == NEWLINE
    ensures forall k :: 0 <= k < i ==> bytes[k] != NEWLINE
  {
    if |bytes| == 0 || bytes[0] == NEWLINE then 0 else 1 + FirstNewline(bytes[1..])
  }

  /** The complete lines of a stream, and what is left after the last one. */
  function Lines(bytes: seq<Byte>): seq<seq<Byte>> {
    var i := FirstNewline(bytes);
    if i == |bytes| then [] else [bytes[..i]] + Lines(bytes[i + 1..])
  }

  function Rest(bytes: seq<Byte>): seq<Byte> {
    var i := FirstNewline(bytes);
    if i == |bytes| then bytes else Rest(bytes[i + 1..])
  }

  /** Taking one line off the front takes the first of the lines. */
  lemma {:induction false} TakeOne(bytes: seq<Byte>, i: nat)
    requires i < |bytes| && bytes[i] == NEWLINE && forall k :: 0 <= k < i ==> bytes[k] != NEWLINE
    ensures Lines(bytes) == [bytes[..i]] + Lines(bytes[i + 1..])
    ensures Rest(bytes) == Rest(bytes[i + 1..])
  {
    FirstNewlineOf(bytes, i);
  }

  lemma {:induction false} FirstNewlineOf(bytes: seq<Byte>, i: nat)
    requires i < |bytes| && bytes[i] == NEWLINE && forall k :: 0 <= k < i ==> bytes[k] != NEWLINE
    ensures FirstNewline(bytes) == i
  {
  }

  lemma {:induction false} NoNewlineNoLines(bytes: seq<Byte>)
    requires NEWLINE !in bytes
    ensures Lines(bytes) == [] && Rest(bytes) == bytes
  {
  }

  lemma SeqAssociates<T>(a: seq<T>, b: seq<T>, c: seq<T>)
    ensures (a + b) + c == a + (b + c)
  {
  }

  /** Reading on from a leftover is reading the whole stream. */
  lemma {:induction false} FramingCarriesOn(a: seq<Byte>, b: seq<Byte>)
    ensures Lines(a + b) == Lines(a) + Lines(Rest(a) + b)
    ensures Rest(a + b) == Rest(Rest(a) + b)
    decreases |a|
  {
    hide Lines, Rest;
    if NEWLINE in a {
      FramingStep(a, b);
    } else {
      NoNewlineNoLines(a);
    }
  }

  lemma {:induction false} FramingStep(a: seq<Byte>, b: seq<Byte>)
    requires NEWLINE in a
    ensures Lines(a + b) == Lines(a) + Lines(Rest(a) + b)
    ensures Rest(a + b) == Rest(Rest(a) + b)
    decreases |a|, 0
  {
    hide Lines, Rest, FirstNewline;
    var i := FirstNewline(a);
    var later := a[i + 1..];
    TakeOne(a, i);
    TakeOne(a + b, i);
    assert (a + b)[i + 1..] == later + b && (a + b)[..i] == a[..i];
    FramingCarriesOn(later, b);
    SeqAssociates([a[..i]], Lines(later), Lines(Rest(later) + b));
  }

  /** No line, nor the unfinished one, is longer than the buffer allows. */
  ghost predicate Fits(bytes: seq<Byte>) {
    && |Rest(bytes)| <= MAX_COMMAND_LINE_BYTES
    && forall k :: 0 <= k < |Lines(bytes)| ==> |Lines(bytes)[k]| <= MAX_COMMAND_LINE_BYTES
  }

  lemma {:induction false} LeftoverIsShort(left: seq<Byte>, b: seq<Byte>)
    requires NEWLINE !in left && |Rest(left + b)| <= MAX_COMMAND_LINE_BYTES
    requires |Lines(left + b)| > 0 ==> |Lines(left + b)[0]| <= MAX_COMMAND_LINE_BYTES
    ensures |left| <= MAX_COMMAND_LINE_BYTES
  {
    var i := FirstNewline(left + b);
    assert forall k :: 0 <= k < |left| ==> (left + b)[k] == left[k];
    assert |left| <= i;
  }

  lemma {:induction false} LeftoverFits(a: seq<Byte>, b: seq<Byte>)
    requires Fits(a + b)
    ensures |Rest(a)| <= MAX_COMMAND_LINE_BYTES
    ensures Fits(Rest(a) + b)
  {
    hide Lines, Rest;
    FramingCarriesOn(a, b);
    RestIsUnbroken(a);
    var joined, skip := Lines(Rest(a) + b), |Lines(a)|;
    assert forall k :: 0 <= k < |joined| ==> joined[k] == Lines(a + b)[skip + k];
    LeftoverIsShort(Rest(a), b);
  }

  lemma {:induction false} RestIsUnbroken(a: seq<Byte>)
    ensures NEWLINE !in Rest(a)
    decreases |a|
  {
    if FirstNewline(a) < |a| {
      RestIsUnbroken(a[FirstNewline(a) + 1..]);
    }
  }

  /** The lines that decode, in order. `decode` strips, parses and refuses. */
  function Decoded<C>(decode: seq<Byte> -> Option<C>, lines: seq<seq<Byte>>): seq<C> {
    if |lines| == 0 then []
    else
      var c := decode(lines[|lines| - 1]);
      Decoded(decode, lines[..|lines| - 1]) + if c.Some? then [c.value] else []
  }

  lemma {:induction false} DecodedConcat<C>(decode: seq<Byte> -> Option<C>, a: seq<seq<Byte>>, b: seq<seq<Byte>>)
    ensures Decoded(decode, a + b) == Decoded(decode, a) + Decoded(decode, b)
  {
    if |b| == 0 {
      assert a + b == a;
    } else {
      assert (a + b)[..|a + b| - 1] == a + b[..|b| - 1];
      DecodedConcat(decode, a, b[..|b| - 1]);
    }
  }

  function Concat(chunks: seq<seq<Byte>>): seq<Byte> {
    if |chunks| == 0 then [] else chunks[0] + Concat(chunks[1..])
  }

  /** What a reader holds after one chunk. */
  function AfterChunk(inbox: seq<Byte>, chunk: seq<Byte>): seq<Byte> {
    var left := Rest(inbox + chunk);
    if |left| > MAX_COMMAND_LINE_BYTES then [] else left
  }

  function AfterAll(inbox: seq<Byte>, chunks: seq<seq<Byte>>): seq<Byte>
    decreases |chunks|
  {
    if |chunks| == 0 then inbox else AfterAll(AfterChunk(inbox, chunks[0]), chunks[1..])
  }

  function ReadAll<C>(decode: seq<Byte> -> Option<C>, inbox: seq<Byte>, chunks: seq<seq<Byte>>): seq<C>
    decreases |chunks|
  {
    if |chunks| == 0 then []
    else Decoded(decode, Lines(inbox + chunks[0])) + ReadAll(decode, AfterChunk(inbox, chunks[0]), chunks[1..])
  }

  /** However one stream is cut into reads, as long as its lines fit, the same
      commands come out and the same bytes are left over. */
  lemma {:induction false} ChunkingDoesNotMatter<C>(decode: seq<Byte> -> Option<C>, inbox: seq<Byte>, chunks: seq<seq<Byte>>)
    requires Fits(inbox + Concat(chunks)) && Lines(inbox) == []
    ensures ReadAll(decode, inbox, chunks) == Decoded(decode, Lines(inbox + Concat(chunks)))
    ensures AfterAll(inbox, chunks) == Rest(inbox + Concat(chunks))
    decreases |chunks|
  {
    if |chunks| == 0 {
      assert inbox + Concat(chunks) == inbox;
    } else {
      var a, b := inbox + chunks[0], Concat(chunks[1..]);
      assert inbox + Concat(chunks) == a + b;
      LeftoverFits(a, b);
      RestHasNoLines(a);
      ChunkingDoesNotMatter(decode, Rest(a), chunks[1..]);
      FramingCarriesOn(a, b);
      DecodedConcat(decode, Lines(a), Lines(Rest(a) + b));
    }
  }

  /** The lines, each with the newline that ended it. */
  function Joined(lines: seq<seq<Byte>>): seq<Byte> {
    if lines == [] then [] else lines[0] + [NEWLINE] + Joined(lines[1..])
  }

  ghost predicate AreLines(lines: seq<seq<Byte>>) {
    forall k :: 0 <= k < |lines| ==> NEWLINE !in lines[k]
  }

  lemma CutAtNewline(line: seq<Byte>, later: seq<Byte>)
    ensures var bytes := line + [NEWLINE] + later;
      && bytes[..|line|] == line && bytes[|line|] == NEWLINE && bytes[|line| + 1..] == later
      && forall k :: 0 <= k < |line| ==> bytes[k] == line[k]
  {
  }

  lemma JoinedNone()
    ensures Joined([]) == []
  {
  }

  lemma {:induction false} JoinedOneMore(line: seq<Byte>, lines: seq<seq<Byte>>)
    ensures Joined([line] + lines) == line + [NEWLINE] + Joined(lines)
  {
    assert ([line] + lines)[1..] == lines;
  }

  /** What framing gives writes the stream again. */
  lemma {:induction false} LinesWriteTheStream(bytes: seq<Byte>)
    ensures AreLines(Lines(bytes)) && NEWLINE !in Rest(bytes) && bytes == Joined(Lines(bytes)) + Rest(bytes)
  {
    hide Lines, Rest, Joined;
    var i := FirstNewline(bytes);
    if i == |bytes| {
      NoNewlineNoLines(bytes);
      assert Joined([]) + bytes == bytes by { JoinedNone(); }
    } else {
      var later := bytes[i + 1..];
      TakeOne(bytes, i);
      LinesWriteTheStream(later);
      JoinedOneMore(bytes[..i], Lines(later));
      SeqAssociates(bytes[..i] + [NEWLINE], Joined(Lines(later)), Rest(later));
      assert bytes == bytes[..i] + [NEWLINE] + later;
    }
  }

  /** Framing takes a stream apart where its newlines are and nowhere else: what it
      gives is the one list of unbroken lines, and the one unbroken rest, that write
      the stream again. */
  lemma {:induction false} LinesAreTheStream(bytes: seq<Byte>, lines: seq<seq<Byte>>, rest: seq<Byte>)
    ensures (lines == Lines(bytes) && rest == Rest(bytes)) <==>
            (AreLines(lines) && NEWLINE !in rest && bytes == Joined(lines) + rest)
    decreases |lines|
  {
    hide Lines, Rest, Joined;
    LinesWriteTheStream(bytes);
    if AreLines(lines) && NEWLINE !in rest && bytes == Joined(lines) + rest {
      if lines == [] {
        JoinedNone();
        assert bytes == rest;
        NoNewlineNoLines(bytes);
      } else {
        var i, later := |lines[0]|, Joined(lines[1..]) + rest;
        assert lines == [lines[0]] + lines[1..];
        JoinedOneMore(lines[0], lines[1..]);
        SeqAssociates(lines[0] + [NEWLINE], Joined(lines[1..]), rest);
        CutAtNewline(lines[0], later);
        assert bytes == lines[0] + [NEWLINE] + later;
        TakeOne(bytes, i);
        LinesAreTheStream(later, lines[1..], rest);
      }
    }
  }

  lemma {:induction false} RestHasNoLines(a: seq<Byte>)
    ensures Lines(Rest(a)) == []
  {
    RestIsUnbroken(a);
  }

  /** `inbox.split(b"\n", 1)` */
  method Split(inbox: seq<Byte>) returns (line: seq<Byte>, left: seq<Byte>)
    requires NEWLINE in inbox
    ensures Lines(inbox) == [line] + Lines(left) && Rest(inbox) == Rest(left) && |left| < |inbox|
    ensures inbox == line + [NEWLINE] + left && NEWLINE !in line
  {
    var i := FirstNewline(inbox);
    TakeOne(inbox, i);
    line, left := inbox[..i], inbox[i + 1..];
  }

  class CommandReader<C> {
    const decode: seq<Byte> -> Option<C>
    var inbox: seq<Byte>

    constructor (decode: seq<Byte> -> Option<C>)
      ensures this.decode == decode && inbox == []
    {
      this.decode, inbox := decode, [];
    }

    /** Every complete line now in the buffer, decoded. */
    method TakeLines() returns (requests: seq<C>)
      modifies `inbox
      ensures requests == Decoded(decode, Lines(old(inbox))) && inbox == Rest(old(inbox))
    {
      hide Rest, Lines;
      requests := [];
      ghost var taken: seq<seq<Byte>> := [];
      while NEWLINE in inbox
        invariant Lines(old(inbox)) == taken + Lines(inbox) && Rest(inbox) == Rest(old(inbox))
        invariant requests == Decoded(decode, taken)
        decreases |inbox|
      {
        var line;
        line, inbox := Split(inbox);
        assert (taken + [line])[..|taken|] == taken;
        SeqAssociates(taken, [line], Lines(inbox));
        taken := taken + [line];
        var decoded := decode(line);
        if decoded.Some? {
          requests := requests + [decoded.value];
        }
      }
      NoNewlineNoLines(inbox);
      assert taken + [] == taken;
    }

    /** `read_requests` over the reads the socket has ready; an empty read is the
        peer gone. */
    method ReadRequests(arrived: seq<seq<Byte>>) returns (requests: seq<C>, used: nat, closed: bool)
      modifies `inbox
      ensures used <= |arrived| && used <= MAX_COMMAND_READS
      ensures closed <==> used < |arrived| && used < MAX_COMMAND_READS && arrived[used] == []
      ensures !closed ==> used == |arrived| || used == MAX_COMMAND_READS
      ensures requests == ReadAll(decode, old(inbox), arrived[..used])
      ensures inbox == AfterAll(old(inbox), arrived[..used])
    {
      requests, used, closed := [], 0, false;
      while used < MAX_COMMAND_READS && used < |arrived|
        invariant used <= |arrived| && used <= MAX_COMMAND_READS && !closed
        invariant requests == ReadAll(decode, old(inbox), arrived[..used])
        invariant inbox == AfterAll(old(inbox), arrived[..used])
      {
        var chunk := arrived[used];
        if |chunk| == 0 {
          closed := true;
          return;
        }
        ReadOneMore(decode, old(inbox), arrived[..used], chunk);
        assert arrived[..used + 1] == arrived[..used] + [chunk];
        inbox := inbox + chunk;
        var more := TakeLines();
        requests := requests + more;
        if |inbox| > MAX_COMMAND_LINE_BYTES {
          inbox := [];
        }
        used := used + 1;
      }
    }
  }

  lemma {:induction false} ReadOneMore<C>(decode: seq<Byte> -> Option<C>, inbox: seq<Byte>, chunks: seq<seq<Byte>>, chunk: seq<Byte>)
    ensures AfterAll(inbox, chunks + [chunk]) == AfterChunk(AfterAll(inbox, chunks), chunk)
    ensures ReadAll(decode, inbox, chunks + [chunk])
         == ReadAll(decode, inbox, chunks) + Decoded(decode, Lines(AfterAll(inbox, chunks) + chunk))
    decreases |chunks|
  {
    hide Lines, Rest, Decoded;
    if |chunks| > 0 {
      assert (chunks + [chunk])[1..] == chunks[1..] + [chunk];
      ReadOneMore(decode, AfterChunk(inbox, chunks[0]), chunks[1..], chunk);
    }
  }
}
