/** One connection: what the session loop puts on the wire, and in what order. */
module SessionLoop {
  import opened Numbers
  import opened Terminal
  import opened Wrappers
  import opened Paging
  import opened LoadOlder
  import opened Slices

  datatype Line =
    | TickLine(tick: Tick)
    | Book
    | Heartbeat
    | SliceStart
    | SliceEnd(remaining: nat)
    | PageStart
    | PageEnd(exhausted: bool, scannedToMs: int)
    | Bye

  // ---- what a well-bracketed trace is ----

  datatype Mode = Live | InSlice | InPage | Closed | Bad

  /** A reader's place in the trace: opening slices still owed, the block under way,
      and what has arrived as slices, as pages and live. */
  datatype Place = Place(mode: Mode, slicesLeft: nat, block: seq<Tick>, slices: seq<seq<Tick>>, pages: seq<Reply>, live: seq<Tick>)

  /** Inside a block only ticks; a slice's end counts down by one; no page while
      slices are owed; nothing after the goodbye. */
  function Read(place: Place, line: Line): Place {
    var bad := place.(mode := Bad);
    match place.mode
    case Live => (
      match line
      case TickLine(tick) => place.(live := place.live + [tick])
      case Book => place
      case Heartbeat => place
      case SliceStart => if place.slicesLeft > 0 then place.(mode := InSlice) else bad
      case PageStart => if place.slicesLeft == 0 then place.(mode := InPage) else bad
      case Bye => place.(mode := Closed)
      case _ => bad
    )
    case InSlice => (
      match line
      case TickLine(tick) => place.(block := place.block + [tick])
      case SliceEnd(remaining) =>
        if remaining + 1 == place.slicesLeft
        then place.(mode := Live, slicesLeft := remaining, slices := place.slices + [place.block], block := [])
        else bad
      case _ => bad
    )
    case InPage => (
      match line
      case TickLine(tick) => place.(block := place.block + [tick])
      case PageEnd(exhausted, scannedToMs) =>
        place.(mode := Live, pages := place.pages + [Reply(place.block, exhausted, scannedToMs)], block := [])
      case _ => bad
    )
    case Closed => bad
    case Bad => bad
  }

  /** Where ticks alone lead: into the block under way, or onto the live tape. */
  function AfterTicks(place: Place, ticks: seq<Tick>): Place {
    if place.mode == Live then place.(live := place.live + ticks) else place.(block := place.block + ticks)
  }

  function ReadAll(place: Place, lines: seq<Line>): Place {
    if |lines| == 0 then place
    else Read(ReadAll(place, lines[..|lines| - 1]), lines[|lines| - 1])
  }

  lemma {:induction false} ReadMore(place: Place, lines: seq<Line>, line: Line)
    ensures ReadAll(place, lines + [line]) == Read(ReadAll(place, lines), line)
  {
    assert (lines + [line])[..|lines|] == lines;
  }

  lemma SliceIsNext(parked: seq<seq<Tick>>, sent: nat, slice: seq<Tick>)
    requires sent < |parked| && parked[sent..][0] == slice
    ensures parked[..sent] + [slice] == parked[..sent + 1] && parked[sent..][1..] == parked[sent + 1..]
  {
  }

  lemma OneMoreTick(place: Place, ticks: seq<Tick>, i: nat)
    requires i < |ticks| && place.mode in {Live, InSlice, InPage}
    ensures AfterTicks(place, ticks[..i + 1]) == Read(AfterTicks(place, ticks[..i]), TickLine(ticks[i]))
  {
    assert ticks[..i + 1] == ticks[..i] + [ticks[i]];
  }

  /** A trace that ends well was well at every point before. */
  lemma {:induction false} NeverBadBefore(place: Place, lines: seq<Line>, n: nat)
    requires n <= |lines| && ReadAll(place, lines).mode != Bad
    ensures ReadAll(place, lines[..n]).mode != Bad
    decreases |lines|
  {
    if n == |lines| {
      assert lines[..n] == lines;
    } else {
      var rest := lines[..|lines| - 1];
      NeverBadBefore(place, rest, n);
      assert rest[..n] == lines[..n];
    }
  }

  // ---- where an interrupt may land ----

  /** Blocks opened and not closed. */
  function Open(lines: seq<Line>): int {
    if |lines| == 0 then 0
    else
      var last := lines[|lines| - 1];
      Open(lines[..|lines| - 1])
      + if last.SliceStart? || last.PageStart? then 1 else if last.SliceEnd? || last.PageEnd? then -1 else 0
  }

  predicate Running(mode: Mode) {
    mode != Closed && mode != Bad
  }

  lemma {:induction false} OpenIsInside(place: Place, lines: seq<Line>)
    requires place.mode == Live && Running(ReadAll(place, lines).mode)
    ensures Open(lines) == if ReadAll(place, lines).mode == Live then 0 else 1
  {
    if |lines| > 0 {
      OpenIsInside(place, lines[..|lines| - 1]);
    }
  }

  lemma {:induction false} RunningBefore(place: Place, lines: seq<Line>, n: nat)
    requires n <= |lines| && Running(ReadAll(place, lines).mode)
    ensures Running(ReadAll(place, lines[..n]).mode)
    decreases |lines|
  {
    if n == |lines| {
      assert lines[..n] == lines;
    } else {
      var rest := lines[..|lines| - 1];
      RunningBefore(place, rest, n);
      assert rest[..n] == lines[..n];
    }
  }

  /** An interrupt says its goodbye wherever it lands, and so does a write that
      failed, whose queue is dropped: the trace is then well bracketed exactly
      when no block is open at that line. */
  lemma {:induction false} GoodbyeAnywhere(place: Place, lines: seq<Line>, n: nat)
    requires place.mode == Live && Running(ReadAll(place, lines).mode) && n <= |lines|
    ensures ReadAll(place, lines[..n] + [Bye]).mode == if Open(lines[..n]) == 0 then Closed else Bad
  {
    RunningBefore(place, lines, n);
    OpenIsInside(place, lines[..n]);
    ReadMore(place, lines[..n], Bye);
  }

  // ---- the session ----

  datatype Request = Request(count: int, before: int)

  /** One decoded inbound line. */
  datatype Command = LoadOlder(request: Request) | Unknown | Malformed

  /** What the environment does in one pass of the loop: the live prints, the
      terminal's record as it then stands, the oldest print it would name, and
      whether it answers the one call the pass's search turn may make. */
  datatype Pass = Pass(live: seq<Tick>, terminalLost: bool, bookChanged: bool, commands: seq<Command>,
    record: seq<Tick>, claim: Option<Tick>, answered: bool, heartbeatDue: bool)

  /** The terminal only ever appends to its record. */
  ghost predicate Appending(record: seq<Tick>, passes: seq<Pass>) {
    && (forall k :: 0 <= k < |passes| ==> record <= passes[k].record && Sorted(passes[k].record))
    && (forall j, k :: 0 <= j < k < |passes| ==> passes[j].record <= passes[k].record)
  }

  /** The two calls of the floor probe, the windows, and the page itself. */
  const SEARCH_TURNS := 2 + MAX_PAGES + 1

  /** The record reaches up to `ms`, so nothing it gains later is older. */
  ghost predicate Settled(record: seq<Tick>, ms: int) {
    record != [] && ms <= record[|record| - 1].ms
  }

  lemma SettledPrints(record: seq<Tick>, grown: seq<Tick>, lo: int, ms: int)
    requires Settled(record, ms) && Sorted(grown) && record <= grown
    ensures Settled(grown, ms) && Prints(record, lo, ms) == Prints(grown, lo, ms)
  {
    assert grown[|record| - 1] == record[|record| - 1];
    PrintsStable(record, grown, lo, ms);
  }

  /** The pages received are the pages served, in order. */
  ghost predicate Paged(pages: seq<Reply>, served: seq<Served>) {
    |pages| == |served| && forall k :: 0 <= k < |served| ==> pages[k] == served[k].reply
  }

  /** The first page asked for; unknown and malformed lines ask for nothing. */
  function FirstAsked(commands: seq<Command>): Option<Request> {
    if commands == [] then None
    else
      var earlier := FirstAsked(commands[..|commands| - 1]);
      if earlier.Some? then earlier
      else if commands[|commands| - 1].LoadOlder? then Some(commands[|commands| - 1].request) else None
  }

  lemma AskedSoFar(commands: seq<Command>, i: nat)
    requires i < |commands|
    ensures FirstAsked(commands[..i + 1])
         == var earlier := FirstAsked(commands[..i]);
            if earlier.Some? then earlier else if commands[i].LoadOlder? then Some(commands[i].request) else None
  {
    assert commands[..i + 1][..i] == commands[..i];
  }

  /** The live prints of the first passes. */
  function LiveOf(passes: seq<Pass>, n: nat): seq<Tick>
    requires n <= |passes|
  {
    if n == 0 then [] else LiveOf(passes, n - 1) + passes[n - 1].live
  }

  lemma KeptMore(served: seq<Served>, s: Served, parked: seq<seq<Tick>>)
    requires NoneEmpty(parked) && Kept(served, parked) && KeptOne(s, parked)
    ensures Kept(served + [s], parked)
  {
  }

  /** What a search came to: the prints it gathered, the instant it reached, the
      windows it asked, the last one below `askedMs`, and the pass that refused it. */
  datatype Search = Search(gathered: seq<Tick>, reachedMs: int, calls: nat, askedMs: int, refusedAt: Option<nat>)

  /** A request as it was answered: its search, the floor and the records the search
      began and ended with, the pass that admitted it and the pass that answered it. */
  datatype Served = Served(request: Request, whileParked: bool, reply: Reply, search: Search, floor: Option<int>,
    began: seq<Tick>, record: seq<Tick>, askedAt: nat, servedAt: nat)

  /** How many prints a request is for. */
  function Wanted(request: Request): nat {
    Max(1, Min(request.count, MAX_TICKS))
  }

  /** The search went on until it had enough, ran out of windows, was refused one, or
      reached the epoch or the floor; asked even one window and answered, it moved, and
      its last window was still called for. */
  ghost predicate Searched(search: Search, request: Request, floor: Option<int>) {
    && Stretch(search.gathered, search.reachedMs, request.before) && search.reachedMs <= request.before
    && search.calls <= MAX_PAGES && (search.calls == 0 ==> search.reachedMs == request.before)
    && (|search.gathered| >= Wanted(request) || search.calls == MAX_PAGES || search.refusedAt.Some?
        || search.reachedMs <= 0 || (floor.Some? && search.reachedMs <= floor.value))
    && (search.calls > 0 && !(search.calls == 1 && search.refusedAt.Some?) ==> search.reachedMs < request.before)
    && (search.calls > 0 ==>
        && search.reachedMs <= search.askedMs <= request.before
        && CalledFor(search.gathered, Wanted(request), search.askedMs, floor))
  }

  /** The page is what the search gathered, trimmed to what was wanted; it says how far
      back it holds everything, and claims the end of the tape exactly when the floor
      was reached and nothing was trimmed. */
  ghost predicate PageOf(reply: Reply, search: Search, request: Request, floor: Option<int>) {
    && TrimmedTo(search.gathered, Wanted(request), search.reachedMs, reply)
    && |reply.ticks| <= MAX_SLICE_TICKS
    && search.reachedMs <= reply.scannedToMs <= request.before
    && (search.reachedMs < request.before ==> reply.scannedToMs < request.before)
    && (reply.exhausted <==>
          floor.Some? && search.reachedMs <= floor.value && reply.ticks == search.gathered)
  }

  ghost predicate NoneEmpty(parked: seq<seq<Tick>>) {
    forall k :: 0 <= k < |parked| ==> |parked[k]| > 0
  }

  /** The stamp of the oldest print of the opening block. */
  ghost function FloorMs(parked: seq<seq<Tick>>): int
    requires |parked| > 0 && NoneEmpty(parked)
  {
    parked[|parked| - 1][0].ms
  }

  ghost predicate Kept(served: seq<Served>, parked: seq<seq<Tick>>)
    requires NoneEmpty(parked)
  {
    forall k :: 0 <= k < |served| ==> KeptOne(served[k], parked)
  }

  /** The page is what its search found, in order, from where it says it reached up to
      its request; exactly the record's own, if the record reached up to the request
      when the search began. A request admitted behind parked slices was lowered
      to the opening block's floor. It was answered within its turns, counted
      from its admission or from the last slice. */
  ghost predicate KeptOne(s: Served, parked: seq<seq<Tick>>)
    requires NoneEmpty(parked)
  {
    && Searched(s.search, s.request, s.floor) && PageOf(s.reply, s.search, s.request, s.floor)
    && Stretch(s.reply.ticks, s.reply.scannedToMs, s.request.before) && s.began <= s.record
    && (Settled(s.began, s.request.before) ==>
        && s.search.gathered == Prints(s.record, s.search.reachedMs, s.request.before)
        && Answers(s.record, s.floor, s.request.before, s.reply))
    && (s.search.refusedAt.Some? ==> s.askedAt <= s.search.refusedAt.value <= s.servedAt)
    && (s.whileParked ==> |parked| > 0 && s.request.before <= FloorMs(parked))
    && s.askedAt <= s.servedAt < Max(s.askedAt, |parked|) + SEARCH_TURNS
  }

  /** What was served came from this terminal, was measured by one floor, and was cut
      short only in a pass the terminal refused. */
  ghost predicate Anchored(served: seq<Served>, record: seq<Tick>, known: bool, floor: Option<int>, refusals: set<nat>) {
    forall k :: 0 <= k < |served| ==> AnchoredOne(served[k], record, known, floor, refusals)
  }

  ghost predicate AnchoredOne(s: Served, record: seq<Tick>, known: bool, floor: Option<int>, refusals: set<nat>) {
    && known && s.record <= record && s.floor == floor
    && (s.search.refusedAt.Some? ==> s.search.refusedAt.value in refusals)
  }

  /** What the other end holds: the slices sent so far, the pages served, the tape. */
  ghost predicate Received(place: Place, parked: seq<seq<Tick>>, owed: nat, ended: bool, served: seq<Served>, tape: seq<Tick>) {
    && owed <= |parked|
    && place.mode == (if ended then Closed else Live) && place.slicesLeft == owed && place.block == []
    && place.slices == parked[..|parked| - owed] && Paged(place.pages, served) && place.live == tape
  }

  lemma OneSliceReceived(place: Place, parked: seq<seq<Tick>>, owed: nat, served: seq<Served>, tape: seq<Tick>)
    requires Received(place, parked, owed, false, served, tape) && owed > 0
    ensures place.mode == Live && place.slicesLeft == owed && place.block == []
    ensures Received(place.(slicesLeft := owed - 1, slices := place.slices + [parked[|parked| - owed]]), parked, owed - 1, false, served, tape)
  {
    hide Paged;
    assert parked[..|parked| - owed] + [parked[|parked| - owed]] == parked[..|parked| - (owed - 1)];
  }

  class Session {
    var pendingOpening: seq<seq<Tick>>
    var pendingRequest: Option<Request>
    var walk: BackWalk?                 // the search under way, past its floor probe
    const probe: FloorProbe
    var wire: seq<Line>
    var ended: bool
    ghost const parked: seq<seq<Tick>>  // every slice this session had to send
    ghost var record: seq<Tick>         // the terminal as last seen
    ghost var began: seq<Tick>          // and as the walk began
    ghost var refusals: set<nat>        // the passes in which the terminal refused its call
    ghost var refusedAt: Option<nat>    // the pass that refused the walk its window
    ghost var unsendable: seq<Tick>     // what a search found too dense to send
    ghost var passes: nat
    ghost var askedAt: nat              // the pass that admitted the pending request
    ghost var admitted: nat
    ghost var whileParked: bool         // the pending request came while slices were parked
    ghost var served: seq<Served>
    ghost var tape: seq<Tick>           // every live print pumped

    /** After the opening block: its slices are parked, the tape is live. */
    constructor (parked: seq<seq<Tick>>, probe: FloorProbe, ghost record: seq<Tick>)
      requires NoneEmpty(parked) && Sorted(record) && probe.claimed.None?
      ensures Valid() && this.parked == parked && pendingOpening == parked && wire == [] && served == [] && tape == [] && !ended
      ensures this.probe == probe && this.record == record && passes == 0 && refusals == {} && walk == null && pendingRequest == None
    {
      pendingOpening, pendingRequest, walk, wire, ended := parked, None, null, [], false;
      this.probe, this.record, this.began, passes, askedAt := probe, record, record, 0, 0;
      refusals, refusedAt, unsendable := {}, None, [];
      this.parked, admitted, whileParked, served, tape := parked, 0, false, [], [];
      new;
      assert parked[..0] == [] && parked[0..] == parked;
    }

    ghost function Start(): Place {
      Place(Live, |parked|, [], [], [], [])
    }

    ghost predicate Valid()
      reads this, probe, walk
    {
      && NoneEmpty(parked) && Sorted(record)
      && |pendingOpening| <= Max(0, |parked| - passes) && pendingOpening == parked[|parked| - |pendingOpening|..]
      && Received(ReadAll(Start(), wire), parked, |pendingOpening|, ended, served, tape)
      && |served| <= admitted <= |served| + 1
      && (!ended ==> admitted == |served| + (if pendingRequest.Some? then 1 else 0))
      && Kept(served, parked) && Anchored(served, record, probe.earliestKnown, probe.earliestMs, refusals)
      && (pendingRequest.Some? ==> Asked() && InTime())
      && Searching()
    }

    /** The pending request was lowered if it came while slices were parked. */
    ghost predicate Asked()
      requires pendingRequest.Some? && NoneEmpty(parked)
      reads `pendingRequest, `whileParked, `askedAt, `passes
    {
      && askedAt <= passes
      && (whileParked ==> |parked| > 0 && pendingRequest.value.before <= FloorMs(parked))
    }

    /** The walk belongs to the pending request, under the floor probed, and has
        gathered exactly the record's stretch if the record reached that far. */
    ghost predicate Searching()
      reads `pendingRequest, `walk, `began, `record, `refusals, `refusedAt, `askedAt, `passes, probe, walk
    {
      && (probe.claimed.Some? ==> !probe.earliestKnown)
      && (walk != null ==>
        && pendingRequest.Some? && walk.before == pendingRequest.value.before && walk.Holds()
        && walk.wanted == Wanted(pendingRequest.value)
        && (walk.failed <==> refusedAt.Some?)
        && (refusedAt.Some? ==> refusedAt.value in refusals && askedAt <= refusedAt.value <= passes)
        && probe.earliestKnown && walk.floor == probe.earliestMs
        && began <= record && (Settled(began, walk.before) ==> walk.Valid(record)))
    }

    /** The turns the search has left: at most this many, the page's included. */
    ghost function Turns(): (turns: nat)
      requires Searching()
      reads `pendingRequest, `walk, `began, `record, `refusals, `refusedAt, `askedAt, `passes, probe, walk
      ensures 1 <= turns <= SEARCH_TURNS
    {
      if walk != null then (if walk.Looking() then MAX_PAGES - walk.calls else 0) + 1
      else MAX_PAGES + 1 + if probe.earliestKnown then 0 else if probe.claimed.Some? then 1 else 2
    }

    ghost predicate InTime()
      reads this, probe, walk
    {
      Searching() && passes + |pendingOpening| + Turns() <= Max(askedAt, |parked|) + SEARCH_TURNS
    }

    /** The windows the search has asked. */
    ghost function Windows(): nat
      reads `walk, walk
    {
      if walk == null then 0 else walk.calls
    }

    /** The next turn of the search is its page. */
    predicate PageIsNext()
      reads this, probe, walk
    {
      && pendingRequest.Some?
      && if walk != null then !walk.Looking()
         else
           && probe.earliestKnown
           && (pendingRequest.value.before <= 0
               || (probe.earliestMs.Some? && pendingRequest.value.before <= probe.earliestMs.value))
    }

    method Send(line: Line)
      modifies `wire
      ensures wire == old(wire) + [line]
      ensures ReadAll(Start(), wire) == Read(ReadAll(Start(), old(wire)), line)
    {
      ReadMore(Start(), wire, line);
      wire := wire + [line];
    }

    method SendTicks(ticks: seq<Tick>)
      requires ReadAll(Start(), wire).mode in {Live, InSlice, InPage}
      modifies `wire
      ensures old(wire) <= wire
      ensures ReadAll(Start(), wire) == AfterTicks(ReadAll(Start(), old(wire)), ticks)
    {
      hide ReadAll;
      assert ticks[..0] == [];
      for i := 0 to |ticks|
        invariant old(wire) <= wire
        invariant ReadAll(Start(), wire) == AfterTicks(ReadAll(Start(), old(wire)), ticks[..i])
      {
        OneMoreTick(ReadAll(Start(), old(wire)), ticks, i);
        Send(TickLine(ticks[i]));
      }
      assert ticks[..|ticks|] == ticks;
    }

    /** The terminal as this pass finds it: prints gained, its one call answered or not. */
    ghost method Watch(grown: seq<Tick>, answered: bool)
      requires Valid() && record <= grown && Sorted(grown)
      modifies `record, `refusals
      ensures Valid() && record == grown
      ensures refusals == old(refusals) + if answered then {} else {passes}
    {
      hide ReadAll, Kept, NoneEmpty, Paged, Sorted, Received, Prints;
      var after := refusals + if answered then {} else {passes};
      AnchoredOn(served, record, grown, probe.earliestKnown, probe.earliestMs, refusals, after);
      if walk != null && Settled(began, walk.before) {
        SettledPrints(began, record, walk.cursorMs, walk.before);
        SettledPrints(record, grown, walk.cursorMs, walk.before);
      }
      record, refusals := grown, after;
    }

    /** Live prints, outside every block. */
    method PumpTicks(live: seq<Tick>)
      requires Valid() && !ended
      modifies `wire, `tape
      ensures Valid() && old(wire) <= wire && tape == old(tape) + live
    {
      hide ReadAll, Kept, NoneEmpty, Paged, Searching, Anchored;
      SendTicks(live);
      tape := tape + live;
    }

    /** A book image or a heartbeat, outside every block. */
    method PumpQuiet(line: Line)
      requires Valid() && !ended && (line == Book || line == Heartbeat)
      modifies `wire
      ensures Valid() && old(wire) <= wire
    {
      hide ReadAll, Kept, NoneEmpty, Paged, Searching, Anchored;
      Send(line);
    }

    /** The search is dropped and the goodbye sent. */
    method Close()
      requires Valid() && !ended
      modifies `wire, `ended, `pendingRequest, `walk
      ensures Valid() && ended && served == old(served) && old(wire) <= wire
      ensures walk == null && pendingRequest.None?
    {
      hide ReadAll, Kept, NoneEmpty, Paged, Anchored;
      pendingRequest, walk := None, null;
      Send(Bye);
      ended := true;
    }

    /** A request as this session admits it. */
    ghost function Lowered(request: Request): Request
      requires NoneEmpty(parked)
      reads `pendingOpening
    {
      if pendingOpening == [] || parked == [] then request
      else request.(before := Min(request.before, FloorMs(parked)))
    }

    /** Admit one request, if none is outstanding; behind parked slices it is
        lowered to the opening block's own floor. */
    method QueueLoadOlder(request: Request) returns (accepted: bool)
      requires Valid() && !ended
      modifies `pendingRequest, `admitted, `whileParked, `askedAt
      ensures Valid() && accepted == old(pendingRequest).None?
      ensures !accepted ==> pendingRequest == old(pendingRequest) && admitted == old(admitted) && askedAt == old(askedAt)
      ensures accepted ==> admitted == old(admitted) + 1 && whileParked == (pendingOpening != []) && askedAt == passes
      ensures accepted ==> pendingRequest == Some(Lowered(request))
    {
      if pendingRequest.Some? {
        return false;
      }
      hide Valid, FloorMs, NoneEmpty, Lowered;
      ValidHasNoEmptySlice();
      var lowered := Lower(request);
      Admit(lowered);
      return true;
    }

    /** Behind parked slices, the opening block's floor. */
    method Lower(request: Request) returns (lowered: Request)
      requires Valid()
      ensures NoneEmpty(parked) && lowered == Lowered(request)
      ensures pendingOpening != [] ==> |parked| > 0 && lowered.before <= FloorMs(parked)
    {
      hide Valid;
      ValidHasNoEmptySlice();
      var before := request.before;
      if |pendingOpening| > 0 {
        LastIsParked();
        var oldest := pendingOpening[|pendingOpening| - 1];
        before := Min(before, oldest[0].ms);
      }
      lowered := Request(request.count, before);
    }

    lemma LastIsParked()
      requires Valid() && |pendingOpening| > 0
      ensures |parked| > 0 && pendingOpening[|pendingOpening| - 1] == parked[|parked| - 1]
      ensures pendingOpening[|pendingOpening| - 1] != []
    {
    }

    /** The request is now the one outstanding. */
    method Admit(request: Request)
      requires Valid() && !ended && pendingRequest.None?
      requires pendingOpening != [] ==> |parked| > 0 && NoneEmpty(parked) && request.before <= FloorMs(parked)
      modifies `pendingRequest, `admitted, `whileParked, `askedAt
      ensures Valid() && pendingRequest == Some(request)
      ensures admitted == old(admitted) + 1 && whileParked == (pendingOpening != []) && askedAt == passes
    {
      hide ReadAll, Kept, Paged, Received, Anchored, NoneEmpty, FloorMs, Sorted, Start;
      pendingRequest := Some(request);
      admitted, whileParked, askedAt := admitted + 1, |pendingOpening| > 0, passes;
    }

    lemma ValidHasNoEmptySlice()
      requires Valid()
      ensures NoneEmpty(parked)
    {
    }

    method PumpCommands(commands: seq<Command>)
      requires Valid() && !ended
      modifies `pendingRequest, `admitted, `whileParked, `askedAt
      ensures Valid()
      ensures old(pendingRequest).Some? ==>
        pendingRequest == old(pendingRequest) && admitted == old(admitted) && askedAt == old(askedAt)
      ensures old(pendingRequest).None? ==>
        var asked := FirstAsked(commands);
        && pendingRequest == (if asked.Some? then Some(Lowered(asked.value)) else None)
        && admitted == old(admitted) + (if asked.Some? then 1 else 0)
        && (asked.Some? ==> askedAt == passes)
    {
      hide Valid;
      ValidHasNoEmptySlice();
      for i := 0 to |commands|
        invariant Valid()
        invariant old(pendingRequest).Some? ==>
          pendingRequest == old(pendingRequest) && admitted == old(admitted) && askedAt == old(askedAt)
        invariant NoneEmpty(parked)
        invariant old(pendingRequest).None? ==>
          var asked := FirstAsked(commands[..i]);
          && pendingRequest == (if asked.Some? then Some(Lowered(asked.value)) else None)
          && admitted == old(admitted) + (if asked.Some? then 1 else 0)
          && (asked.Some? ==> askedAt == passes)
      {
        AskedSoFar(commands, i);
        if commands[i].LoadOlder? {
          var _ := QueueLoadOlder(commands[i].request);
        }
      }
      assert commands[..|commands|] == commands;
    }

    /** One parked slice, newest first, in its own block. */
    method PumpOpening()
      requires Valid() && !ended
      modifies `pendingOpening, `wire
      ensures Valid() && old(wire) <= wire
      ensures if old(pendingOpening) == [] then pendingOpening == [] && wire == old(wire)
              else pendingOpening == old(pendingOpening)[1..]
    {
      if |pendingOpening| == 0 {
        return;
      }
      hide ReadAll, Kept, NoneEmpty, FloorMs, Start, Searching, Anchored, Asked, Sorted, Turns, Received;
      var slice, later := pendingOpening[0], pendingOpening[1..];
      SliceIsNext(parked, |parked| - |pendingOpening|, slice);
      OneSliceReceived(ReadAll(Start(), wire), parked, |pendingOpening|, served, tape);
      pendingOpening := later;
      SendSlice(slice, |later|);
    }

    /** One opening block, whole. */
    method SendSlice(slice: seq<Tick>, remaining: nat)
      requires var place := ReadAll(Start(), wire); place.mode == Live && place.slicesLeft == remaining + 1 && place.block == []
      modifies `wire
      ensures old(wire) <= wire
      ensures var place := ReadAll(Start(), old(wire));
        ReadAll(Start(), wire) == place.(slicesLeft := remaining, slices := place.slices + [slice])
    {
      hide ReadAll;
      Send(SliceStart);
      SendTicks(slice);
      Send(SliceEnd(remaining));
      assert [] + slice == slice;
    }

    /** One page, whole. */
    method SendReply(reply: Reply)
      requires var place := ReadAll(Start(), wire); place.mode == Live && place.slicesLeft == 0 && place.block == []
      modifies `wire
      ensures old(wire) <= wire
      ensures var place := ReadAll(Start(), old(wire));
        ReadAll(Start(), wire) == place.(pages := place.pages + [reply])
    {
      hide ReadAll;
      Send(PageStart);
      SendTicks(reply.ticks);
      Send(PageEnd(reply.exhausted, reply.scannedToMs));
      assert [] + reply.ticks == reply.ticks;
    }

    /** What the walk came to. */
    ghost function Came(): Search
      requires walk != null
      reads `walk, `refusedAt, walk
    {
      Search(Joined(walk.pages), walk.cursorMs, walk.calls, walk.askedMs, refusedAt)
    }

    /** The pending request as it would be answered now. */
    ghost function Answered(reply: Reply): Served
      requires pendingRequest.Some? && walk != null
      reads this, walk
    {
      Served(pendingRequest.value, whileParked, reply, Came(), walk.floor, began, record, askedAt, passes)
    }

    /** A whole page, nothing in between, and the request is done. */
    method SendPage(reply: Reply)
      requires Valid() && !ended && pendingOpening == [] && pendingRequest.Some? && walk != null
      requires Searched(Came(), pendingRequest.value, walk.floor) && PageOf(reply, Came(), pendingRequest.value, walk.floor)
      requires Stretch(reply.ticks, reply.scannedToMs, walk.before)
      requires walk.Valid(record) ==> Answers(record, walk.floor, walk.before, reply)
      modifies `pendingRequest, `wire, `served, `walk
      ensures Valid() && old(wire) <= wire && pendingRequest.None? && walk == null
      ensures served == old(served) + [old(Answered(reply))]
    {
      hide Kept, ReadAll, NoneEmpty, Stretch, Settled, Answers, Sorted, Anchored, FloorMs, Paged, Prints, Joined,
           Searched, PageOf;
      KeptMore(served, Answered(reply), parked);
      AnchoredMore(served, Answered(reply), record, probe.earliestKnown, probe.earliestMs, refusals);
      PagedMore(ReadAll(Start(), wire).pages, served, Answered(reply));
      SendReply(reply);
      served := served + [Answered(reply)];
      pendingRequest, walk := None, null;
    }

    /** The floor is known: the walk starts from the request. */
    method BeginWalk()
      requires Valid() && !ended && pendingRequest.Some? && walk == null && probe.earliestKnown
      modifies `walk, `began, `refusedAt
      ensures Valid() && fresh(walk) && walk.calls == walk.held == 0 && Turns() <= old(Turns())
      ensures walk.Looking() <==> !old(PageIsNext())
    {
      hide ReadAll, Kept, NoneEmpty, Paged, Anchored, Received;
      var request := pendingRequest.value;
      NothingGathered(record, request.before);
      walk := new BackWalk(request.count, request.before, probe.earliestMs);
      began, refusedAt := record, None;
    }

    /** One window of the walk, over the terminal as it now stands. */
    method Step(terminal: seq<Tick>, answered: bool)
      requires Valid() && !ended && terminal == record && walk != null && walk.Looking()
      requires !answered ==> passes in refusals
      modifies walk, `refusedAt
      ensures Valid() && Turns() < old(Turns()) && walk.calls == old(walk.calls) + 1 && walk.failed == !answered
    {
      hide ReadAll, Kept, NoneEmpty, Paged, Anchored, Received, Sorted;
      ValidMeansSorted();
      walk.Turn(terminal, answered);
      if !answered {
        refusedAt := Some(passes);
      }
    }

    lemma ValidMeansSorted()
      requires Valid()
      ensures Sorted(record)
    {
    }

    /** One of the floor probe's two calls. */
    method Probe(terminal: seq<Tick>, claim: Option<Tick>, answered: bool)
      requires Valid() && !ended && terminal == record && pendingRequest.Some? && walk == null && !probe.earliestKnown
      modifies probe
      ensures Valid() && Turns() < old(Turns())
      ensures old(probe.claimed).None? ==> probe.earliestKnown == claim.None? && (claim.None? ==> probe.earliestMs == None)
      ensures old(probe.claimed).Some? ==>
        && probe.earliestKnown
        && probe.earliestMs == if Believed(terminal, old(probe.claimed).value, None, answered) then old(probe.claimed) else None
    {
      hide ReadAll, Kept, NoneEmpty, Paged, Received, Sorted, Believed;
      if probe.claimed.None? {
        probe.Claim(claim);
      } else {
        probe.Look(terminal, None, answered);
      }
    }

    /** One turn: a call of the floor probe, one window, or the whole page; never
        while slices are parked. */
    method PumpHistory(terminal: seq<Tick>, claim: Option<Tick>, answered: bool)
      requires Valid() && !ended && terminal == record && (!answered ==> passes in refusals)
      modifies this, probe, walk
      ensures Valid() && old(wire) <= wire && old(served) <= served
      ensures unchanged(`pendingOpening, `record, `refusals, `passes, `askedAt, `admitted, `whileParked, `tape)
      ensures walk == null || walk == old(walk) || fresh(walk)
      ensures var idle := old(pendingOpening) != [] || old(pendingRequest).None?;
        && (idle ==> wire == old(wire) && pendingRequest == old(pendingRequest) && served == old(served) && !ended
                     && Turns() == old(Turns()))
        && (!idle && !old(PageIsNext()) ==>
            && wire == old(wire) && pendingRequest == old(pendingRequest) && served == old(served) && !ended
            && Turns() < old(Turns())
            && if !old(probe.earliestKnown) then walk == null
               else walk != null && walk.calls == old(Windows()) + 1 && walk.failed == !answered)
        && (!idle && old(PageIsNext()) ==> pendingRequest.None? && (ended <==> served == old(served)))
        && (!idle && old(PageIsNext()) && ended ==> TooDense(unsendable))
        && (!idle && old(PageIsNext()) && !ended ==>
            && |served| == |old(served)| + 1
            && var last := served[|old(served)|];
               last.request == old(pendingRequest).value && last.record == terminal && last.servedAt == passes)
    {
      hide Valid, Searching, Turns, ReadAll, Stretch, Answers, TooDense, Joined;
      if |pendingOpening| > 0 || pendingRequest.None? {
        return;
      }
      if walk != null {
        WalkKnowsItsFloor();
      }
      if walk == null && !probe.earliestKnown {
        Probe(terminal, claim, answered);
        return;
      }
      if walk == null {
        BeginWalk();
      }
      if walk.Looking() {
        Step(terminal, answered);
        return;
      }
      FinishWalk(terminal);
    }

    /** The walk is over: its page goes out whole, or the session ends on a
        millisecond too dense to send. */
    method FinishWalk(terminal: seq<Tick>)
      requires Valid() && !ended && terminal == record
      requires pendingOpening == [] && pendingRequest.Some? && walk != null && !walk.Looking()
      modifies `pendingRequest, `wire, `served, `walk, `ended, `unsendable
      ensures Valid() && old(wire) <= wire && old(served) <= served && pendingRequest.None? && walk == null
      ensures ended ==> served == old(served) && TooDense(unsendable) && unsendable == old(Joined(walk.pages))
      ensures !ended ==>
        && |served| == |old(served)| + 1
        && var last := served[|old(served)|];
           && last.request == old(pendingRequest).value && last.search == old(Came())
           && last.record == terminal && last.servedAt == passes
    {
      hide Valid, Searching, ReadAll, Stretch, Answers, Joined, TooDense, Searched, PageOf, TrimmedTo;
      WalkHolds();
      var reply := walk.Finish(terminal);
      if reply.None? {
        Unsendable(Joined(walk.pages));
        Close();
        return;
      }
      WalkFound(reply.value);
      SendPage(reply.value);
    }

    ghost method Unsendable(gathered: seq<Tick>)
      requires Valid()
      modifies `unsendable
      ensures Valid() && unsendable == gathered
    {
      hide ReadAll, Kept, NoneEmpty, Paged, Anchored, Received, Searching;
      unsendable := gathered;
    }

    lemma WalkKnowsItsFloor()
      requires Valid() && walk != null
      ensures probe.earliestKnown
    {
    }

    /** A walk that is over, and the page made of it. */
    lemma WalkFound(reply: Reply)
      requires Searching() && walk != null && !walk.Looking()
      requires TrimmedTo(Joined(walk.pages), walk.wanted, walk.cursorMs, reply)
      requires walk.cursorMs <= reply.scannedToMs <= walk.before && |reply.ticks| <= MAX_SLICE_TICKS
      requires walk.cursorMs < walk.before ==> reply.scannedToMs < walk.before
      requires reply.exhausted <==>
        walk.floor.Some? && walk.cursorMs <= walk.floor.value && |reply.ticks| == walk.held
      ensures Searched(Came(), pendingRequest.value, walk.floor) && PageOf(reply, Came(), pendingRequest.value, walk.floor)
    {
      hide Stretch, Joined, Answers, Cuts, Sorted;
      var gathered := Joined(walk.pages);
      var cut: nat :| TrimmedAt(gathered, walk.wanted, walk.cursorMs, reply, cut);
      assert cut == 0 ==> gathered[cut..] == gathered;
    }

    lemma WalkHolds()
      requires Valid() && walk != null
      ensures walk.Holds() && Searching()
    {
    }

    /** A parked slice, then a turn of the search: a request still outstanding is
        nearer its page. */
    method PumpStored(terminal: seq<Tick>, claim: Option<Tick>, answered: bool)
      requires Valid() && !ended && terminal == record && (!answered ==> passes in refusals)
      modifies this, probe, walk
      ensures Valid() && old(wire) <= wire && old(served) <= served
      ensures unchanged(`record, `refusals, `passes, `askedAt, `tape)
      ensures walk == null || walk == old(walk) || fresh(walk)
      ensures pendingOpening == if old(pendingOpening) == [] then [] else old(pendingOpening)[1..]
      ensures ended ==> TooDense(unsendable)
      ensures pendingRequest.Some? ==>
        && Searching() && old(Searching()) && !ended && pendingRequest == old(pendingRequest)
        && |pendingOpening| + Turns() < |old(pendingOpening)| + old(Turns())
    {
      hide ReadAll, Valid, Turns, Searching, PageIsNext, TooDense, Windows;
      ValidMeans();
      PumpOpening();
      PumpHistory(terminal, claim, answered);
      ValidMeans();
    }

    /** The tape and the book; a terminal gone away ends the session. */
    method PumpMarket(pass: Pass)
      requires Valid() && !ended && record <= pass.record && Sorted(pass.record)
      modifies `record, `refusals, `wire, `tape, `ended, `pendingRequest, `walk
      ensures Valid() && old(wire) <= wire && record == pass.record && tape == old(tape) + pass.live
      ensures refusals == old(refusals) + if pass.answered then {} else {passes}
      ensures ended == pass.terminalLost
      ensures walk == null || walk == old(walk)
    {
      hide ReadAll, Valid, Turns, Searching, PageIsNext, Start, NoneEmpty;
      Watch(pass.record, pass.answered);
      PumpTicks(pass.live);
      if pass.terminalLost {
        Close();
      } else if pass.bookChanged {
        PumpQuiet(Book);
      }
    }

    /** One pass of the loop, in the loop's own order. */
    method RunPass(pass: Pass)
      requires Valid() && !ended && record <= pass.record && Sorted(pass.record)
      modifies this, probe, walk
      ensures Valid() && old(wire) <= wire && old(served) <= served && record == pass.record
      ensures walk == null || walk == old(walk) || fresh(walk)
      ensures !ended ==> pendingOpening == if old(pendingOpening) == [] then [] else old(pendingOpening)[1..]
      ensures !ended ==> passes == old(passes) + 1
      ensures ended ==> pass.terminalLost || TooDense(unsendable)
      ensures tape == old(tape) + pass.live
      ensures refusals == old(refusals) + if pass.answered then {} else {old(passes)}
    {
      hide ReadAll, Valid, Turns, Searching, PageIsNext, Start, NoneEmpty, FirstAsked, Sorted, TooDense, Windows;
      PumpMarket(pass);
      if !ended {
        PumpRequests(pass);
      }
    }

    /** The commands, what is owed, and the heartbeat that ends the pass. */
    method PumpRequests(pass: Pass)
      requires Valid() && !ended && record == pass.record && (!pass.answered ==> passes in refusals)
      modifies this, probe, walk
      ensures Valid() && old(wire) <= wire && old(served) <= served && unchanged(`record, `refusals, `tape)
      ensures walk == null || walk == old(walk) || fresh(walk)
      ensures !ended ==> pendingOpening == if old(pendingOpening) == [] then [] else old(pendingOpening)[1..]
      ensures !ended ==> passes == old(passes) + 1
      ensures ended ==> TooDense(unsendable)
    {
      hide ReadAll, Valid, Turns, Searching, PageIsNext, Start, NoneEmpty, FirstAsked, Sorted, TooDense, Windows;
      PumpCommands(pass.commands);
      ValidMeans();
      ghost var owed := |pendingOpening| + Turns();
      PumpStored(pass.record, pass.claim, pass.answered);
      if ended {
        return;
      }
      if pass.heartbeatDue {
        PumpQuiet(Heartbeat);
      }
      ValidMeans();
      EndPass(owed);
    }

    lemma ValidMeans()
      requires Valid()
      ensures Searching() && |pendingOpening| <= Max(0, |parked| - passes)
      ensures NoneEmpty(parked) && forall k :: 0 <= k < |served| ==> KeptOne(served[k], parked)
      ensures pendingRequest.Some? ==>
        passes + |pendingOpening| + Turns() <= Max(askedAt, |parked|) + SEARCH_TURNS
    {
    }

    lemma RefusalsAreRefusals()
      requires Valid()
      ensures forall k :: 0 <= k < |served| && served[k].search.refusedAt.Some? ==> served[k].search.refusedAt.value in refusals
    {
      hide Kept, ReadAll, Searching, NoneEmpty;
      assert forall k :: 0 <= k < |served| ==> AnchoredOne(served[k], record, probe.earliestKnown, probe.earliestMs, refusals);
    }

    ghost method EndPass(owed: nat)
      requires Valid() && !ended
      requires |pendingOpening| <= Max(0, |parked| - passes - 1)
      requires pendingRequest.Some? ==> passes + owed <= Max(askedAt, |parked|) + SEARCH_TURNS
      requires Searching() && (pendingRequest.Some? ==> |pendingOpening| + Turns() < owed)
      modifies `passes
      ensures Valid() && passes == old(passes) + 1
    {
      hide ReadAll, Kept, NoneEmpty, Paged, Anchored, Received;
      passes := passes + 1;
    }

    /** The loop until the session ends or the passes run out: a well-bracketed trace
        that carries the parked slices in order, then one page for each request
        admitted, each within its turns of the later of its admission and the last
        slice, and every live print. */
    method RunSession(run: seq<Pass>) returns (ran: nat)
      requires Valid() && !ended && wire == [] && tape == []
      requires pendingOpening == parked && passes == 0 && refusals == {} && Appending(record, run)
      modifies this, probe, walk
      ensures Valid() && ran <= |run| && (!ended ==> ran == |run|)
      ensures forall n :: 0 <= n <= |wire| ==> ReadAll(Start(), wire[..n]).mode != Bad
      ensures var place := ReadAll(Start(), wire);
        && place.slices == parked[..|parked| - |pendingOpening|] && place.slicesLeft == |pendingOpening|
        && Paged(place.pages, served) && place.live == LiveOf(run, ran)
      ensures ended ==> ran > 0 && (run[ran - 1].terminalLost || TooDense(unsendable))
      ensures !ended ==> |pendingOpening| == Max(0, |parked| - |run|)
      ensures !ended ==> admitted == |served| + (if pendingRequest.Some? then 1 else 0)
      ensures !ended && pendingRequest.Some? ==> ran < Max(askedAt, |parked|) + SEARCH_TURNS
      ensures ended ==> |served| <= admitted <= |served| + 1
      ensures forall k :: 0 <= k < |served| ==> KeptOne(served[k], parked)
      ensures forall k :: 0 <= k < |served| && served[k].search.refusedAt.Some? ==>
        served[k].search.refusedAt.value < ran && !run[served[k].search.refusedAt.value].answered
    {
      hide ReadAll, KeptOne, Kept, NoneEmpty, Paged, Searching, Turns, Anchored, TooDense;
      ran := 0;
      while ran < |run| && !ended
        invariant ran <= |run| && Valid() && (!ended ==> passes == ran)
        invariant walk == null || walk == old(walk) || fresh(walk)
        invariant !ended ==> |pendingOpening| == Max(0, |parked| - ran)
        invariant ended ==> ran > 0 && (run[ran - 1].terminalLost || TooDense(unsendable))
        invariant forall p :: p in refusals ==> p < ran && !run[p].answered
        invariant tape == LiveOf(run, ran)
        invariant forall k :: ran <= k < |run| ==> record <= run[k].record
      {
        RunPass(run[ran]);
        ran := ran + 1;
      }
      ValidMeans();
      RefusalsAreRefusals();
      WellToTheEnd(Start(), wire);
    }
  }

  lemma PagedMore(pages: seq<Reply>, served: seq<Served>, s: Served)
    requires Paged(pages, served)
    ensures Paged(pages + [s.reply], served + [s])
  {
  }

  lemma AnchoredMore(served: seq<Served>, s: Served, record: seq<Tick>, known: bool, floor: Option<int>, refusals: set<nat>)
    requires Anchored(served, record, known, floor, refusals) && AnchoredOne(s, record, known, floor, refusals)
    ensures Anchored(served + [s], record, known, floor, refusals)
  {
  }

  lemma AnchoredOn(served: seq<Served>, record: seq<Tick>, grown: seq<Tick>, known: bool, floor: Option<int>,
                   refusals: set<nat>, more: set<nat>)
    requires Anchored(served, record, known, floor, refusals) && record <= grown && refusals <= more
    ensures Anchored(served, grown, known, floor, more)
  {
    forall k | 0 <= k < |served|
      ensures AnchoredOne(served[k], grown, known, floor, more)
    {
      assert AnchoredOne(served[k], record, known, floor, refusals);
      StillPrefix(served[k].record, record, grown);
    }
  }

  lemma StillPrefix(a: seq<Tick>, b: seq<Tick>, c: seq<Tick>)
    requires a <= b <= c
    ensures a <= c
  {
  }

  lemma {:induction false} WellToTheEnd(place: Place, lines: seq<Line>)
    requires ReadAll(place, lines).mode != Bad
    ensures forall n :: 0 <= n <= |lines| ==> ReadAll(place, lines[..n]).mode != Bad
  {
    forall n | 0 <= n <= |lines|
      ensures ReadAll(place, lines[..n]).mode != Bad
    {
      NeverBadBefore(place, lines, n);
    }
  }

  /** Each request asks from where the page before it reached, and from no later
      than the terminal's newest print. */
  ghost predicate Chained(served: seq<Served>) {
    && (forall k :: 0 <= k < |served| ==> Settled(served[k].began, served[k].request.before))
    && (forall k :: 0 < k < |served| ==> Follows(served, k))
  }

  ghost predicate Follows(served: seq<Served>, k: nat)
    requires 0 < k < |served|
  {
    served[k].request.before == served[k - 1].reply.scannedToMs
  }

  function Replies(served: seq<Served>): seq<Reply> {
    if |served| == 0 then [] else [served[0].reply] + Replies(served[1..])
  }

  lemma ServedTail(served: seq<Served>, parked: seq<seq<Tick>>, record: seq<Tick>, known: bool, floor: Option<int>, refusals: set<nat>)
    requires NoneEmpty(parked) && Kept(served, parked) && Anchored(served, record, known, floor, refusals)
    requires Chained(served) && |served| > 0
    ensures KeptOne(served[0], parked) && served[0].record <= record && served[0].floor == floor
    ensures Settled(served[0].began, served[0].request.before)
    ensures Kept(served[1..], parked) && Anchored(served[1..], record, known, floor, refusals) && Chained(served[1..])
    ensures |served| > 1 ==> served[1].request.before == served[0].reply.scannedToMs
  {
    hide KeptOne, Settled;
    var rest := served[1..];
    assert AnchoredOne(served[0], record, known, floor, refusals);
    assert |served| > 1 ==> Follows(served, 1);
    forall k | 0 < k < |rest|
      ensures Follows(rest, k)
    {
      assert Follows(served, k + 1);
    }
  }

  lemma ServedStillAnswers(s: Served, parked: seq<seq<Tick>>, record: seq<Tick>)
    requires NoneEmpty(parked) && KeptOne(s, parked) && s.record <= record && Sorted(record)
    requires Settled(s.began, s.request.before)
    ensures Answers(record, s.floor, s.request.before, s.reply)
  {
    assert s.record[|s.began| - 1] == s.began[|s.began| - 1];
    SortedPrefix(s.record, record);
    SettledPrints(s.began, s.record, s.reply.scannedToMs, s.request.before);
    SettledPrints(s.record, record, s.reply.scannedToMs, s.request.before);
  }

  lemma SortedPrefix(record: seq<Tick>, grown: seq<Tick>)
    requires Sorted(grown) && record <= grown
    ensures Sorted(record)
  {
    assert forall i :: 0 <= i < |record| ==> record[i] == grown[i];
  }

  /** While the tape runs and the record grows, a consumer paging through one
      session receives every print from its first request back to where the last
      page reached, once and in order. */
  lemma {:induction false} SessionPagesDeliverOnce(served: seq<Served>, parked: seq<seq<Tick>>, record: seq<Tick>,
                                                   known: bool, floor: Option<int>, refusals: set<nat>, before: int)
    requires NoneEmpty(parked) && Sorted(record) && Kept(served, parked) && Anchored(served, record, known, floor, refusals)
    requires Chained(served) && (|served| > 0 ==> served[0].request.before == before)
    ensures Pages(record, floor, before, Replies(served))
    ensures Delivered(Replies(served)) == Prints(record, ReachedBy(before, Replies(served)), before)
    decreases |served|
  {
    if |served| > 0 {
      ServedTail(served, parked, record, known, floor, refusals);
      ServedStillAnswers(served[0], parked, record);
      hide Kept, KeptOne, Anchored, Chained, NoneEmpty, Settled, Answers, Sorted, Prints, Delivered, ReachedBy;
      SessionPagesDeliverOnce(served[1..], parked, record, known, floor, refusals, served[0].reply.scannedToMs);
      assert Replies(served)[1..] == Replies(served[1..]);
    }
    PagingDeliversExactlyOnce(record, floor, before, Replies(served));
  }

  /** A page asked for behind parked slices overlaps no part of the session. */
  lemma PagesStayBelowTheSession(ticks: seq<Tick>, opening: Opening, s: Served)
    requires Sorted(ticks) && |opening.parked| > 0
    requires CutDownTo(ticks, [opening.block] + opening.parked, 0)
    requires NoneEmpty(opening.parked) && KeptOne(s, opening.parked) && s.whileParked
    ensures forall i, j :: 0 <= i < |s.reply.ticks| && 0 <= j < |ticks| ==> s.reply.ticks[i].ms < ticks[j].ms
  {
    assert ([opening.block] + opening.parked)[|opening.parked|] == opening.parked[|opening.parked| - 1];
    assert forall j :: 0 <= j < |ticks| ==> ticks[0].ms <= ticks[j].ms;
  }
}
