/** Answering one `load_older` request by walking the record backwards in
    windows, and what repeating the request delivers. */
module LoadOlder {
  import opened Numbers
  import opened Terminal
  import opened Wrappers
  import opened Paging

  const FIRST_WINDOW_S := 300
  const MAX_WINDOW_S := 4 * 60 * 60
  const WINDOW_GROWTH := 4
  const MAX_PAGES := 24
  const MAX_TICKS := 200_000
  const FLOOR_SPAN_MS := 48 * 60 * 60 * 1000

  /** What goes between `history_start` and `history_end`. */
  datatype Reply = Reply(ticks: seq<Tick>, exhausted: bool, scannedToMs: int)

  /** What every reply owes its request: exactly the prints of
      `[scannedToMs, before)`, and an end-of-tape claim only at the floor. */
  ghost predicate Answers(record: seq<Tick>, floor: Option<int>, before: int, reply: Reply) {
    && reply.scannedToMs <= before
    && reply.ticks == Prints(record, reply.scannedToMs, before)
    && (reply.exhausted ==> floor.Some? && reply.scannedToMs <= floor.value)
  }

  /** The newest page of what was gathered, cut where a page of `wanted` prints
      begins, and how far back it reaches: its own first print after a cut, else
      all the way to where the search stopped. */
  ghost predicate TrimmedTo(gathered: seq<Tick>, wanted: nat, reachedMs: int, reply: Reply) {
    exists cut: nat :: TrimmedAt(gathered, wanted, reachedMs, reply, cut)
  }

  ghost predicate TrimmedAt(gathered: seq<Tick>, wanted: nat, reachedMs: int, reply: Reply, cut: nat) {
    && cut <= |gathered| && Cuts(gathered, |gathered|, wanted, cut) && reply.ticks == gathered[cut..]
    && (cut == 0 ==> reply.scannedToMs == reachedMs)
    && (cut > 0 ==> reply.ticks != [] && reply.scannedToMs == reply.ticks[0].ms)
  }

  /** The whole second a window below the cursor starts at. */
  function WindowStart(cursorMs: int, windowS: nat): (fromS: int)
    requires cursorMs > 0 && windowS > 0
    ensures 0 <= fromS * 1000 < cursorMs
    ensures fromS == 0 || cursorMs - fromS * 1000 >= windowS * 1000
  {
    Max(0, cursorMs / 1000 - windowS)
  }

  /** Prints in order, all stamped in `lo <= ms < hi`. */
  ghost predicate Stretch(ticks: seq<Tick>, lo: int, hi: int) {
    Sorted(ticks) && forall i :: 0 <= i < |ticks| ==> lo <= ticks[i].ms < hi
  }

  lemma {:induction false} StretchGathers(record: seq<Tick>, pages: seq<seq<Tick>>, lo: int, cursorMs: int, before: int)
    requires Sorted(record) && lo <= cursorMs <= before && Stretch(Joined(pages), cursorMs, before)
    ensures var older := Prints(record, lo, cursorMs);
      && Stretch(Joined(pages + [older]), lo, before) && |Joined(pages + [older])| == |older| + |Joined(pages)|
      && Stretch(Joined(pages), lo, before)
  {
    PrintsWithin(record, lo, cursorMs);
    JoinedAppend(pages, Prints(record, lo, cursorMs));
  }

  lemma StretchFrom(ticks: seq<Tick>, lo: int, hi: int, cut: nat)
    requires Stretch(ticks, lo, hi) && cut < |ticks|
    ensures Stretch(ticks[cut..], ticks[cut].ms, hi)
  {
  }

  /** One millisecond fills more than the feed takes in a page. */
  ghost predicate TooDense(gathered: seq<Tick>) {
    |gathered| > MAX_SLICE_TICKS && NoEdgeIn(gathered, |gathered| - MAX_SLICE_TICKS, |gathered|)
  }

  /** The window below `askedMs` was still called for: fewer than `wanted` prints had
      been gathered from there on, and neither the epoch nor the floor was reached. */
  ghost predicate CalledFor(gathered: seq<Tick>, wanted: nat, askedMs: int, floor: Option<int>) {
    && askedMs > 0 && !(floor.Some? && askedMs <= floor.value)
    && (0 < wanted <= |gathered| ==> gathered[|gathered| - wanted].ms < askedMs)
  }

  lemma {:induction false} StillCalledFor(record: seq<Tick>, pages: seq<seq<Tick>>, lo: int, cursorMs: int, wanted: nat, floor: Option<int>)
    requires cursorMs > 0 && !(floor.Some? && cursorMs <= floor.value)
    requires |Joined(pages)| < wanted && Sorted(record) && lo <= cursorMs
    ensures CalledFor(Joined(pages), wanted, cursorMs, floor)
    ensures CalledFor(Joined(pages + [Prints(record, lo, cursorMs)]), wanted, cursorMs, floor)
  {
    PrintsWithin(record, lo, cursorMs);
    JoinedAppend(pages, Prints(record, lo, cursorMs));
  }

  /** A window adds exactly the prints between its start and the cursor. */
  lemma {:induction false} WindowGathers(record: seq<Tick>, pages: seq<seq<Tick>>, lo: int, cursorMs: int, before: int)
    requires lo <= cursorMs <= before && Joined(pages) == Prints(record, cursorMs, before)
    ensures var older := Prints(record, lo, cursorMs);
      && Joined(pages + [older]) == older + Joined(pages) == Prints(record, lo, before)
      && (older == [] ==> Joined(pages) == Prints(record, lo, before))
  {
    PrintsJoin(record, lo, cursorMs, before);
    JoinedAppend(pages, Prints(record, lo, cursorMs));
  }

  /** The resumable search: one terminal window a turn, so that live prints,
      the book and heartbeats run between turns. */
  class BackWalk {
    const before: int
    const wanted: nat
    const floor: Option<int>
    var cursorMs: int
    var windowS: nat
    var calls: nat
    var held: nat
    var pages: seq<seq<Tick>>
    var failed: bool
    /** Where the last window was asked below. */
    ghost var askedMs: int

    constructor (count: int, before: int, floor: Option<int>)
      ensures this.before == before && this.floor == floor
      ensures wanted == Max(1, Min(count, MAX_TICKS))
      ensures cursorMs == before && windowS == FIRST_WINDOW_S
      ensures calls == 0 && held == 0 && pages == [] && !failed && askedMs == before
    {
      this.before, this.floor := before, floor;
      wanted := Max(1, Min(count, MAX_TICKS));
      cursorMs, windowS, calls, held, pages, failed := before, FIRST_WINDOW_S, 0, 0, [], false;
      askedMs := before;
    }

    /** However the terminal's record moves between windows, what has been
        gathered is in order, between cursor and request. */
    ghost predicate Holds()
      reads this
    {
      && cursorMs <= before && (calls == 0 ==> cursorMs == before && !failed)
      && (calls > 0 && !(calls == 1 && failed) ==> cursorMs < before)
      && FIRST_WINDOW_S <= windowS && calls <= MAX_PAGES && 1 <= wanted <= MAX_TICKS
      && Stretch(Joined(pages), cursorMs, before) && held == |Joined(pages)|
      && (calls > 0 ==> cursorMs <= askedMs <= before && CalledFor(Joined(pages), wanted, askedMs, floor))
    }

    /** What has been gathered is exactly the record between cursor and request. */
    ghost predicate Valid(record: seq<Tick>)
      reads this
    {
      Sorted(record) && Holds() && Joined(pages) == Prints(record, cursorMs, before)
    }

    predicate Looking()
      reads this
    {
      && !failed && held < wanted && calls < MAX_PAGES
      && !(floor.Some? && cursorMs <= floor.value)
      && cursorMs > 0
    }

    /** One window. A refused call ends the search; an answered one always moves
        the cursor, keeps every print in between and widens only over dead time. */
    method Turn(record: seq<Tick>, answered: bool)
      requires Sorted(record) && Holds() && Looking()
      modifies this
      ensures Holds() && (old(Valid(record)) ==> Valid(record))
      ensures calls == old(calls) + 1 && failed == !answered
      ensures !answered ==> cursorMs == old(cursorMs) && pages == old(pages) && windowS == old(windowS)
      ensures answered ==> cursorMs < old(cursorMs)
      ensures answered ==> cursorMs == WindowStart(old(cursorMs), old(windowS)) * 1000
      ensures answered ==>
        windowS == if held > old(held) then FIRST_WINDOW_S else Min(old(windowS) * WINDOW_GROWTH, MAX_WINDOW_S)
    {
      hide Joined, Prints, Sorted, Stretch, CalledFor;
      calls, askedMs := calls + 1, cursorMs;
      var toS := CeilSeconds(cursorMs);
      var fromS := WindowStart(cursorMs, windowS);
      StillCalledFor(record, pages, fromS * 1000, cursorMs, wanted, floor);
      if !answered {
        failed := true;
        return;
      }
      var older := AskWindow(record, fromS, toS, cursorMs);
      StretchGathers(record, pages, fromS * 1000, cursorMs, before);
      if Joined(pages) == Prints(record, cursorMs, before) {
        WindowGathers(record, pages, fromS * 1000, cursorMs, before);
      }
      if |older| > 0 {
        pages := pages + [older];
        held := held + |older|;
        windowS := FIRST_WINDOW_S;
      } else {
        windowS := Min(windowS * WINDOW_GROWTH, MAX_WINDOW_S);
      }
      cursorMs := fromS * 1000;
    }

    /** Trim to what was wanted, oldest first off the front, and report how far
        back was delivered. None is the refusal of an unsendable millisecond. */
    method Finish(ghost record: seq<Tick>) returns (reply: Option<Reply>)
      requires Holds()
      ensures reply.Some? ==> TrimmedTo(Joined(pages), wanted, cursorMs, reply.value)
      ensures reply.Some? ==> Stretch(reply.value.ticks, reply.value.scannedToMs, before)
      ensures reply.Some? && Valid(record) ==> Answers(record, floor, before, reply.value)
      ensures reply.Some? ==> cursorMs <= reply.value.scannedToMs <= before
      ensures reply.Some? ==> |reply.value.ticks| <= MAX_SLICE_TICKS
      ensures reply.Some? && cursorMs < before ==> reply.value.scannedToMs < before
      ensures reply.Some? ==> (reply.value.exhausted <==>
        floor.Some? && cursorMs <= floor.value && |reply.value.ticks| == held)
      ensures reply.None? <==> TooDense(Joined(pages))
    {
      var ticks := Joined(pages);
      var cut := PageStart(ticks, |ticks|, wanted);
      if cut.None? {
        return None;
      }
      var trimmed := cut.value;
      CutsBound(ticks, |ticks|, wanted, trimmed);
      var scannedToMs := cursorMs;
      if trimmed > 0 {
        StretchFrom(ticks, cursorMs, before, trimmed);
        if Valid(record) {
          TrimKeepsStretch(record, cursorMs, before, trimmed);
        }
        ticks := ticks[trimmed..];
        scannedToMs := ticks[0].ms;
      }
      var exhausted := floor.Some? && cursorMs <= floor.value && trimmed == 0;
      assert TrimmedAt(Joined(pages), wanted, cursorMs, Reply(ticks, exhausted, scannedToMs), trimmed) by {
        assert Joined(pages)[0..] == Joined(pages);
      }
      return Some(Reply(ticks, exhausted, scannedToMs));
    }
  }

  /** Cutting a stretch at a group edge leaves the stretch from that stamp on. */
  lemma TrimKeepsStretch(record: seq<Tick>, lo: int, hi: int, cut: nat)
    requires Sorted(record) && lo <= hi
    requires cut < |Prints(record, lo, hi)| && GroupEdge(Prints(record, lo, hi), cut)
    ensures var stamp := Prints(record, lo, hi)[cut].ms;
      && lo <= stamp < hi
      && Prints(record, lo, hi)[cut..] == Prints(record, stamp, hi)
  {
    var ticks := Prints(record, lo, hi);
    var stamp := ticks[cut].ms;
    var a := Below(record, lo);
    BelowMonotone(record, lo, hi);
    assert record[a + cut] == ticks[cut];
    assert cut > 0 ==> record[a + cut - 1] == ticks[cut - 1];
    BelowIs(record, stamp, a + cut);
  }

  lemma NothingGathered(record: seq<Tick>, before: int)
    ensures Prints(record, before, before) == [] && Joined([]) == [] && Stretch([], before, before)
  {
  }

  /** `walk_back`: the whole search at once. `refusals` names the calls the
      terminal fails. */
  method WalkBack(record: seq<Tick>, floor: Option<int>, count: int, before: int, refusals: set<nat>)
    returns (reply: Option<Reply>, calls: nat, ghost reachedMs: int, ghost askedMs: int)
    requires Sorted(record)
    ensures reply.Some? ==> TrimmedTo(Prints(record, reachedMs, before), Max(1, Min(count, MAX_TICKS)), reachedMs, reply.value)
    ensures || |Prints(record, reachedMs, before)| >= Max(1, Min(count, MAX_TICKS)) || calls == MAX_PAGES
            || (calls > 0 && calls in refusals) || reachedMs <= 0 || (floor.Some? && reachedMs <= floor.value)
    ensures calls > 0 ==>
      && reachedMs <= askedMs <= before
      && CalledFor(Prints(record, reachedMs, before), Max(1, Min(count, MAX_TICKS)), askedMs, floor)
    ensures forall k :: 1 <= k < calls ==> k !in refusals
    ensures reply.Some? ==> Answers(record, floor, before, reply.value)
    ensures calls <= MAX_PAGES
    ensures reply.Some? && calls > 0 && 1 !in refusals ==> reply.value.scannedToMs < before
    ensures calls == 0 <==> before <= 0 || (floor.Some? && before <= floor.value)
  {
    hide Joined, Prints, Sorted, Stretch, TrimmedTo, Answers, CalledFor;
    NothingGathered(record, before);
    var walk := new BackWalk(count, before, floor);
    while walk.Looking()
      invariant walk.Valid(record)
      invariant walk.before == before && walk.floor == floor && walk.wanted == Max(1, Min(count, MAX_TICKS))
      invariant walk.failed ==> walk.calls > 0 && walk.calls in refusals
      invariant forall k :: 1 <= k <= walk.calls && k in refusals ==> walk.failed && k == walk.calls
      invariant walk.calls == 0 ==> walk.held == 0 && !walk.failed
      invariant walk.calls > 0 && 1 !in refusals ==> walk.cursorMs < before
      invariant walk.calls > 0 ==> before > 0 && !(floor.Some? && before <= floor.value)
      decreases MAX_PAGES - walk.calls
    {
      walk.Turn(record, walk.calls + 1 !in refusals);
    }
    reply := walk.Finish(record);
    calls, reachedMs, askedMs := walk.calls, walk.cursorMs, walk.askedMs;
  }

  /** The consumer pages from where the previous reply reached. */
  ghost predicate Pages(record: seq<Tick>, floor: Option<int>, before: int, replies: seq<Reply>)
    decreases |replies|
  {
    |replies| > 0 ==>
      && Answers(record, floor, before, replies[0])
      && Pages(record, floor, replies[0].scannedToMs, replies[1..])
  }

  function ReachedBy(before: int, replies: seq<Reply>): int {
    if |replies| == 0 then before else replies[|replies| - 1].scannedToMs
  }

  /** Every reply's prints, oldest reply first. */
  function Delivered(replies: seq<Reply>): seq<Tick> {
    if |replies| == 0 then [] else Delivered(replies[1..]) + replies[0].ticks
  }

  /** Paging delivers every print from the first request back to the instant
      last reached exactly once, in order, whatever was trimmed, widened,
      refused or spent on the way. */
  lemma {:induction false} PagingDeliversExactlyOnce(
    record: seq<Tick>, floor: Option<int>, before: int, replies: seq<Reply>)
    requires Pages(record, floor, before, replies)
    ensures ReachedBy(before, replies) <= before
    ensures Delivered(replies) == Prints(record, ReachedBy(before, replies), before)
    decreases |replies|
  {
    if |replies| > 0 {
      var mid := replies[0].scannedToMs;
      PagingDeliversExactlyOnce(record, floor, mid, replies[1..]);
      assert ReachedBy(mid, replies[1..]) == ReachedBy(before, replies);
      PrintsJoin(record, ReachedBy(before, replies), mid, before);
    }
  }

  /** An end-of-tape claim under a true floor is true: the pages delivered are
      then the whole record before the first request. */
  lemma {:induction false} ExhaustedMeansEverything(record: seq<Tick>, floor: Option<int>, before: int, replies: seq<Reply>)
    requires Sorted(record) && Pages(record, floor, before, replies)
    requires floor.Some? ==> Below(record, floor.value) == 0
    requires |replies| > 0 && replies[|replies| - 1].exhausted
    ensures Delivered(replies) == record[..Below(record, before)]
  {
    PagingDeliversExactlyOnce(record, floor, before, replies);
    LastClaim(record, floor, before, replies);
    var reached := ReachedBy(before, replies);
    BelowMonotone(record, reached, floor.value);
  }

  lemma {:induction false} LastClaim(record: seq<Tick>, floor: Option<int>, before: int, replies: seq<Reply>)
    requires Pages(record, floor, before, replies) && |replies| > 0
    ensures var last := replies[|replies| - 1];
      last.exhausted ==> floor.Some? && last.scannedToMs <= floor.value
    decreases |replies|
  {
    if |replies| > 1 {
      LastClaim(record, floor, replies[0].scannedToMs, replies[1..]);
    }
  }

  /** New prints at the right edge do not disturb a stretch to their left. */
  lemma PrintsStable(record: seq<Tick>, grown: seq<Tick>, lo: int, hi: int)
    requires Sorted(grown) && record <= grown
    requires forall i :: |record| <= i < |grown| ==> hi <= grown[i].ms
    ensures Sorted(record) && Prints(record, lo, hi) == Prints(grown, lo, hi)
  {
    hide BelowWithin;
    assert forall i :: 0 <= i < |record| ==> record[i] == grown[i];
    if lo <= hi {
      BelowMonotone(record, lo, hi);
      var a, b := Below(record, lo), Below(record, hi);
      assert Sorted(record);
      hide Sorted;
      BelowIs(grown, lo, a);
      BelowIs(grown, hi, b);
      assert record[a..b] == grown[a..b];
    }
  }

  // ---- the terminal's own claim of where history begins ----

  /** The oldest print as the terminal names it, once it survives the look
      below it. Asked once a session and remembered, failures included; each of
      its two terminal calls is a turn of its own. */
  class FloorProbe {
    var earliestMs: Option<int>
    var earliestKnown: bool
    var claimed: Option<int>  // named by the terminal and not yet looked below

    constructor ()
      ensures earliestMs == None && !earliestKnown && claimed == None
    {
      earliestMs, earliestKnown, claimed := None, false, None;
    }

    /** The first call: a terminal that names nothing leaves the floor unknown
        for the session. */
    method Claim(claim: Option<Tick>)
      requires !earliestKnown && claimed.None?
      modifies this
      ensures earliestKnown == claim.None?
      ensures claim.None? ==> earliestMs == None && claimed == None
      ensures claim.Some? ==> claimed == Some(claim.value.ms) && earliestMs == old(earliestMs)
    {
      if claim.None? {
        earliestKnown, earliestMs := true, None;
        return;
      }
      claimed := Some(claim.value.ms);
    }

    /** The second call, skipped for a claim two days below the newest print. */
    method Look(record: seq<Tick>, newest: Option<int>, answered: bool)
      requires !earliestKnown && claimed.Some?
      modifies this
      ensures earliestKnown && claimed == None
      ensures earliestMs == if Believed(record, old(claimed).value, newest, answered) then old(claimed) else None
    {
      var claim := claimed.value;
      earliestKnown, earliestMs, claimed := true, None, None;
      if newest.Some? && newest.value - claim > FLOOR_SPAN_MS {
        earliestMs := Some(claim);
        return;
      }
      var below := if answered then SeenBelow(record, claim) else [];
      if |below| > 0 {
        return;
      }
      earliestMs := Some(claim);
    }

    /** Both calls at once, as the opening asks. */
    method EarliestTick(record: seq<Tick>, claim: Option<Tick>, newest: Option<int>, answered: bool)
      returns (floor: Option<int>)
      requires claimed.None?
      modifies this
      ensures earliestKnown && floor == earliestMs && claimed == None
      ensures old(earliestKnown) ==> floor == old(earliestMs)
      ensures !old(earliestKnown) ==>
        floor == if claim.Some? && Believed(record, claim.value.ms, newest, answered) then Some(claim.value.ms) else None
    {
      if earliestKnown {
        return earliestMs;
      }
      Claim(claim);
      if !earliestKnown {
        Look(record, newest, answered);
      }
      return earliestMs;
    }
  }

  /** The look below a claimed oldest stamp: 48 hours, in whole seconds. */
  function LookFromS(claimed: int): int {
    Max(0, claimed / 1000 - FLOOR_SPAN_MS / 1000)
  }

  function SeenBelow(record: seq<Tick>, claimed: int): seq<Tick> {
    OlderThan(CopyTicksRange(record, LookFromS(claimed), claimed / 1000), claimed)
  }

  predicate Believed(record: seq<Tick>, claimed: int, newest: Option<int>, answered: bool) {
    || (newest.Some? && newest.value - claimed > FLOOR_SPAN_MS)
    || !answered
    || SeenBelow(record, claimed) == []
  }

  /** The look is rounded down to the second, so it clears the 48 hours below a
      claim exactly when the claim's own second holds nothing older either. */
  lemma ClearBelowTheClaim(record: seq<Tick>, claimed: int)
    requires Sorted(record) && claimed >= 0
    ensures ClearBelow(record, claimed) <==>
      && SeenBelow(record, claimed) == []
      && ClearWithinItsSecond(record, claimed)
  {
    var from, to := LookFromS(claimed) * 1000, Min(claimed / 1000 * 1000 + 1, claimed);
    OlderThanRange(record, from, claimed / 1000 * 1000 + 1, claimed);
    PrintsJoin(record, from, to, claimed);
  }

  /** The 48 hours below the claim hold nothing. */
  ghost predicate ClearBelow(record: seq<Tick>, claimed: int) {
    Prints(record, LookFromS(claimed) * 1000, claimed) == []
  }

  /** The claim's own second, past its first millisecond, holds nothing older. */
  ghost predicate ClearWithinItsSecond(record: seq<Tick>, claimed: int) {
    Prints(record, Min(claimed / 1000 * 1000 + 1, claimed), claimed) == []
  }

  /** Exactly when a believed claim is clear below: its own second must be, and
      where no look was taken or the terminal refused it, the rest as well. It
      names the record's oldest print exactly when, besides, nothing stands more
      than 48 hours below it. */
  lemma BelievedIsClearExactlyWhen(record: seq<Tick>, claimed: int, newest: Option<int>, answered: bool)
    requires Sorted(record) && claimed >= 0 && Believed(record, claimed, newest, answered)
    ensures ClearBelow(record, claimed) <==>
      && ClearWithinItsSecond(record, claimed)
      && ((newest.Some? && newest.value - claimed > FLOOR_SPAN_MS) || !answered ==> SeenBelow(record, claimed) == [])
    ensures Below(record, claimed) == 0 <==> ClearBelow(record, claimed) && Below(record, LookFromS(claimed) * 1000) == 0
  {
    ClearBelowTheClaim(record, claimed);
    BelowMonotone(record, LookFromS(claimed) * 1000, claimed);
  }

  /** A terminal that refuses the look is believed with prints underneath. */
  lemma RefusedLookIsBelieved()
    ensures var record := [Tick(1000, 0), Tick(5000, 1)];
      && Sorted(record) && Believed(record, 5000, None, false)
      && !ClearBelow(record, 5000) && SeenBelow(record, 5000) == [Tick(1000, 0)]
  {
    var record := [Tick(1000, 0), Tick(5000, 1)];
    BelowIs(record, 0, 0);
    BelowIs(record, 5000, 1);
    BelowIs(record, 5001, 2);
    OlderThanRange(record, 0, 5001, 5000);
  }

  /** A print 400 ms below the claim, in the same second, escapes the look. */
  lemma SameSecondEscapesTheLook()
    ensures var record := [Tick(1500, 0), Tick(1900, 1)];
      && Sorted(record)
      && Believed(record, 1900, Some(1900), true)
      && Prints(record, 0, 1900) == [Tick(1500, 0)]
  {
    var record := [Tick(1500, 0), Tick(1900, 1)];
    BelowIs(record, 0, 0);
    BelowIs(record, 1001, 0);
    BelowIs(record, 1900, 1);
    OlderThanRange(record, 0, 1001, 1900);
  }
}
