/** The opening block: the whole session the newest print belongs to, cut into
    slices the feed can take. */
module Opening {
  import opened Numbers
  import opened Terminal
  import opened Wrappers
  import LoadOlder

  const SESSION_GAP_MS := 60 * 60 * 1000
  const WALK_MAX_SPAN_MS := 48 * 60 * 60 * 1000
  const WALK_MAX_WINDOWS := 48
  const REACH_WINDOW_S := 14_400
  const REACH_MAX_CALLS := 48

  datatype Stop = Budget | Epoch | Span | TerminalFloor | TerminalError | SessionEdge | Cap

  /** How far back `calls` fixed steps reach. */
  function ReachedS(beforeS: int, calls: nat): int {
    Max(0, beforeS - 14_400 * calls)
  }

  /** When the instrument last printed at or before `beforeS`. */
  method LastPrintBefore(record: seq<Tick>, beforeS: int, refusals: set<nat>)
    returns (newest: Option<int>, calls: nat)
    requires Sorted(record)
    ensures calls <= REACH_MAX_CALLS
    ensures newest.Some? ==>
      var n := Below(record, beforeS * 1000 + 1);
      n > 0 && record[n - 1].ms == newest.value
    ensures newest.None? && (forall c :: 1 <= c <= calls ==> c !in refusals) ==>
      beforeS <= 0 ||
      Prints(record, ReachedS(beforeS, REACH_MAX_CALLS) * 1000, beforeS * 1000 + 1) == []
  {
    var cursorS := beforeS;
    calls := 0;
    while calls < REACH_MAX_CALLS
      invariant calls <= REACH_MAX_CALLS && cursorS <= beforeS
      invariant calls == 0 ==> cursorS == beforeS
      invariant calls > 0 ==> beforeS > 0 && cursorS == ReachedS(beforeS, calls)
      invariant calls > 0 ==> Prints(record, cursorS * 1000, beforeS * 1000 + 1) == []
    {
      if cursorS <= 0 {
        return None, calls;
      }
      calls := calls + 1;
      var fromS := Max(0, cursorS - REACH_WINDOW_S);
      if calls in refusals {
        return None, calls;
      }
      var found := CopyTicksRange(record, fromS, cursorS);
      ReachWindow(record, fromS, cursorS, beforeS);
      if |found| > 0 {
        return Some(found[|found| - 1].ms), calls;
      }
      cursorS := fromS;
    }
    return None, calls;
  }

  /** With nothing newer in hand, an inclusive window either holds the newest
      print or extends the stretch known to be empty. */
  lemma ReachWindow(record: seq<Tick>, fromS: int, cursorS: int, beforeS: int)
    requires fromS <= cursorS <= beforeS
    requires cursorS < beforeS ==> Prints(record, cursorS * 1000, beforeS * 1000 + 1) == []
    ensures var found := CopyTicksRange(record, fromS, cursorS);
      var n := Below(record, beforeS * 1000 + 1);
      && (found != [] ==> n > 0 && record[n - 1] == found[|found| - 1])
      && (found == [] ==> Prints(record, fromS * 1000, beforeS * 1000 + 1) == [])
  {
    BelowMonotone(record, fromS * 1000, cursorS * 1000);
    BelowMonotone(record, cursorS * 1000, cursorS * 1000 + 1);
    BelowMonotone(record, cursorS * 1000 + 1, beforeS * 1000 + 1);
  }

  ghost predicate BreakAt(found: seq<Tick>, gapMs: int, i: int) {
    1 <= i < |found| && found[i].ms - found[i - 1].ms >= gapMs
  }

  /** The first print after the newest break of at least `gapMs`, or 0. */
  method SessionEdgeIn(found: seq<Tick>, gapMs: int) returns (edge: nat)
    ensures edge == 0 || BreakAt(found, gapMs, edge)
    ensures forall i :: edge < i ==> !BreakAt(found, gapMs, i)
  {
    edge := 0;
    if |found| < 2 {
      return;
    }
    for index := 1 to |found|
      invariant edge == 0 || (edge < index && BreakAt(found, gapMs, edge))
      invariant forall i :: edge < i < index ==> !BreakAt(found, gapMs, i)
    {
      if found[index].ms - found[index - 1].ms >= gapMs {
        edge := index;
      }
    }
  }

  /** The oldest instant the walk may reach, in whole seconds. */
  function SpanFloorS(newestMs: int): int {
    (newestMs - WALK_MAX_SPAN_MS) / 1000
  }

  /** One window of the walk in whole seconds, rounded outward, and whether the
      48 hour span rather than its own width decided where it starts. */
  method WindowSeconds(newestMs: int, cursorMs: int, widthS: nat) returns (fromS: int, toS: int, clips: bool)
    requires newestMs - WALK_MAX_SPAN_MS < cursorMs && 0 < cursorMs && widthS >= 3600
    ensures 0 <= fromS * 1000 < cursorMs <= toS * 1000
    ensures SpanFloorS(newestMs) * 1000 <= fromS * 1000
    ensures clips <==> cursorMs / 1000 - widthS < SpanFloorS(newestMs)
    ensures clips ==> fromS == Max(0, SpanFloorS(newestMs))
    ensures cursorMs % 1000 == 0 && widthS == 3600 ==>
      clips || fromS == 0 || cursorMs - fromS * 1000 == SESSION_GAP_MS
  {
    toS := CeilSeconds(cursorMs);
    fromS := Max(0, Max(cursorMs / 1000 - widthS, SpanFloorS(newestMs)));
    clips := cursorMs / 1000 - widthS < SpanFloorS(newestMs);
  }

  /** No print within a session gap before the oldest one kept. */
  ghost predicate OpensSession(record: seq<Tick>, firstMs: int) {
    var n := Below(record, firstMs);
    n > 0 ==> firstMs - record[n - 1].ms >= SESSION_GAP_MS
  }

  lemma NewestIsHeld(record: seq<Tick>, lo: int, newestMs: int)
    requires Sorted(record) && lo <= newestMs
    requires exists i :: 0 <= i < |record| && record[i].ms == newestMs
    ensures Prints(record, lo, newestMs + 1) != []
  {
    var i :| 0 <= i < |record| && record[i].ms == newestMs;
    BelowMonotone(record, lo, newestMs + 1);
    BelowAt(record, lo, i + 1);
    BelowAt(record, newestMs + 1, i);
  }

  /** A whole empty window under what is in hand is a closed market. */
  lemma EmptyWindowIsABreak(record: seq<Tick>, lo: int, cursorMs: int, hi: int)
    requires Sorted(record) && forall i :: 0 <= i < |record| ==> 0 <= record[i].ms
    requires lo <= cursorMs <= hi && (lo == 0 || cursorMs - lo == SESSION_GAP_MS)
    requires Prints(record, lo, cursorMs) == [] && Prints(record, cursorMs, hi) != []
    ensures OpensSession(record, Prints(record, cursorMs, hi)[0].ms)
  {
    var n := Below(record, cursorMs);
    BelowMonotone(record, lo, cursorMs);
    BelowMonotone(record, cursorMs, hi);
    BelowIs(record, record[n].ms, n);
  }

  /** A break inside a window cuts the session there. */
  lemma BreakInsideWindow(record: seq<Tick>, lo: int, mid: int, hi: int, edge: nat)
    requires Sorted(record) && lo <= mid <= hi
    requires BreakAt(Prints(record, lo, mid), SESSION_GAP_MS, edge)
    ensures var older := Prints(record, lo, mid);
      var stamp := older[edge].ms;
      && lo <= stamp < mid
      && older[edge..] + Prints(record, mid, hi) == Prints(record, stamp, hi)
      && OpensSession(record, stamp)
  {
    var stamp := Prints(record, lo, mid)[edge].ms;
    LoadOlder.TrimKeepsStretch(record, lo, mid, edge);
    PrintsJoin(record, stamp, mid, hi);
    BreakOpensSession(record, lo, mid, edge);
  }

  lemma BreakOpensSession(record: seq<Tick>, lo: int, mid: int, edge: nat)
    requires Sorted(record) && lo <= mid
    requires BreakAt(Prints(record, lo, mid), SESSION_GAP_MS, edge)
    ensures OpensSession(record, Prints(record, lo, mid)[edge].ms)
  {
    BelowMonotone(record, lo, mid);
    var i := Below(record, lo) + edge;
    assert record[i] == Prints(record, lo, mid)[edge] && record[i - 1] == Prints(record, lo, mid)[edge - 1];
    BelowIs(record, record[i].ms, i);
  }

  /** What the walk holds: exactly the record from `fromMs` to the newest print. */
  ghost predicate InHand(record: seq<Tick>, windows: seq<seq<Tick>>, fromMs: int, newestMs: int) {
    fromMs <= newestMs + 1 && Joined(windows) == Prints(record, fromMs, newestMs + 1)
  }

  /** What one window of the walk did. `fromMs` is the instant now reached. A stop on
      the session's edge has a full gap below what is held or, where the span cut the
      window short, nothing left within the span. */
  ghost predicate WindowDone(record: seq<Tick>, newestMs: int, windows: seq<seq<Tick>>, fromMs: int,
      stop: Option<Stop>, clipped: bool)
  {
    && InHand(record, windows, fromMs, newestMs)
    && SpanFloorS(newestMs) * 1000 <= fromMs
    && (stop == Some(SessionEdge) && !clipped ==>
        Joined(windows) != [] && OpensSession(record, Joined(windows)[0].ms))
    && (stop == Some(SessionEdge) && clipped ==> Prints(record, SpanFloorS(newestMs) * 1000, fromMs) == [])
  }

  /** No print is stamped below zero, so the span below zero is empty. */
  lemma EmptyToTheSpan(record: seq<Tick>, newestMs: int, fromS: int, cursorMs: int)
    requires Sorted(record) && forall i :: 0 <= i < |record| ==> 0 <= record[i].ms
    requires fromS == Max(0, SpanFloorS(newestMs)) && fromS * 1000 <= cursorMs
    requires Prints(record, fromS * 1000, cursorMs) == []
    ensures Prints(record, SpanFloorS(newestMs) * 1000, cursorMs) == []
  {
    if SpanFloorS(newestMs) < 0 {
      PrintsJoin(record, SpanFloorS(newestMs) * 1000, 0, cursorMs);
      BelowIs(record, 0, 0);
    }
  }

  lemma {:induction false} EmptyWindow(record: seq<Tick>, newestMs: int, windows: seq<seq<Tick>>, lo: int, cursorMs: int, clipped: bool)
    requires Sorted(record) && forall i :: 0 <= i < |record| ==> 0 <= record[i].ms
    requires exists i :: 0 <= i < |record| && record[i].ms == newestMs
    requires InHand(record, windows, cursorMs, newestMs)
    requires lo < cursorMs && SpanFloorS(newestMs) * 1000 <= lo && Prints(record, lo, cursorMs) == []
    requires cursorMs == newestMs + 1 || Joined(windows) != []
    requires cursorMs == newestMs + 1 || clipped || lo == 0 || cursorMs - lo == SESSION_GAP_MS
    requires clipped ==> Prints(record, SpanFloorS(newestMs) * 1000, cursorMs) == []
    ensures WindowDone(record, newestMs, windows, cursorMs, Some(SessionEdge), clipped)
  {
    hide Sorted, Below, Prints, OpensSession;
    if cursorMs == newestMs + 1 {
      NewestIsHeld(record, lo, newestMs);
    } else if !clipped {
      EmptyWindowIsABreak(record, lo, cursorMs, newestMs + 1);
    }
  }

  lemma CutWindow(record: seq<Tick>, newestMs: int, windows: seq<seq<Tick>>, lo: int, cursorMs: int, edge: nat)
    requires Sorted(record) && InHand(record, windows, cursorMs, newestMs)
    requires lo < cursorMs && SpanFloorS(newestMs) * 1000 <= lo
    requires BreakAt(Prints(record, lo, cursorMs), SESSION_GAP_MS, edge)
    ensures var older := Prints(record, lo, cursorMs);
      WindowDone(record, newestMs, windows + [older[edge..]], older[edge].ms, Some(SessionEdge), false)
      && older[edge].ms < cursorMs
  {
    BreakInsideWindow(record, lo, cursorMs, newestMs + 1, edge);
    JoinedAppend(windows, Prints(record, lo, cursorMs)[edge..]);
  }

  lemma {:induction false} WholeWindow(record: seq<Tick>, newestMs: int, windows: seq<seq<Tick>>, lo: int, cursorMs: int)
    requires InHand(record, windows, cursorMs, newestMs)
    requires lo < cursorMs && SpanFloorS(newestMs) * 1000 <= lo && Prints(record, lo, cursorMs) != []
    ensures var after := windows + [Prints(record, lo, cursorMs)];
      WindowDone(record, newestMs, after, lo, None, false) && |Joined(windows)| < |Joined(after)|
  {
    PrintsJoin(record, lo, cursorMs, newestMs + 1);
    JoinedAppend(windows, Prints(record, lo, cursorMs));
  }

  /** One window of the walk: kept whole, cut at its newest break, or proof that
      the session began above it. */
  method WalkWindow(record: seq<Tick>, newestMs: int, windows: seq<seq<Tick>>, cursorMs: int, widthS: nat)
    returns (after: seq<seq<Tick>>, fromMs: int, stop: Option<Stop>, clipped: bool)
    requires Sorted(record) && forall i :: 0 <= i < |record| ==> 0 <= record[i].ms
    requires exists i :: 0 <= i < |record| && record[i].ms == newestMs
    requires InHand(record, windows, cursorMs, newestMs)
    requires newestMs - WALK_MAX_SPAN_MS < cursorMs && 0 < cursorMs && widthS >= 3600
    requires cursorMs == newestMs + 1 || (cursorMs % 1000 == 0 && widthS == 3600 && Joined(windows) != [])
    ensures WindowDone(record, newestMs, after, fromMs, stop, clipped)
    ensures stop == None || stop == Some(SessionEdge)
    ensures fromMs <= cursorMs
    ensures stop == None ==> fromMs < cursorMs && fromMs % 1000 == 0 && |Joined(windows)| < |Joined(after)|
  {
    hide Sorted, Below, Prints, OpensSession, WindowDone, Joined, InHand, SpanFloorS;
    var fromS, toS, clips := WindowSeconds(newestMs, cursorMs, widthS);
    after, fromMs, stop, clipped := windows, cursorMs, None, false;
    var older := AskWindow(record, fromS, toS, cursorMs);
    if |older| == 0 {
      stop, clipped := Some(SessionEdge), clips;
      if clips {
        EmptyToTheSpan(record, newestMs, fromS, cursorMs);
      }
      EmptyWindow(record, newestMs, windows, fromS * 1000, cursorMs, clipped);
      return;
    }
    var edge := SessionEdgeIn(older, SESSION_GAP_MS);
    if edge > 0 {
      CutWindow(record, newestMs, windows, fromS * 1000, cursorMs, edge);
      after, fromMs, stop := windows + [older[edge..]], older[edge].ms, Some(SessionEdge);
      return;
    }
    WholeWindow(record, newestMs, windows, fromS * 1000, cursorMs);
    after, fromMs := windows + [older], fromS * 1000;
  }

  lemma NothingHeld(record: seq<Tick>, newestMs: int)
    ensures WindowDone(record, newestMs, [], newestMs + 1, None, false)
    ensures Prints(record, newestMs + 1, newestMs + 1) == []
  {
  }

  lemma {:induction false} WindowMeans(record: seq<Tick>, newestMs: int, windows: seq<seq<Tick>>, fromMs: int, stop: Option<Stop>, clipped: bool)
    requires WindowDone(record, newestMs, windows, fromMs, stop, clipped)
    ensures InHand(record, windows, fromMs, newestMs)
    ensures fromMs <= newestMs + 1 && Joined(windows) == Prints(record, fromMs, newestMs + 1)
    ensures SpanFloorS(newestMs) * 1000 <= fromMs
    ensures stop == Some(SessionEdge) && !clipped ==>
      Joined(windows) != [] && OpensSession(record, Joined(windows)[0].ms)
    ensures stop == Some(SessionEdge) && clipped ==> Prints(record, SpanFloorS(newestMs) * 1000, fromMs) == []
    ensures stop != Some(SessionEdge) ==> WindowDone(record, newestMs, windows, fromMs, None, false)
  {
  }

  /** `session_ticks`: the walk back from the newest print. `fromMs` is the instant
      below which nothing was kept, and the last window was asked below `askedMs`:
      no window is asked once a limit is reached. */
  method SessionTicks(record: seq<Tick>, newestMs: int, floor: Option<int>, maxTicks: int,
      backfillMinutes: int, refusals: set<nat>)
    returns (ticks: seq<Tick>, spent: nat, stop: Stop, clipped: bool, ghost fromMs: int, ghost askedMs: int)
    requires Sorted(record) && forall i :: 0 <= i < |record| ==> 0 <= record[i].ms
    requires exists i :: 0 <= i < |record| && record[i].ms == newestMs
    ensures fromMs <= newestMs + 1 && ticks == Prints(record, fromMs, newestMs + 1)
    ensures SpanFloorS(newestMs) * 1000 <= fromMs
    ensures spent <= WALK_MAX_WINDOWS + 1
    ensures stop == SessionEdge && !clipped ==> ticks != [] && OpensSession(record, ticks[0].ms)
    ensures stop == SessionEdge && clipped ==> Prints(record, SpanFloorS(newestMs) * 1000, fromMs) == []
    ensures spent > 0 ==>
      && fromMs <= askedMs <= newestMs + 1 && |Prints(record, askedMs, newestMs + 1)| < Max(1, maxTicks)
      && askedMs > 0 && askedMs > newestMs - WALK_MAX_SPAN_MS && !(floor.Some? && askedMs <= floor.value)
    ensures stop in {Cap, SessionEdge, TerminalError} ==> spent > 0
    ensures forall k :: 1 <= k <= spent && k in refusals ==> k == spent && stop == TerminalError
    ensures stop == Cap ==> |ticks| >= Max(1, maxTicks)
    ensures stop == Span ==> fromMs <= newestMs - WALK_MAX_SPAN_MS
    ensures stop == TerminalFloor ==> floor.Some? && fromMs <= floor.value
    ensures stop == Epoch ==> fromMs <= 0
    ensures stop == TerminalError ==> spent in refusals
    ensures stop == Budget ==> spent == WALK_MAX_WINDOWS + 1
  {
    hide Sorted, Below, Prints, OpensSession, WindowDone, Joined, InHand;
    var cap := Max(1, maxTicks);
    var widthS := Max(backfillMinutes * 60, SESSION_GAP_MS / 1000);
    var windows: seq<seq<Tick>> := [];
    var cursorMs := newestMs + 1;
    stop, spent, clipped, fromMs, askedMs := Budget, 0, false, cursorMs, cursorMs;
    NothingHeld(record, newestMs);
    WindowMeans(record, newestMs, windows, cursorMs, None, false);
    while spent < WALK_MAX_WINDOWS + 1
      invariant spent <= WALK_MAX_WINDOWS + 1 && widthS >= 3600 && stop == Budget
      invariant fromMs == cursorMs <= newestMs + 1 && |Prints(record, cursorMs, newestMs + 1)| < cap
      invariant forall k :: 1 <= k <= spent ==> k !in refusals
      invariant spent > 0 ==>
        && fromMs <= askedMs <= newestMs + 1 && |Prints(record, askedMs, newestMs + 1)| < cap
        && askedMs > 0 && askedMs > newestMs - WALK_MAX_SPAN_MS && !(floor.Some? && askedMs <= floor.value)
      invariant WindowDone(record, newestMs, windows, cursorMs, None, false) && InHand(record, windows, cursorMs, newestMs)
      invariant Joined(windows) == Prints(record, cursorMs, newestMs + 1) && SpanFloorS(newestMs) * 1000 <= cursorMs
      invariant cursorMs == newestMs + 1 || (cursorMs % 1000 == 0 && widthS == 3600 && Joined(windows) != [])
    {
      if cursorMs <= 0 { stop := Epoch; break; }
      if cursorMs <= newestMs - WALK_MAX_SPAN_MS { stop := Span; break; }
      if floor.Some? && cursorMs <= floor.value { stop := TerminalFloor; break; }
      spent, askedMs := spent + 1, cursorMs;
      if spent in refusals { stop := TerminalError; break; }
      var reached, ended;
      windows, reached, ended, clipped := WalkWindow(record, newestMs, windows, cursorMs, widthS);
      WindowMeans(record, newestMs, windows, reached, ended, clipped);
      fromMs := reached;
      if ended.Some? { stop := ended.value; break; }
      cursorMs, widthS := reached, SESSION_GAP_MS / 1000;
      if |Joined(windows)| >= cap { stop := Cap; break; }
    }
    ticks := Joined(windows);
  }
}
