/** One pump pass: rounds that keep asking while answers come back full. */
module PumpLoop {
  import opened Terminal
  import opened Pump

  /** What one request is answered with: the record as the terminal then holds
      it, nothing, or nothing from a terminal that has gone away. */
  datatype Answer = Held(record: seq<Tick>) | Unanswered | Lost

  datatype PassEnd = Drained | NoAnswer | TooDense | RoundLimit | TerminalLost

  /** The terminal only ever appends to its record. */
  ghost predicate Growing(record: seq<Tick>, answers: seq<Answer>) {
    && (forall k :: 0 <= k < |answers| && answers[k].Held? ==> record <= answers[k].record && Sorted(answers[k].record))
    && (forall j, k :: 0 <= j < k < |answers| && answers[j].Held? && answers[k].Held? ==>
          answers[j].record <= answers[k].record)
  }

  /** The record the terminal was last seen to hold. */
  ghost function Latest(record: seq<Tick>, answers: seq<Answer>): seq<Tick> {
    if answers == [] then record
    else
      var last := answers[|answers| - 1];
      if last.Held? then last.record else Latest(record, answers[..|answers| - 1])
  }

  lemma {:induction false} LatestGrows(record: seq<Tick>, answers: seq<Answer>, n: nat)
    requires Sorted(record) && Growing(record, answers) && n <= |answers|
    ensures var latest := Latest(record, answers[..n]);
      && record <= latest && Sorted(latest) && Growing(latest, answers[n..])
    decreases n
  {
    if n > 0 {
      LatestGrows(record, answers, n - 1);
      assert answers[..n][..n - 1] == answers[..n - 1];
      var before, latest := Latest(record, answers[..n - 1]), Latest(record, answers[..n]);
      forall k | n <= k < |answers| && answers[k].Held?
        ensures latest <= answers[k].record && Sorted(answers[k].record)
      {
        assert answers[n - 1..][k - (n - 1)] == answers[k];
      }
    } else {
      assert answers[0..] == answers;
    }
  }

  /** The first print of a later millisecond lies within the deepest request
      from the start of the cursor's second. */
  ghost predicate WithinReach(record: seq<Tick>, cursor: Cursor) {
    var n := Below(record, cursor.ms + 1);
    n < |record| && n - Below(record, cursor.ms / 1000 * 1000) < MAX_TICKS_PER_REQUEST
  }

  lemma {:induction false} CountIsSpan(record: seq<Tick>, ms: int)
    requires Sorted(record)
    ensures CountAt(record, ms) == Below(record, ms + 1) - Below(record, ms)
  {
    if |record| > 0 {
      var n := |record| - 1;
      var rest := record[..n];
      CountIsSpan(rest, ms);
      BelowPrefix(record, ms);
      BelowPrefix(record, ms + 1);
    }
  }

  lemma BelowPrefix(record: seq<Tick>, ms: int)
    requires Sorted(record) && |record| > 0
    ensures var n := |record| - 1;
      Below(record, ms) == if record[n].ms < ms then n + 1 else Below(record[..n], ms)
  {
    var n := |record| - 1;
    if ms <= record[n].ms {
      BelowAt(record[..n], ms, Below(record[..n], ms));
      BelowIs(record, ms, Below(record[..n], ms));
    } else {
      BelowIs(record, ms, n + 1);
    }
  }

  /** Growth at the right edge moves no count a print already stands past. */
  lemma BelowGrows(record: seq<Tick>, grown: seq<Tick>, ms: int)
    requires Sorted(grown) && record <= grown
    ensures Sorted(record) && Below(record, ms) <= Below(grown, ms)
    ensures Below(record, ms) < |record| ==> Below(grown, ms) == Below(record, ms)
  {
    assert forall i :: 0 <= i < |record| ==> record[i] == grown[i];
    var n := Below(record, ms);
    if n < |record| {
      BelowIs(grown, ms, n);
    } else {
      BelowAt(grown, ms, n);
    }
  }

  lemma NamesGrow(record: seq<Tick>, grown: seq<Tick>, cursor: Cursor)
    requires Names(record, cursor) && Sorted(grown) && record <= grown
    ensures Names(grown, cursor)
    ensures cursor.sent > 0 ==> Index(grown, cursor) == Index(record, cursor)
  {
    hide Sorted, BelowWithin;
    BelowGrows(record, grown, cursor.ms);
    BelowGrows(record, grown, cursor.ms + 1);
    BelowMonotone(grown, cursor.ms, cursor.ms + 1);
  }

  lemma RepeatsInside(record: seq<Tick>, a: nat, b: nat, ms: int)
    requires a <= b <= |record| && Repeats(record[a..b], ms)
    ensures Repeats(record, ms)
  {
    var i :| 0 < i < b - a && SameMs(record[a..b], i) && ms < record[a..b][i].ms;
    assert SameMs(record, a + i);
  }

  lemma DistinctAbove(record: seq<Tick>, lo: int, hi: int)
    requires lo <= hi && !Repeats(record, lo)
    ensures !Repeats(record, hi)
  {
  }

  /** What was forwarded since `start`, once the record holds `record`. */
  ghost predicate ForwardedSince(record: seq<Tick>, start: Cursor, before: seq<Tick>, cursor: Cursor, wire: seq<Tick>) {
    && start.ms <= cursor.ms && (cursor != start ==> cursor.sent > 0)
    && Index(record, start) <= Index(record, cursor) <= |record|
    && wire == before + record[Index(record, start)..Index(record, cursor)]
  }

  lemma ForwardedGrows(record: seq<Tick>, grown: seq<Tick>, start: Cursor, before: seq<Tick>, cursor: Cursor, wire: seq<Tick>)
    requires Names(record, start) && Names(record, cursor) && Sorted(grown) && record <= grown
    requires ForwardedSince(record, start, before, cursor, wire)
    ensures ForwardedSince(grown, start, before, cursor, wire)
  {
    hide Sorted, BelowWithin;
    NamesGrow(record, grown, start);
    NamesGrow(record, grown, cursor);
    if cursor != start {
      BelowMonotone(record, start.ms, cursor.ms);
      BelowGrows(record, grown, start.ms);
      assert grown[Index(record, start)..Index(record, cursor)] == record[Index(record, start)..Index(record, cursor)];
    }
  }

  /** A round over a batch with no repeated millisecond carries the stretch on
      to the end of the batch. */
  lemma {:induction false} RoundCarriesOn(record: seq<Tick>, a: nat, b: nat, start: Cursor, before: seq<Tick>, cursor: Cursor, wire: seq<Tick>)
    requires Names(record, cursor) && a <= b <= |record| && a <= Below(record, cursor.ms)
    requires ForwardedSince(record, start, before, cursor, wire)
    requires !Repeats(record, start.ms)
    ensures var after := Round(wire, cursor, record[a..b], 0);
      && ForwardedSince(record, start, before, after.cursor, after.wire)
      && (b == |record| ==> Index(record, after.cursor) == |record|)
  {
    DistinctAbove(record, start.ms, cursor.ms);
    DistinctRound(record, a, b, cursor, wire);
    var s, p := Index(record, start), Index(record, cursor);
    if p < b {
      JoinAfter(before, record, s, p, b);
    }
  }

  lemma {:induction false} DistinctRound(record: seq<Tick>, a: nat, b: nat, cursor: Cursor, wire: seq<Tick>)
    requires Names(record, cursor) && a <= b <= |record| && a <= Below(record, cursor.ms)
    requires !Repeats(record, cursor.ms)
    ensures var after := Round(wire, cursor, record[a..b], 0);
      var p := Index(record, cursor);
      if p < b then
        && after.wire == wire + record[p..b] && Index(record, after.cursor) == b
        && cursor.ms <= after.cursor.ms && after.cursor.sent > 0
      else after.wire == wire && after.cursor == cursor
  {
    if Repeats(record[a..b], cursor.ms) {
      RepeatsInside(record, a, b, cursor.ms);
    }
    SortedSlice(record, a, b);
    RoundsCompared(wire, cursor, record[a..b]);
    RestartAtOneIsExact(wire, cursor, record, a, b);
    ExactIndex(record, cursor, wire, b, Round(wire, cursor, record[a..b], 1));
  }

  lemma JoinAfter(before: seq<Tick>, record: seq<Tick>, s: nat, p: nat, b: nat)
    requires s <= p <= b <= |record|
    ensures before + record[s..p] + record[p..b] == before + record[s..b]
  {
  }

  lemma ExactIndex(record: seq<Tick>, cursor: Cursor, wire: seq<Tick>, b: nat, scan: Scan)
    requires b <= |record| && Exact(record, cursor, wire, b, scan)
    ensures Index(record, cursor) < b ==> Index(record, scan.cursor) == b && scan.cursor.sent > 0
  {
  }

  /** The request depth after `rounds` rounds that forwarded nothing. */
  function Depth(rounds: nat): (count: nat)
    ensures TICKS_PER_ROUND <= count <= MAX_TICKS_PER_REQUEST
  {
    if rounds == 0 then TICKS_PER_ROUND
    else if 2 * Depth(rounds - 1) < MAX_TICKS_PER_REQUEST then 2 * Depth(rounds - 1)
    else MAX_TICKS_PER_REQUEST
  }

  lemma DepthStep(rounds: nat)
    ensures Depth(0) == TICKS_PER_ROUND
    ensures rounds > 0 ==>
      Depth(rounds) == if Depth(rounds - 1) * 2 < MAX_TICKS_PER_REQUEST then Depth(rounds - 1) * 2 else MAX_TICKS_PER_REQUEST
  {
  }

  /** Ten doublings reach the ceiling. */
  lemma DeepestByTen()
    ensures Depth(10) == MAX_TICKS_PER_REQUEST
  {
    assert Depth(2) == 4 * 4096;
    assert Depth(4) == 16 * 4096;
    assert Depth(6) == 64 * 4096;
    assert Depth(8) == 256 * 4096;
    assert Depth(9) == 512 * 4096;
  }

  /** A request that reaches the first later print forwards something. */
  lemma {:induction false} ReachingForwards(wire: seq<Tick>, cursor: Cursor, record: seq<Tick>, count: nat)
    requires Sorted(record) && WithinReach(record, cursor)
    requires var batch := CopyTicksFrom(record, cursor.ms / 1000, count);
      |batch| < count || count == MAX_TICKS_PER_REQUEST
    ensures Round(wire, cursor, CopyTicksFrom(record, cursor.ms / 1000, count), 0).wire != wire
  {
    var batch := CopyTicksFrom(record, cursor.ms / 1000, count);
    var k := LaterPrintArrives(cursor, record, count);
    RoundForwards(wire, cursor, batch, 0);
    assert batch[k].ms <= Round(wire, cursor, batch, 0).cursor.ms;
  }

  lemma LaterPrintArrives(cursor: Cursor, record: seq<Tick>, count: nat) returns (k: nat)
    requires Sorted(record) && WithinReach(record, cursor)
    requires var batch := CopyTicksFrom(record, cursor.ms / 1000, count);
      |batch| < count || count == MAX_TICKS_PER_REQUEST
    ensures var batch := CopyTicksFrom(record, cursor.ms / 1000, count);
      k < |batch| && cursor.ms < batch[k].ms
  {
    hide BelowWithin;
    var start, n := Below(record, cursor.ms / 1000 * 1000), Below(record, cursor.ms + 1);
    BelowMonotone(record, cursor.ms / 1000 * 1000, cursor.ms + 1);
    k := n - start;
    StretchHolds(record, start, n, count);
  }

  lemma StretchHolds(record: seq<Tick>, start: nat, n: nat, count: nat)
    requires start <= n < |record| && (count < |record| - start ==> n - start < count)
    ensures var stretch := if count < |record| - start then record[start..start + count] else record[start..];
      n - start < |stretch| && stretch[n - start] == record[n]
  {
  }

  lemma ReachGrows(record: seq<Tick>, grown: seq<Tick>, cursor: Cursor)
    requires Sorted(grown) && record <= grown && WithinReach(record, cursor)
    ensures WithinReach(grown, cursor)
  {
    BelowGrows(record, grown, cursor.ms + 1);
    BelowMonotone(record, cursor.ms / 1000 * 1000, cursor.ms + 1);
    BelowGrows(record, grown, cursor.ms / 1000 * 1000);
  }

  /** The live half of a session: its cursor, and every live line it has sent. */
  class LivePump {
    var cursorMsc: int
    var sentAtCursor: nat
    var wire: seq<Tick>
    var roundLimits: nat
    ghost var record: seq<Tick>  // the terminal as last seen
    ghost var places: seq<nat>  // where in it each line of the wire stands

    function At(): Cursor
      reads this
    {
      Cursor(cursorMsc, sentAtCursor)
    }

    /** The cursor accounts for the wire and names prints the terminal holds,
        and every line of the wire is one of those prints. */
    ghost predicate Valid()
      reads this
    {
      && Accounted(wire, At()) && Names(record, At())
      && SentFrom([], record, places, wire)
    }

    /** Parked after an opening block that ends the record, as `send_backfill`
        leaves it. */
    constructor (block: seq<Tick>, ghost record: seq<Tick>, ghost from: nat, nowMs: int)
      requires Sorted(record) && from <= |record| && block == record[from..]
      requires 0 < from < |record| ==> record[from - 1].ms < record[from].ms
      ensures Valid() && this.record == record && wire == block
      ensures block != [] ==> Index(record, At()) == |record|
      ensures block == [] ==> At() == Cursor(nowMs, 0)
      ensures |places| == |block| && forall k :: 0 <= k < |places| ==> places[k] == from + k
    {
      hide SentFrom, Below, Accounted, Names, Sorted, CountAt, Index;
      this.record, wire, roundLimits := record, block, 0;
      places := seq(|record| - from, k requires 0 <= k => from + k);
      cursorMsc := if block == [] then nowMs else block[|block| - 1].ms;
      sentAtCursor := if block == [] then 0 else CountAt(block, block[|block| - 1].ms);
      new;
      BlockIsSent(record, from, places);
      if block == [] {
        EmptyIsNamed(record, nowMs);
      } else {
        BlockNamesTheEnd(record, from);
      }
    }

    /** One batch, print by print. */
    method SendBatch(batch: seq<Tick>, ghost held: seq<Tick>, ghost a: nat) returns (forwarded: nat)
      requires a + |batch| <= |held| && batch == held[a..a + |batch|]
      modifies `cursorMsc, `sentAtCursor, `wire, `places
      ensures var after := Round(old(wire), old(At()), batch, 0);
        At() == after.cursor && wire == after.wire && forwarded == |wire| - |old(wire)|
      ensures places == old(places) + Places(old(wire), old(At()), held, a, a + |batch|)
    {
      hide Places, Round;
      var seen := 0;
      forwarded := 0;
      NoPlaces(wire, At(), held, a);
      assert batch[..0] == [];
      for i := 0 to |batch|
        invariant Scan(At(), seen, wire) == Round(old(wire), old(At()), batch[..i], 0)
        invariant forwarded == |wire| - |old(wire)|
        invariant places == old(places) + Places(old(wire), old(At()), held, a, a + i)
      {
        var tick := batch[i];
        RoundAppend(old(wire), old(At()), batch[..i], tick, 0);
        assert batch[..i + 1] == batch[..i] + [tick];
        assert held[a..a + i] == batch[..i];
        NextPlace(old(wire), old(At()), held, a, a + i);
        if tick.ms < cursorMsc {
          continue;
        }
        if tick.ms == cursorMsc {
          seen := seen + 1;
          if seen <= sentAtCursor {
            continue;
          }
          wire, places := wire + [tick], places + [a + i];
          sentAtCursor := sentAtCursor + 1;
          forwarded := forwarded + 1;
        } else {
          wire, places := wire + [tick], places + [a + i];
          cursorMsc, sentAtCursor, seen := tick.ms, 1, 0;
          forwarded := forwarded + 1;
        }
      }
      assert batch[..|batch|] == batch;
    }

    /** One request and its batch. */
    method SendRound(held: seq<Tick>, count: nat, ghost start: Cursor, ghost before: seq<Tick>)
      returns (full: bool, forwarded: nat)
      requires Valid() && record <= held && Sorted(held) && count <= MAX_TICKS_PER_REQUEST
      requires Names(record, start) && Delivers(record, start, before, At(), wire)
      modifies `cursorMsc, `sentAtCursor, `wire, `record, `places
      ensures Valid() && record == held && old(wire) <= wire && old(cursorMsc) <= cursorMsc
      ensures Onward(old(record), old(At()), old(places), held, At(), places)
      ensures old(places) <= places && Ascends(places[|old(places)|..], Index(old(record), old(At())), |held|)
      ensures Names(held, start) && Delivers(held, start, before, At(), wire)
      ensures forwarded == |wire| - |old(wire)|
      ensures forwarded == 0 ==> At() == old(At())
      ensures WithinReach(held, old(At())) && (!full || count == MAX_TICKS_PER_REQUEST) ==> forwarded > 0
      ensures !full ==> AllDelivered(held, start, At())
    {
      hide Repeats, Sorted, Accounted, ForwardedSince, Delivers, Names, AllDelivered, WithinReach, Index, Below, Round,
           Places, SentFrom, Onward, Ascends;
      var batch := CopyTicksFrom(held, cursorMsc / 1000, count);
      ghost var a := Below(held, cursorMsc / 1000 * 1000);
      assert batch == held[a..a + |batch|];
      BelowMonotone(held, cursorMsc / 1000 * 1000, cursorMsc);
      DeliversGrows(record, held, start, before, At(), wire);
      RoundDelivers(held, a, a + |batch|, start, before, At(), wire);
      RoundKeepsBooks(record, held, a, a + |batch|, At(), wire);
      RoundKeepsPlaces(record, held, a, a + |batch|, At(), wire, places);
      if WithinReach(held, At()) && (|batch| < count || count == MAX_TICKS_PER_REQUEST) {
        ReachingForwards(wire, At(), held, count);
      }
      RoundForwards(wire, At(), batch, 0);
      ghost var more := Places(wire, At(), held, a, a + |batch|);
      forwarded := SendBatch(batch, held, a);
      AppendedTail(old(places), more);
      record := held;
      full := |batch| >= count;
    }

    /** `pump_ticks`. `productive` is the first round that forwarded anything. */
    method PumpTicks(answers: seq<Answer>) returns (rounds: nat, productive: nat, end: PassEnd)
      requires Valid() && |answers| == MAX_ROUNDS && Growing(record, answers)
      modifies this
      ensures 1 <= rounds <= MAX_ROUNDS && record == Latest(old(record), answers[..rounds])
      ensures Valid() && old(wire) <= wire && old(cursorMsc) <= cursorMsc
      ensures Onward(old(record), old(At()), old(places), record, At(), places)
      ensures roundLimits == old(roundLimits) + if end == RoundLimit then 1 else 0
      ensures Names(record, old(At())) && Delivers(record, old(At()), old(wire), At(), wire)
      ensures end == Drained ==> AllDelivered(record, old(At()), At())
      ensures (forall k :: 0 <= k < 11 ==> answers[k].Held?) && WithinReach(answers[0].record, old(At()))
        ==> 1 <= productive <= 11 && |old(wire)| < |wire|
    {
      hide Repeats, Sorted, Accounted, ForwardedSince, Below, Index, WithinReach, Delivers, Names, AllDelivered, Depth,
           SentFrom, Onward, Ascends, Latest;
      rounds, productive := 0, 0;
      NothingDelivered(record, At(), wire);
      NothingSent(record, At(), places);
      LatestOfNone(record, answers[..0]);
      var count: nat := TICKS_PER_ROUND;
      DepthStep(0);
      ghost var reachable := (forall k :: 0 <= k < 11 ==> answers[k].Held?) && WithinReach(answers[0].record, At());
      DeepestByTen();
      while rounds < MAX_ROUNDS
        invariant rounds <= MAX_ROUNDS && Valid() && record == Latest(old(record), answers[..rounds])
        invariant old(record) <= record && old(wire) <= wire
        invariant Onward(old(record), old(At()), old(places), record, At(), places)
        invariant old(cursorMsc) <= cursorMsc && roundLimits == old(roundLimits)
        invariant count <= MAX_TICKS_PER_REQUEST
        invariant forall k :: rounds <= k < MAX_ROUNDS && answers[k].Held? ==> record <= answers[k].record
        invariant Names(record, old(At())) && Delivers(record, old(At()), old(wire), At(), wire)
        invariant productive == 0 ==> At() == old(At()) && wire == old(wire) && count == Depth(rounds)
        invariant productive > 0 ==> |old(wire)| < |wire|
        invariant reachable ==> productive <= 11 && (productive == 0 ==> rounds < 11)
      {
        LatestStep(old(record), answers, rounds);
        rounds := rounds + 1;
        var answer := answers[rounds - 1];
        if answer.Lost? {
          return rounds, productive, TerminalLost;
        }
        if answer.Unanswered? {
          return rounds, productive, NoAnswer;
        }
        if reachable && productive == 0 {
          ReachGrows(answers[0].record, answer.record, At());
        }
        ghost var seen, at, sent := record, At(), places;
        var full, forwarded := SendRound(answer.record, count, old(At()), old(wire));
        OnwardStep(old(record), old(At()), old(places), seen, at, sent, record, At(), places);
        if productive == 0 && forwarded > 0 {
          productive := rounds;
        }
        if !full {
          return rounds, productive, Drained;
        }
        DepthStep(rounds);
        if forwarded == 0 {
          if count >= MAX_TICKS_PER_REQUEST {
            return rounds, productive, TooDense;
          }
          count := if count * 2 < MAX_TICKS_PER_REQUEST then count * 2 else MAX_TICKS_PER_REQUEST;
        }
      }
      roundLimits := roundLimits + 1;
      end := RoundLimit;
    }

    /** Pass after pass over the terminal's answers, until it goes away. */
    method PumpPasses(answers: seq<Answer>) returns (passes: nat, end: PassEnd)
      requires Valid() && MAX_ROUNDS <= |answers| && Growing(record, answers)
      modifies this
      ensures Valid() && old(record) <= record && old(wire) <= wire && old(cursorMsc) <= cursorMsc
      ensures Onward(old(record), old(At()), old(places), record, At(), places)
      ensures end == TerminalLost || passes == |answers| / MAX_ROUNDS
    {
      hide Sorted, Accounted, Names, SentFrom, Onward, Growing, Latest, Index, Delivers, AllDelivered, WithinReach;
      passes, end := 0, NoAnswer;
      var rest := answers;
      NothingSent(record, At(), places);
      while MAX_ROUNDS <= |rest| && end != TerminalLost
        invariant Valid() && Growing(record, rest) && |answers| == MAX_ROUNDS * passes + |rest|
        invariant old(record) <= record && old(wire) <= wire && old(cursorMsc) <= cursorMsc
        invariant Onward(old(record), old(At()), old(places), record, At(), places)
        decreases |rest|
      {
        ghost var seen, at, sent := record, At(), places;
        GrowingPart(record, rest, MAX_ROUNDS);
        NamesMeansSorted(record, At());
        var rounds, productive;
        rounds, productive, end := PumpTicks(rest[..MAX_ROUNDS]);
        assert rest[..MAX_ROUNDS][..rounds] == rest[..rounds];
        LatestGrows(seen, rest, rounds);
        NothingGoesBack(record, rest, rounds, MAX_ROUNDS);
        OnwardStep(old(record), old(At()), old(places), seen, at, sent, record, At(), places);
        rest, passes := rest[MAX_ROUNDS..], passes + 1;
      }
    }
  }

  /** A session opened on a block and pumped through any answers never sends a
      print of the block again: every later line stands past the block's end.
      Opened without a block, it sends nothing stamped before the opening. */
  method OpenAndPump(block: seq<Tick>, ghost record: seq<Tick>, ghost from: nat, nowMs: int, answers: seq<Answer>)
    returns (pump: LivePump)
    requires Sorted(record) && from <= |record| && block == record[from..]
    requires 0 < from < |record| ==> record[from - 1].ms < record[from].ms
    requires MAX_ROUNDS <= |answers| && Growing(record, answers)
    ensures fresh(pump) && pump.Valid() && record <= pump.record && block <= pump.wire
    ensures var first := if block == [] then Below(record, nowMs) else |record|;
      forall k :: |block| <= k < |pump.wire| ==>
        first <= pump.places[k] < |pump.record| && pump.wire[k] == pump.record[pump.places[k]]
  {
    hide Sorted, Accounted, Names, Below, Growing, Index;
    if block == [] {
      IndexOfNone(record, nowMs);
    }
    pump := new LivePump(block, record, from, nowMs);
    var passes, end := pump.PumpPasses(answers);
  }

  lemma IndexOfNone(record: seq<Tick>, ms: int)
    ensures Index(record, Cursor(ms, 0)) == Below(record, ms)
  {
  }

  lemma NamesMeansSorted(record: seq<Tick>, cursor: Cursor)
    requires Names(record, cursor)
    ensures Sorted(record)
  {
  }

  lemma GrowingPart(record: seq<Tick>, answers: seq<Answer>, n: nat)
    requires Growing(record, answers) && n <= |answers|
    ensures Growing(record, answers[..n])
  {
  }

  /** Answers a pass did not need are passed over. */
  lemma NothingGoesBack(record: seq<Tick>, answers: seq<Answer>, m: nat, n: nat)
    requires m <= n <= |answers| && Growing(record, answers[m..])
    ensures Growing(record, answers[n..])
  {
    assert answers[n..] == answers[m..][n - m..];
  }

  /** From one cursor to a later one: every print sent since stands at or past
      the first cursor's index, and the later index is no smaller. */
  ghost predicate Onward(record: seq<Tick>, start: Cursor, before: seq<nat>,
                         grown: seq<Tick>, cursor: Cursor, places: seq<nat>) {
    && before <= places && Index(record, start) <= Index(grown, cursor)
    && forall k :: |before| <= k < |places| ==> Index(record, start) <= places[k]
  }

  lemma NothingSent(record: seq<Tick>, start: Cursor, places: seq<nat>)
    ensures Onward(record, start, places, record, start, places)
  {
  }

  lemma OnwardStep(record: seq<Tick>, start: Cursor, before: seq<nat>, seen: seq<Tick>, at: Cursor, sent: seq<nat>,
                   grown: seq<Tick>, cursor: Cursor, places: seq<nat>)
    requires Onward(record, start, before, seen, at, sent) && Onward(seen, at, sent, grown, cursor, places)
    ensures Onward(record, start, before, grown, cursor, places)
  {
    hide Index;
  }

  lemma {:induction false} LatestOfNone(record: seq<Tick>, none: seq<Answer>)
    requires none == []
    ensures Latest(record, none) == record
  {
  }

  lemma {:induction false} LatestStep(record: seq<Tick>, answers: seq<Answer>, k: nat)
    requires k < |answers|
    ensures Latest(record, answers[..k + 1])
         == if answers[k].Held? then answers[k].record else Latest(record, answers[..k])
  {
    assert answers[..k + 1][..k] == answers[..k];
  }

  /** What a round over a grown record forwards: prints at or past the cursor's
      index, each at most once. */
  lemma {:induction false} RoundKeepsPlaces(record: seq<Tick>, held: seq<Tick>, a: nat, b: nat, cursor: Cursor, wire: seq<Tick>,
                         places: seq<nat>)
    requires Names(record, cursor) && SentFrom([], record, places, wire)
    requires Sorted(held) && record <= held && a <= b <= |held| && a <= Below(held, cursor.ms)
    ensures var after, more := Round(wire, cursor, held[a..b], 0), Places(wire, cursor, held, a, b);
      && SentFrom([], held, places + more, after.wire)
      && Onward(record, cursor, places, held, after.cursor, places + more)
      && Ascends(more, Index(record, cursor), |held|)
  {
    IndexGrows(record, held, cursor);
    RoundNeverGoesBack(wire, cursor, held, a, b);
    RoundMovesOn(wire, cursor, held, held[a..b]);
    hide Sorted, Names, Below, Round, Places, SentFrom, Index, Onward, Ascends;
    FurtherOn(record, held, b, cursor, Round(wire, cursor, held[a..b], 0).cursor, places, Places(wire, cursor, held, a, b));
    SentJoins(record, held, places, wire, Places(wire, cursor, held, a, b), Round(wire, cursor, held[a..b], 0).wire);
  }

  lemma FurtherOn(record: seq<Tick>, held: seq<Tick>, b: nat, cursor: Cursor, after: Cursor,
                  places: seq<nat>, more: seq<nat>)
    requires b <= |held| && Index(record, cursor) <= Index(held, cursor) <= Index(held, after)
    requires Ascends(more, Index(held, cursor), b)
    ensures Onward(record, cursor, places, held, after, places + more)
    ensures Ascends(more, Index(record, cursor), |held|)
  {
    hide Index;
  }

  lemma IndexGrows(record: seq<Tick>, held: seq<Tick>, cursor: Cursor)
    requires Names(record, cursor) && Sorted(held) && record <= held
    ensures Names(held, cursor) && Index(record, cursor) <= Index(held, cursor)
  {
    NamesGrow(record, held, cursor);
    BelowGrows(record, held, cursor.ms);
  }

  lemma SentJoins(record: seq<Tick>, held: seq<Tick>, places: seq<nat>, wire: seq<Tick>, more: seq<nat>, after: seq<Tick>)
    requires SentFrom([], record, places, wire) && record <= held && SentFrom(wire, held, more, after)
    ensures SentFrom([], held, places + more, after)
  {
    assert |record| <= |held| && wire <= after;
    assert forall k :: 0 <= k < |places| ==> after[k] == wire[k] && record[places[k]] == held[places[k]];
  }

  lemma {:induction false} NoPlaces(wire: seq<Tick>, cursor: Cursor, record: seq<Tick>, a: nat)
    requires a <= |record|
    ensures Places(wire, cursor, record, a, a) == [] && Round(wire, cursor, [], 0) == Scan(cursor, 0, wire)
  {
  }

  lemma NextPlace(wire: seq<Tick>, cursor: Cursor, record: seq<Tick>, a: nat, b: nat)
    requires a <= b < |record|
    ensures Places(wire, cursor, record, a, b + 1)
         == Places(wire, cursor, record, a, b) + if Sends(Round(wire, cursor, record[a..b], 0), record[b]) then [b] else []
  {
  }

  lemma AppendedTail(places: seq<nat>, more: seq<nat>)
    ensures places <= places + more && (places + more)[|places|..] == more
  {
  }

  lemma BlockIsSent(record: seq<Tick>, from: nat, places: seq<nat>)
    requires from <= |record| && |places| == |record| - from
    requires forall k :: 0 <= k < |places| ==> places[k] == from + k
    ensures SentFrom([], record, places, record[from..])
  {
  }

  /** As long as no millisecond past `start` repeats, every print since then was
      forwarded once, in order. */
  ghost predicate Delivers(record: seq<Tick>, start: Cursor, before: seq<Tick>, cursor: Cursor, wire: seq<Tick>) {
    !Repeats(record, start.ms) ==> ForwardedSince(record, start, before, cursor, wire)
  }

  lemma NothingDelivered(record: seq<Tick>, start: Cursor, wire: seq<Tick>)
    requires Names(record, start)
    ensures Delivers(record, start, wire, start, wire)
  {
    assert wire + record[Index(record, start)..Index(record, start)] == wire;
  }

  lemma {:induction false} RoundKeepsBooks(record: seq<Tick>, held: seq<Tick>, a: nat, b: nat, cursor: Cursor, wire: seq<Tick>)
    requires Accounted(wire, cursor) && Names(record, cursor)
    requires Sorted(held) && record <= held && a <= b <= |held|
    ensures var after := Round(wire, cursor, held[a..b], 0);
      && Accounted(after.wire, after.cursor) && Names(held, after.cursor)
      && wire <= after.wire && cursor.ms <= after.cursor.ms
  {
    var after := Round(wire, cursor, held[a..b], 0);
    NamesGrow(record, held, cursor);
    RoundAccounts(wire, cursor, held[a..b], 0);
    NamesIsCount(held, cursor);
    RoundBounded(wire, cursor, held, a, b, 0);
    NamesIsCount(held, after.cursor);
  }

  lemma {:induction false} NamesIsCount(record: seq<Tick>, cursor: Cursor)
    requires Sorted(record)
    ensures Names(record, cursor) <==> cursor.sent <= CountAt(record, cursor.ms)
  {
    CountIsSpan(record, cursor.ms);
  }

  lemma DeliversGrows(record: seq<Tick>, held: seq<Tick>, start: Cursor, before: seq<Tick>, cursor: Cursor, wire: seq<Tick>)
    requires Names(record, start) && Names(record, cursor) && Sorted(held) && record <= held
    requires Delivers(record, start, before, cursor, wire)
    ensures Names(held, start) && Names(held, cursor) && Delivers(held, start, before, cursor, wire)
  {
    NamesGrow(record, held, start);
    NamesGrow(record, held, cursor);
    if !Repeats(held, start.ms) {
      DistinctBefore(record, held, start.ms);
      ForwardedGrows(record, held, start, before, cursor, wire);
    }
  }

  lemma DistinctBefore(record: seq<Tick>, held: seq<Tick>, ms: int)
    requires record <= held && !Repeats(held, ms)
    ensures !Repeats(record, ms)
  {
    forall i | 0 < i < |record| && SameMs(record, i) && ms < record[i].ms
      ensures SameMs(held, i) && ms < held[i].ms
    {
    }
  }

  lemma {:induction false} RoundDelivers(held: seq<Tick>, a: nat, b: nat, start: Cursor, before: seq<Tick>, cursor: Cursor, wire: seq<Tick>)
    requires Names(held, cursor) && a <= b <= |held| && a <= Below(held, cursor.ms)
    requires Delivers(held, start, before, cursor, wire)
    ensures var after := Round(wire, cursor, held[a..b], 0);
      && Delivers(held, start, before, after.cursor, after.wire)
      && (b == |held| ==> AllDelivered(held, start, after.cursor))
  {
    if !Repeats(held, start.ms) {
      RoundCarriesOn(held, a, b, start, before, cursor, wire);
    }
  }

  /** Nothing the terminal holds is still to come. */
  ghost predicate AllDelivered(record: seq<Tick>, start: Cursor, cursor: Cursor) {
    !Repeats(record, start.ms) ==> Index(record, cursor) == |record|
  }

  /** A block ending the record leaves the cursor after its last print. */
  lemma BlockNamesTheEnd(record: seq<Tick>, from: nat)
    requires Sorted(record) && from < |record| && (from > 0 ==> record[from - 1].ms < record[from].ms)
    ensures var block := record[from..];
      var last := record[|record| - 1].ms;
      var cursor := Cursor(last, CountAt(block, last));
      Accounted(block, cursor) && Names(record, cursor) && Index(record, cursor) == |record|
  {
    var block, last := record[from..], record[|record| - 1].ms;
    BlockCounts(record, from);
    CountIsSpan(record, last);
    BelowIs(record, last + 1, |record|);
    BlockAscends(record, from);
    hide Sorted, Below, CountAt;
  }

  lemma EmptyIsNamed(record: seq<Tick>, ms: int)
    requires Sorted(record)
    ensures Accounted([], Cursor(ms, 0)) && Names(record, Cursor(ms, 0))
  {
    BelowMonotone(record, ms, ms + 1);
  }

  lemma BlockAscends(record: seq<Tick>, from: nat)
    requires Sorted(record) && from < |record|
    ensures Sorted(record[from..])
    ensures forall i :: 0 <= i < |record[from..]| ==> record[from..][i].ms <= record[|record| - 1].ms
  {
    SortedSlice(record, from, |record|);
    assert record[from..|record|] == record[from..];
  }

  lemma {:induction false} BlockCounts(record: seq<Tick>, from: nat)
    requires Sorted(record) && from < |record| && (from > 0 ==> record[from - 1].ms < record[from].ms)
    ensures CountAt(record[from..], record[|record| - 1].ms) == CountAt(record, record[|record| - 1].ms)
  {
    var last := record[|record| - 1].ms;
    assert record == record[..from] + record[from..];
    CountConcat(record[..from], record[from..], last);
    if from > 0 {
      assert record[from - 1].ms < record[from].ms <= last;
      OlderPrefix(record, from, last);
    }
  }

  lemma {:induction false} OlderPrefix(record: seq<Tick>, n: nat, ms: int)
    requires Sorted(record) && 0 < n <= |record| && record[n - 1].ms < ms
    ensures CountAt(record[..n], ms) == 0
  {
    CountNone(record[..n], ms);
  }
}
