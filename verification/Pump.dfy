/** The live tape: the `(millisecond, count)` cursor and the pump that moves it. */
module Pump {
  import opened Terminal

  const TICKS_PER_ROUND := 4096
  const MAX_TICKS_PER_REQUEST := 4_194_304
  const MAX_ROUNDS := 16

  /** The newest millisecond sent and how many prints at it already went. */
  datatype Cursor = Cursor(ms: int, sent: nat)

  /** One round part-way through its batch: `seen` counts the prints met at the
      cursor, `wire` is every live line sent so far. */
  datatype Scan = Scan(cursor: Cursor, seen: nat, wire: seq<Tick>)

  /** One print of a batch. The code restarts `seen` at 0 on a new millisecond;
      `restart` is a parameter so that 1 can be compared with it. */
  function Take(scan: Scan, tick: Tick, restart: nat): Scan {
    if tick.ms < scan.cursor.ms then scan
    else if tick.ms == scan.cursor.ms then
      if scan.seen + 1 <= scan.cursor.sent then scan.(seen := scan.seen + 1)
      else Scan(Cursor(tick.ms, scan.cursor.sent + 1), scan.seen + 1, scan.wire + [tick])
    else Scan(Cursor(tick.ms, 1), restart, scan.wire + [tick])
  }

  function Round(wire: seq<Tick>, cursor: Cursor, batch: seq<Tick>, restart: nat): Scan {
    if |batch| == 0 then Scan(cursor, 0, wire)
    else Take(Round(wire, cursor, batch[..|batch| - 1], restart), batch[|batch| - 1], restart)
  }

  function CountAt(ticks: seq<Tick>, ms: int): nat {
    if |ticks| == 0 then 0
    else CountAt(ticks[..|ticks| - 1], ms) + if ticks[|ticks| - 1].ms == ms then 1 else 0
  }

  lemma {:induction false} CountAppend(ticks: seq<Tick>, tick: Tick, ms: int)
    ensures CountAt(ticks + [tick], ms) == CountAt(ticks, ms) + if tick.ms == ms then 1 else 0
  {
    assert (ticks + [tick])[..|ticks|] == ticks;
  }

  lemma {:induction false} CountConcat(a: seq<Tick>, b: seq<Tick>, ms: int)
    ensures CountAt(a + b, ms) == CountAt(a, ms) + CountAt(b, ms)
  {
    if |b| == 0 {
      assert a + b == a;
    } else {
      CountConcat(a, b[..|b| - 1], ms);
      assert a + b == a + b[..|b| - 1] + [b[|b| - 1]];
      CountAppend(a + b[..|b| - 1], b[|b| - 1], ms);
    }
  }

  lemma {:induction false} CountSlice(record: seq<Tick>, a: nat, b: nat, ms: int)
    requires a <= b <= |record|
    ensures CountAt(record[a..b], ms) <= CountAt(record, ms)
  {
    assert record == record[..a] + (record[a..b] + record[b..]);
    CountConcat(record[..a], record[a..b] + record[b..], ms);
    CountConcat(record[a..b], record[b..], ms);
  }

  lemma {:induction false} CountNone(ticks: seq<Tick>, ms: int)
    requires forall i :: 0 <= i < |ticks| ==> ticks[i].ms != ms
    ensures CountAt(ticks, ms) == 0
  {
    if |ticks| > 0 {
      CountNone(ticks[..|ticks| - 1], ms);
    }
  }

  // ---- what every round keeps, whatever it restarts at ----

  /** Stamps ascend, none is past the cursor, and the cursor's count is the
      number of lines sent at its millisecond. */
  ghost predicate Accounted(wire: seq<Tick>, cursor: Cursor) {
    && Sorted(wire)
    && (forall i :: 0 <= i < |wire| ==> wire[i].ms <= cursor.ms)
    && CountAt(wire, cursor.ms) == cursor.sent
  }

  lemma TakeAccounts(scan: Scan, tick: Tick, restart: nat)
    requires Accounted(scan.wire, scan.cursor)
    ensures var after := Take(scan, tick, restart);
      && Accounted(after.wire, after.cursor)
      && scan.cursor.ms <= after.cursor.ms && scan.wire <= after.wire
  {
    CountAppend(scan.wire, tick, tick.ms);
    if scan.cursor.ms < tick.ms {
      CountNone(scan.wire, tick.ms);
    }
  }

  lemma {:induction false} RoundAccounts(wire: seq<Tick>, cursor: Cursor, batch: seq<Tick>, restart: nat)
    requires Accounted(wire, cursor)
    ensures var after := Round(wire, cursor, batch, restart);
      && Accounted(after.wire, after.cursor)
      && cursor.ms <= after.cursor.ms && wire <= after.wire
  {
    if |batch| > 0 {
      RoundAccounts(wire, cursor, batch[..|batch| - 1], restart);
      TakeAccounts(Round(wire, cursor, batch[..|batch| - 1], restart), batch[|batch| - 1], restart);
    }
  }

  /** The count never exceeds the prints the terminal holds at the cursor. */
  lemma {:induction false} RoundBounded(wire: seq<Tick>, cursor: Cursor, record: seq<Tick>, a: nat, b: nat, restart: nat)
    requires a <= b <= |record| && restart <= 1
    requires cursor.sent <= CountAt(record, cursor.ms)
    ensures var after := Round(wire, cursor, record[a..b], restart);
      && after.cursor.sent <= CountAt(record, after.cursor.ms)
      && after.seen <= CountAt(record[a..b], after.cursor.ms)
  {
    if a < b {
      assert record[a..b][..b - 1 - a] == record[a..b - 1];
      assert record[a..b] == record[a..b - 1] + [record[b - 1]];
      RoundBounded(wire, cursor, record, a, b - 1, restart);
      var before := Round(wire, cursor, record[a..b - 1], restart);
      var after := Round(wire, cursor, record[a..b], restart);
      CountAppend(record[a..b - 1], record[b - 1], after.cursor.ms);
      CountSlice(record, a, b, after.cursor.ms);
    }
  }

  /** A print past the cursor is never the reason a round forwards nothing. */
  lemma {:induction false} RoundForwards(wire: seq<Tick>, cursor: Cursor, batch: seq<Tick>, restart: nat)
    ensures var after := Round(wire, cursor, batch, restart);
      && cursor.ms <= after.cursor.ms && |wire| <= |after.wire|
      && (cursor.ms < after.cursor.ms ==> |wire| < |after.wire|)
      && (after.wire == wire ==> after.cursor == cursor)
      && forall i :: 0 <= i < |batch| ==> batch[i].ms <= after.cursor.ms
  {
    if |batch| > 0 {
      RoundForwards(wire, cursor, batch[..|batch| - 1], restart);
    }
  }

  // ---- exactly once ----

  /** How many prints of the record the cursor stands for. */
  function Index(record: seq<Tick>, cursor: Cursor): nat {
    Below(record, cursor.ms) + cursor.sent
  }

  /** The cursor names prints the record really holds. */
  ghost predicate Names(record: seq<Tick>, cursor: Cursor) {
    Sorted(record) && Index(record, cursor) <= Below(record, cursor.ms + 1)
  }

  /** The state of an exact round once the first `b` prints are behind it. */
  ghost predicate Exact(record: seq<Tick>, cursor: Cursor, wire: seq<Tick>, b: nat, scan: Scan)
    requires b <= |record|
  {
    var p := Index(record, cursor);
    if b <= p then
      scan == Scan(cursor, if b < Below(record, cursor.ms) then 0 else b - Below(record, cursor.ms), wire)
    else
      && scan.wire == wire + record[p..b]
      && scan.cursor.ms == record[b - 1].ms
      && scan.cursor.sent == scan.seen == b - Below(record, record[b - 1].ms)
  }

  lemma SkipsWhatWasSent(record: seq<Tick>, cursor: Cursor, wire: seq<Tick>, b: nat, scan: Scan)
    requires Names(record, cursor) && 0 < b <= |record| && b <= Index(record, cursor)
    requires Exact(record, cursor, wire, b - 1, scan)
    ensures Exact(record, cursor, wire, b, Take(scan, record[b - 1], 1))
  {
    BelowAt(record, cursor.ms, b);
    BelowAt(record, cursor.ms, b - 1);
    BelowAt(record, cursor.ms + 1, b);
  }

  lemma StartsAfterTheCursor(record: seq<Tick>, cursor: Cursor, wire: seq<Tick>, b: nat, scan: Scan)
    requires Names(record, cursor) && 0 < b <= |record| && b == Index(record, cursor) + 1
    requires Exact(record, cursor, wire, b - 1, scan)
    ensures Exact(record, cursor, wire, b, Take(scan, record[b - 1], 1))
  {
    hide Sorted, BelowWithin;
    var tick := record[b - 1];
    BelowAt(record, cursor.ms, b - 1);
    assert cursor.ms <= tick.ms;
    if cursor.ms < tick.ms {
      BelowAt(record, cursor.ms + 1, b - 1);
      BelowIs(record, tick.ms, b - 1);
    }
    assert record[b - 1..b] == [tick];
  }

  lemma CarriesOn(record: seq<Tick>, cursor: Cursor, wire: seq<Tick>, b: nat, scan: Scan)
    requires Sorted(record) && 0 < b <= |record| && Index(record, cursor) + 1 < b
    requires Exact(record, cursor, wire, b - 1, scan)
    ensures Exact(record, cursor, wire, b, Take(scan, record[b - 1], 1))
  {
    SameGroupOrNew(record, b);
    hide Sorted, Below;
    var p := Index(record, cursor);
    assert record[p..b] == record[p..b - 1] + [record[b - 1]];
  }

  /** The next print joins the group of the one before it or starts its own. */
  lemma SameGroupOrNew(record: seq<Tick>, b: nat)
    requires Sorted(record) && 1 < b <= |record|
    ensures record[b - 2].ms == record[b - 1].ms
      || (record[b - 2].ms < record[b - 1].ms && Below(record, record[b - 1].ms) == b - 1)
  {
    if record[b - 2].ms < record[b - 1].ms {
      BelowIs(record, record[b - 1].ms, b - 1);
    }
  }

  lemma ExactStep(record: seq<Tick>, cursor: Cursor, wire: seq<Tick>, b: nat, scan: Scan)
    requires Names(record, cursor) && 0 < b <= |record|
    requires Exact(record, cursor, wire, b - 1, scan)
    ensures Exact(record, cursor, wire, b, Take(scan, record[b - 1], 1))
  {
    if b <= Index(record, cursor) {
      SkipsWhatWasSent(record, cursor, wire, b, scan);
    } else if b == Index(record, cursor) + 1 {
      StartsAfterTheCursor(record, cursor, wire, b, scan);
    } else {
      CarriesOn(record, cursor, wire, b, scan);
    }
  }

  /** Restarting at 1, a round forwards every print after the cursor, each once. */
  lemma {:induction false} RestartAtOneIsExact(wire: seq<Tick>, cursor: Cursor, record: seq<Tick>, a: nat, b: nat)
    requires Names(record, cursor) && a <= b <= |record| && a <= Below(record, cursor.ms)
    ensures Exact(record, cursor, wire, b, Round(wire, cursor, record[a..b], 1))
    decreases b - a
  {
    if a < b {
      RestartAtOneIsExact(wire, cursor, record, a, b - 1);
      RoundSlice(wire, cursor, record, a, b, 1);
      ExactStep(record, cursor, wire, b, Round(wire, cursor, record[a..b - 1], 1));
    }
  }

  lemma {:induction false} RoundSlice(wire: seq<Tick>, cursor: Cursor, record: seq<Tick>, a: nat, b: nat, restart: nat)
    requires a < b <= |record|
    ensures Round(wire, cursor, record[a..b], restart)
         == Take(Round(wire, cursor, record[a..b - 1], restart), record[b - 1], restart)
  {
    assert record[a..b] == record[a..b - 1] + [record[b - 1]];
    RoundAppend(wire, cursor, record[a..b - 1], record[b - 1], restart);
  }

  lemma {:induction false} RoundAppend(wire: seq<Tick>, cursor: Cursor, batch: seq<Tick>, tick: Tick, restart: nat)
    ensures Round(wire, cursor, batch + [tick], restart) == Take(Round(wire, cursor, batch, restart), tick, restart)
  {
    assert (batch + [tick])[..|batch|] == batch;
  }

  /** Two prints of one millisecond past the cursor arrive in the same batch. */
  ghost predicate Repeats(batch: seq<Tick>, ms: int) {
    exists i :: 0 < i < |batch| && SameMs(batch, i) && ms < batch[i].ms
  }

  ghost predicate SameMs(batch: seq<Tick>, i: int)
    requires 0 < i < |batch|
  {
    batch[i - 1].ms == batch[i].ms
  }

  /** How the code's round and the exact one run side by side: alike until a
      millisecond repeats, one line short from then on. */
  lemma {:induction false} RoundsCompared(wire: seq<Tick>, cursor: Cursor, batch: seq<Tick>)
    requires Sorted(batch)
    ensures var code, exact := Round(wire, cursor, batch, 0), Round(wire, cursor, batch, 1);
      && cursor.ms <= code.cursor.ms == exact.cursor.ms
      && (code.cursor.ms == cursor.ms ==> code == exact)
      && (cursor.ms < code.cursor.ms ==>
          && |batch| > 0 && batch[|batch| - 1].ms == code.cursor.ms
          && exact.seen == exact.cursor.sent == code.seen + 1
          && code.cursor.sent == if code.seen == 0 then 1 else code.seen)
      && |code.wire| <= |exact.wire|
      && (if Repeats(batch, cursor.ms) then |code.wire| < |exact.wire|
          else code.wire == exact.wire && (cursor.ms < code.cursor.ms ==> code.seen == 0))
  {
    if |batch| > 0 {
      var n := |batch| - 1;
      var rest := batch[..n];
      RoundsCompared(wire, cursor, rest);
      RepeatsStep(batch, cursor.ms);
    }
  }

  lemma RepeatsStep(batch: seq<Tick>, ms: int)
    requires |batch| > 0
    ensures var n := |batch| - 1;
      Repeats(batch, ms) <==> Repeats(batch[..n], ms) || (n > 0 && batch[n - 1].ms == batch[n].ms && ms < batch[n].ms)
  {
    var n := |batch| - 1;
    if Repeats(batch[..n], ms) {
      var i :| 0 < i < n && SameMs(batch[..n], i) && ms < batch[i].ms;
      assert SameMs(batch, i);
    }
    if n > 0 && batch[n - 1].ms == batch[n].ms && ms < batch[n].ms {
      assert SameMs(batch, n);
    }
    if Repeats(batch, ms) {
      var i :| 0 < i < |batch| && SameMs(batch, i) && ms < batch[i].ms;
      assert i < n ==> SameMs(batch[..n], i);
    }
  }

  /** The code's round forwards exactly the prints after the cursor if and only
      if no millisecond past the cursor repeats in the batch. */
  lemma {:induction false} RoundIsExactIff(wire: seq<Tick>, cursor: Cursor, record: seq<Tick>, a: nat, b: nat)
    requires Names(record, cursor) && a <= Below(record, cursor.ms) && Index(record, cursor) <= b <= |record|
    ensures Round(wire, cursor, record[a..b], 0).wire == wire + record[Index(record, cursor)..b]
      <==> !Repeats(record[a..b], cursor.ms)
  {
    RestartAtOneIsExact(wire, cursor, record, a, b);
    SortedSlice(record, a, b);
    RoundsCompared(wire, cursor, record[a..b]);
  }

  // ---- never again ----

  /** The print is one the scan forwards. */
  predicate Sends(scan: Scan, tick: Tick) {
    scan.cursor.ms < tick.ms || (scan.cursor.ms == tick.ms && scan.cursor.sent <= scan.seen)
  }

  /** Where in the record the prints stand that the code's round forwards. */
  function Places(wire: seq<Tick>, cursor: Cursor, record: seq<Tick>, a: nat, b: nat): seq<nat>
    requires a <= b <= |record|
  {
    if a == b then []
    else
      Places(wire, cursor, record, a, b - 1)
      + if Sends(Round(wire, cursor, record[a..b - 1], 0), record[b - 1]) then [b - 1] else []
  }

  /** `wire` is `before` and then the prints of the record at `places`. */
  ghost predicate SentFrom(before: seq<Tick>, record: seq<Tick>, places: seq<nat>, wire: seq<Tick>) {
    && |wire| == |before| + |places| && before <= wire
    && forall k :: 0 <= k < |places| ==> places[k] < |record| && wire[|before| + k] == record[places[k]]
  }

  /** Ascending places, all in `lo <= place < hi`. */
  ghost predicate Ascends(places: seq<nat>, lo: nat, hi: nat) {
    && (forall k :: 0 <= k < |places| ==> lo <= places[k] < hi)
    && (forall j, k :: 0 <= j < k < |places| ==> places[j] < places[k])
  }

  /** Whether or not a millisecond repeats, a round of the code forwards only
      prints at or past its cursor's index, none of them twice. */
  lemma {:induction false} RoundNeverGoesBack(wire: seq<Tick>, cursor: Cursor, record: seq<Tick>, a: nat, b: nat)
    requires Names(record, cursor) && a <= b <= |record| && a <= Below(record, cursor.ms)
    ensures var places := Places(wire, cursor, record, a, b);
      && SentFrom(wire, record, places, Round(wire, cursor, record[a..b], 0).wire)
      && Ascends(places, Index(record, cursor), b)
  {
    PlacesAreSent(wire, cursor, record, a, b);
    PlacesAscend(wire, cursor, record, a, b);
  }

  lemma {:induction false} PlacesAreSent(wire: seq<Tick>, cursor: Cursor, record: seq<Tick>, a: nat, b: nat)
    requires a <= b <= |record|
    ensures SentFrom(wire, record, Places(wire, cursor, record, a, b), Round(wire, cursor, record[a..b], 0).wire)
    decreases b - a
  {
    if a < b {
      PlacesAreSent(wire, cursor, record, a, b - 1);
      RoundSlice(wire, cursor, record, a, b, 0);
      hide Round;
      var before := Round(wire, cursor, record[a..b - 1], 0);
      OneMoreSent(wire, record, Places(wire, cursor, record, a, b - 1), before, b - 1);
    }
  }

  lemma OneMoreSent(wire: seq<Tick>, record: seq<Tick>, places: seq<nat>, scan: Scan, k: nat)
    requires k < |record| && SentFrom(wire, record, places, scan.wire)
    ensures SentFrom(wire, record, places + if Sends(scan, record[k]) then [k] else [], Take(scan, record[k], 0).wire)
  {
    if Sends(scan, record[k]) {
      assert Take(scan, record[k], 0).wire == scan.wire + [record[k]];
    } else {
      assert places + [] == places;
    }
  }

  lemma {:induction false} PlacesAscend(wire: seq<Tick>, cursor: Cursor, record: seq<Tick>, a: nat, b: nat)
    requires Names(record, cursor) && a <= b <= |record| && a <= Below(record, cursor.ms)
    ensures Ascends(Places(wire, cursor, record, a, b), Index(record, cursor), b)
    decreases b - a
  {
    if a < b {
      PlacesAscend(wire, cursor, record, a, b - 1);
      if b <= Index(record, cursor) {
        SkipsTheSent(wire, cursor, record, a, b);
      }
      hide Names, Index, Below, Round, Sends;
    }
  }

  /** The prints the cursor stands for are passed over. */
  lemma SkipsTheSent(wire: seq<Tick>, cursor: Cursor, record: seq<Tick>, a: nat, b: nat)
    requires Names(record, cursor) && a < b <= Index(record, cursor) && a <= Below(record, cursor.ms)
    requires b <= |record|
    ensures !Sends(Round(wire, cursor, record[a..b - 1], 0), record[b - 1])
  {
    StillAtTheCursor(wire, cursor, record, a, b - 1);
    NextIsSkipped(record, cursor, wire, b, Round(wire, cursor, record[a..b - 1], 0));
  }

  lemma NextIsSkipped(record: seq<Tick>, cursor: Cursor, wire: seq<Tick>, b: nat, scan: Scan)
    requires Names(record, cursor) && 0 < b <= Index(record, cursor) && b <= |record|
    requires Exact(record, cursor, wire, b - 1, scan)
    ensures !Sends(scan, record[b - 1])
  {
    NotPast(record, cursor, b - 1);
    hide Names, Below;
  }

  /** Up to the cursor's index the code's round and the exact one agree. */
  lemma {:induction false} StillAtTheCursor(wire: seq<Tick>, cursor: Cursor, record: seq<Tick>, a: nat, b: nat)
    requires Names(record, cursor) && a <= b < Index(record, cursor) && a <= Below(record, cursor.ms) && b <= |record|
    ensures Exact(record, cursor, wire, b, Round(wire, cursor, record[a..b], 0))
  {
    RestartAtOneIsExact(wire, cursor, record, a, b);
    SortedSlice(record, a, b);
    RoundsCompared(wire, cursor, record[a..b]);
    if a < b {
      NotPast(record, cursor, b - 1);
      assert record[a..b][b - a - 1] == record[b - 1];
    }
    hide Sorted, Names, Repeats, Round, Below, Exact;
  }

  lemma NotPast(record: seq<Tick>, cursor: Cursor, k: nat)
    requires Names(record, cursor) && k < Index(record, cursor) && k < |record|
    ensures record[k].ms <= cursor.ms
    ensures k < Below(record, cursor.ms) ==> record[k].ms < cursor.ms
  {
    BelowAt(record, cursor.ms + 1, k + 1);
    BelowAt(record, cursor.ms, k + 1);
  }

  /** The cursor's index never falls, so no later round goes back either. */
  lemma {:induction false} RoundMovesOn(wire: seq<Tick>, cursor: Cursor, record: seq<Tick>, batch: seq<Tick>)
    requires Names(record, cursor)
    ensures Index(record, cursor) <= Index(record, Round(wire, cursor, batch, 0).cursor)
  {
    var after := Round(wire, cursor, batch, 0).cursor;
    SentNeverFalls(wire, cursor, batch);
    if cursor.ms < after.ms {
      BelowMonotone(record, cursor.ms + 1, after.ms);
    }
  }

  lemma {:induction false} SentNeverFalls(wire: seq<Tick>, cursor: Cursor, batch: seq<Tick>)
    ensures var after := Round(wire, cursor, batch, 0).cursor;
      cursor.ms <= after.ms && (cursor.ms == after.ms ==> cursor.sent <= after.sent)
  {
    if |batch| > 0 {
      SentNeverFalls(wire, cursor, batch[..|batch| - 1]);
    }
  }

  /** Three prints of one millisecond in one batch: the second is skipped, and
      the next round sends the third again in its place. */
  lemma SecondPrintIsSkipped(a: Tick, b: Tick, c: Tick, d: Tick)
    requires a.ms < b.ms == c.ms == d.ms
    ensures var first := Round([], Cursor(a.ms, 1), [a, b, c, d], 0);
      && first.wire == [b, d]
      && Round(first.wire, first.cursor, [b, c, d], 0).wire == [b, d, d]
  {
    ThreeOfOne(Scan(Cursor(a.ms, 1), 1, []), b, c, d);
    RoundOfThree([], Cursor(a.ms, 1), a, b, c);
    RoundAppend([], Cursor(a.ms, 1), [a, b, c], d, 0);
    assert [a, b, c] + [d] == [a, b, c, d];
    RoundOfThree([b, d], Cursor(b.ms, 2), b, c, d);
  }

  lemma {:induction false} RoundOfThree(wire: seq<Tick>, cursor: Cursor, a: Tick, b: Tick, c: Tick)
    ensures Round(wire, cursor, [a, b, c], 0) == Take(Take(Take(Scan(cursor, 0, wire), a, 0), b, 0), c, 0)
  {
    assert [] + [a] == [a] && [a] + [b] == [a, b] && [a, b] + [c] == [a, b, c];
    RoundAppend(wire, cursor, [], a, 0);
    RoundAppend(wire, cursor, [a], b, 0);
    RoundAppend(wire, cursor, [a, b], c, 0);
  }

  lemma ThreeOfOne(scan: Scan, b: Tick, c: Tick, d: Tick)
    requires scan.cursor.ms < b.ms == c.ms == d.ms && scan.wire == []
    ensures Take(Take(Take(scan, b, 0), c, 0), d, 0) == Scan(Cursor(b.ms, 2), 2, [b, d])
  {
    assert Take(scan, b, 0) == Scan(Cursor(b.ms, 1), 0, [b]);
    assert Take(Take(scan, b, 0), c, 0) == Scan(Cursor(b.ms, 1), 1, [b]);
  }
}
