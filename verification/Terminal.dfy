/** The MetaTrader terminal as the bridge sees it: a record of prints ordered by
    millisecond, answered by whole-second ranges. Everything the bridge walks,
    slices and pages is a contiguous stretch of this record. */
module Terminal {
  /** One print. `body` stands for price, volume and flags, which no walk reads. */
  datatype Tick = Tick(ms: int, body: int)

  ghost predicate Sorted(record: seq<Tick>) {
    forall i, j :: 0 <= i < j < |record| ==> record[i].ms <= record[j].ms
  }

  /** How many prints of an ordered record are stamped before `ms`. */
  function Below(record: seq<Tick>, ms: int): (n: nat)
    ensures n <= |record|
    ensures n < |record| ==> ms <= record[n].ms
    ensures n > 0 ==> record[n - 1].ms < ms
  {
    BelowWithin(record, ms, |record|)
  }

  function BelowWithin(record: seq<Tick>, ms: int, end: nat): (n: nat)
    requires end <= |record|
    ensures n <= end
    ensures n < end ==> ms <= record[n].ms
    ensures n > 0 ==> record[n - 1].ms < ms
  {
    if end == 0 then 0
    else if record[end - 1].ms < ms then end
    else BelowWithin(record, ms, end - 1)
  }

  lemma BelowMonotone(record: seq<Tick>, lo: int, hi: int)
    requires lo <= hi
    ensures Below(record, lo) <= Below(record, hi)
  {
    var a, b := Below(record, lo), Below(record, hi);
    if b < a {
      BelowReached(record, hi, |record|, a);
    }
  }

  /** The count reaches past every print stamped before `ms`. */
  lemma {:induction false} BelowReached(record: seq<Tick>, ms: int, end: nat, n: nat)
    requires 0 < n <= end <= |record| && record[n - 1].ms < ms
    ensures n <= BelowWithin(record, ms, end)
  {
    if n < end {
      BelowReached(record, ms, end - 1, n);
    }
  }

  /** The prints stamped in `lo <= ms < hi`, oldest first. */
  function Prints(record: seq<Tick>, lo: int, hi: int): (found: seq<Tick>)
  {
    if hi < lo then [] else
      BelowMonotone(record, lo, hi);
      record[Below(record, lo)..Below(record, hi)]
  }

  lemma SortedSlice(record: seq<Tick>, a: nat, b: nat)
    requires Sorted(record) && a <= b <= |record|
    ensures Sorted(record[a..b])
    ensures forall k :: 0 <= k < b - a ==> record[a].ms <= record[a..b][k].ms <= record[b - 1].ms
  {
  }

  lemma PrintsWithin(record: seq<Tick>, lo: int, hi: int)
    requires Sorted(record)
    ensures Sorted(Prints(record, lo, hi))
    ensures forall k :: 0 <= k < |Prints(record, lo, hi)| ==> lo <= Prints(record, lo, hi)[k].ms < hi
  {
    if lo <= hi {
      BelowMonotone(record, lo, hi);
      SortedSlice(record, Below(record, lo), Below(record, hi));
    }
  }

  /** Every print before the count is older, every print from it on is not. */
  lemma BelowAt(record: seq<Tick>, ms: int, n: nat)
    requires Sorted(record) && n <= |record|
    ensures n <= Below(record, ms) && n > 0 ==> record[n - 1].ms < ms
    ensures Below(record, ms) <= n < |record| ==> ms <= record[n].ms
  {
  }

  /** A split that separates the prints before `ms` from the rest is the count. */
  lemma BelowIs(record: seq<Tick>, ms: int, n: nat)
    requires Sorted(record) && n <= |record|
    requires n > 0 ==> record[n - 1].ms < ms
    requires n < |record| ==> ms <= record[n].ms
    ensures Below(record, ms) == n
  {
    var m := Below(record, ms);
    assert m < |record| ==> ms <= record[m].ms;
    assert 0 < n ==> record[n - 1].ms < ms;
  }

  /** Two stretches meeting at `mid` join into one with nothing lost or repeated. */
  lemma PrintsJoin(record: seq<Tick>, lo: int, mid: int, hi: int)
    requires lo <= mid <= hi
    ensures Prints(record, lo, mid) + Prints(record, mid, hi) == Prints(record, lo, hi)
  {
    BelowMonotone(record, lo, mid);
    BelowMonotone(record, mid, hi);
  }

  /** `copy_ticks_range` answers a range of whole seconds with both ends included. */
  function CopyTicksRange(record: seq<Tick>, fromS: int, toS: int): seq<Tick> {
    Prints(record, fromS * 1000, toS * 1000 + 1)
  }

  /** `copy_ticks_from` answers at most `count` prints from a whole second on. */
  function CopyTicksFrom(record: seq<Tick>, fromS: int, count: nat): (found: seq<Tick>) {
    var start := Below(record, fromS * 1000);
    if count < |record| - start then record[start..start + count] else record[start..]
  }

  /** The part of an answer strictly older than `cursorMs`. */
  function OlderThan(found: seq<Tick>, cursorMs: int): seq<Tick> {
    if |found| == 0 then []
    else if found[0].ms < cursorMs then [found[0]] + OlderThan(found[1..], cursorMs)
    else OlderThan(found[1..], cursorMs)
  }

  lemma {:induction false} OlderThanSlice(record: seq<Tick>, a: nat, b: nat, cursorMs: int)
    requires Sorted(record) && a <= b <= |record|
    ensures var m := Below(record, cursorMs);
      OlderThan(record[a..b], cursorMs) == record[a..if m < a then a else if b < m then b else m]
    decreases b - a
  {
    if a < b {
      var s := record[a..b];
      assert s[0] == record[a] && s[1..] == record[a + 1..b];
      BelowAt(record, cursorMs, a);
      BelowAt(record, cursorMs, a + 1);
      OlderThanSlice(record, a + 1, b, cursorMs);
    }
  }

  /** Filtering a range leaves the range up to the earlier of the two bounds. */
  lemma {:induction false} OlderThanRange(record: seq<Tick>, lo: int, hi: int, cursorMs: int)
    requires Sorted(record) && lo <= cursorMs && lo <= hi
    ensures OlderThan(Prints(record, lo, hi), cursorMs) == Prints(record, lo, if hi < cursorMs then hi else cursorMs)
  {
    BelowMonotone(record, lo, hi);
    BelowMonotone(record, lo, cursorMs);
    if hi < cursorMs { BelowMonotone(record, hi, cursorMs); } else { BelowMonotone(record, cursorMs, hi); }
    OlderThanSlice(record, Below(record, lo), Below(record, hi), cursorMs);
  }

  function CeilSeconds(ms: int): (s: int)
    ensures (s - 1) * 1000 < ms <= s * 1000
  {
    -((-ms) / 1000)
  }

  /** Asking for a window rounded outward to whole seconds and filtering the
      surplus answers every print of `[fromS * 1000, cursorMs)` and no other. */
  method AskWindow(record: seq<Tick>, fromS: int, toS: int, cursorMs: int) returns (older: seq<Tick>)
    requires Sorted(record) && fromS * 1000 <= cursorMs <= toS * 1000
    ensures older == Prints(record, fromS * 1000, cursorMs)
  {
    older := OlderThan(CopyTicksRange(record, fromS, toS), cursorMs);
    OlderThanRange(record, fromS * 1000, toS * 1000 + 1, cursorMs);
  }

  /** Windows gathered newest first, read oldest first. */
  function Joined(windows: seq<seq<Tick>>): seq<Tick> {
    if |windows| == 0 then []
    else windows[|windows| - 1] + Joined(windows[..|windows| - 1])
  }

  lemma {:induction false} JoinedAppend(windows: seq<seq<Tick>>, older: seq<Tick>)
    ensures Joined(windows + [older]) == older + Joined(windows)
  {
    assert (windows + [older])[..|windows|] == windows;
  }
}
