/** Historical candles, paged backwards from now out of a terminal that may
    refuse the width of a page. */
module Rates {
  import opened Numbers
  import opened Terminal

  const PAGE_BARS := 20_000
  const MIN_PAGE_BARS := 1_000
  const RATES_MAX_PAGES := 64

  /** A candle is stamped like a print; its stamp is its opening second. */
  type Bar = Tick

  /** Candles at least one step apart, oldest first. */
  ghost predicate Spaced(record: seq<Bar>, stepS: int) {
    stepS > 0 && forall i, j :: 0 <= i < j < |record| ==> record[i].ms + stepS <= record[j].ms
  }

  /** `copy_rates_from`: the last `count` candles opening at or before `anchor`. */
  function CopyRatesFrom(record: seq<Bar>, anchor: int, count: nat): seq<Bar> {
    var n := Below(record, anchor + 1);
    record[(if n < count then 0 else n - count)..n]
  }

  datatype Answer = Chunk(bars: seq<Bar>) | TooWide | Failed

  /** The terminal: `widest` is how wide a page it answers on each call, `refusals`
      the calls it fails for another reason. */
  function Ask(record: seq<Bar>, anchor: int, count: nat, widest: nat -> nat, call: nat, refusals: set<nat>): Answer {
    if call in refusals then Failed
    else if count > widest(call) then TooWide
    else Chunk(CopyRatesFrom(record, anchor, count))
  }

  /** The width a page comes down to while every call from `call` on is refused as
      too wide, and the call that settles it. */
  function Settles(width: nat, widest: nat -> nat, call: nat, refusals: set<nat>): (nat, nat)
    requires width >= MIN_PAGE_BARS
    decreases width
  {
    if call !in refusals && width > widest(call) && width > MIN_PAGE_BARS
    then Settles(Max(width / 2, MIN_PAGE_BARS), widest, call + 1, refusals)
    else (width, call)
  }

  datatype Stop = Covered | ShortPage | NoBars | Cap | PageFailed | Budget

  ghost function Stamps(record: seq<Bar>, lo: nat, hi: nat): set<int>
    requires hi <= |record|
  {
    set i | lo <= i < hi :: record[i].ms
  }

  /** The merged candles are exactly `record[lo..hi]`, keyed by their stamps. */
  ghost predicate Holds(byTime: map<int, Bar>, record: seq<Bar>, lo: nat, hi: nat)
    requires hi <= |record|
  {
    && byTime.Keys == Stamps(record, lo, hi)
    && forall i :: lo <= i < hi ==> byTime[record[i].ms] == record[i]
  }

  /** One page, halving the width on every call that refuses it and on no other. */
  method AskPage(record: seq<Bar>, anchor: int, width: nat, widest: nat -> nat, calls: nat, refusals: set<nat>)
    returns (answer: Answer, used: nat, after: nat)
    requires width >= MIN_PAGE_BARS
    ensures MIN_PAGE_BARS <= used <= width
    ensures (used, after) == Settles(width, widest, calls + 1, refusals)
    ensures answer == Ask(record, anchor, used, widest, after, refusals)
    ensures answer.Chunk? ==> answer.bars == CopyRatesFrom(record, anchor, used)
    ensures answer.TooWide? ==> used == MIN_PAGE_BARS && widest(after) < MIN_PAGE_BARS
    ensures answer.Failed? ==> after in refusals
  {
    used, after := width, calls + 1;
    answer := Ask(record, anchor, used, widest, after, refusals);
    while answer.TooWide? && used > MIN_PAGE_BARS
      invariant MIN_PAGE_BARS <= used <= width
      invariant Settles(used, widest, after, refusals) == Settles(width, widest, calls + 1, refusals)
      invariant answer == Ask(record, anchor, used, widest, after, refusals)
    {
      used := Max(used / 2, MIN_PAGE_BARS);
      after := after + 1;
      answer := Ask(record, anchor, used, widest, after, refusals);
    }
  }

  /** A page may be refused, and narrowed, after others were answered whole. */
  lemma PagesNarrowMidWalk()
    ensures var widest := (call: nat) => if call == 2 then 10_000 else 20_000;
      && Settles(PAGE_BARS, widest, 1, {}) == (20_000, 1)
      && Settles(PAGE_BARS, widest, 2, {}) == (10_000, 3)
  {
    var widest := (call: nat) => if call == 2 then 10_000 else 20_000;
    assert Settles(10_000, widest, 3, {}) == (10_000, 3);
  }

  /** While a page is being merged: its first `mid - start` candles are in. */
  ghost predicate Merging(byTime: map<int, Bar>, record: seq<Bar>, start: nat, mid: nat, lo: nat, hi: nat)
    requires mid <= lo <= hi <= |record|
  {
    && byTime.Keys == Stamps(record, start, mid) + Stamps(record, lo, hi)
    && forall i :: start <= i < mid || lo <= i < hi ==> byTime[record[i].ms] == record[i]
  }

  lemma MergeOne(byTime: map<int, Bar>, record: seq<Bar>, stepS: int, start: nat, mid: nat, lo: nat, hi: nat)
    requires Spaced(record, stepS) && start <= mid < lo <= hi <= |record|
    requires Merging(byTime, record, start, mid, lo, hi)
    ensures Merging(byTime[record[mid].ms := record[mid]], record, start, mid + 1, lo, hi)
  {
    assert Stamps(record, start, mid + 1) == Stamps(record, start, mid) + {record[mid].ms};
  }

  method MergePage(byTime: map<int, Bar>, chunk: seq<Bar>,
      ghost record: seq<Bar>, ghost stepS: int, ghost start: nat, ghost lo: nat, ghost hi: nat)
    returns (merged: map<int, Bar>)
    requires Spaced(record, stepS) && start <= lo <= hi <= |record| && Holds(byTime, record, lo, hi)
    requires chunk == record[start..lo]
    ensures Holds(merged, record, start, hi)
  {
    hide Merging, Holds, Spaced;
    merged := byTime;
    MergeEnds(merged, record, start, lo, hi);
    for k := 0 to |chunk|
      invariant Merging(merged, record, start, start + k, lo, hi)
    {
      assert chunk[k] == record[start + k];
      MergeOne(merged, record, stepS, start, start + k, lo, hi);
      merged := merged[chunk[k].ms := chunk[k]];
    }
    MergeEnds(merged, record, start, lo, hi);
  }

  lemma MergeEnds(byTime: map<int, Bar>, record: seq<Bar>, start: nat, lo: nat, hi: nat)
    requires start <= lo <= hi <= |record|
    ensures Merging(byTime, record, start, start, lo, hi) <==> Holds(byTime, record, lo, hi)
    ensures Merging(byTime, record, start, lo, lo, hi) <==> Holds(byTime, record, start, hi)
  {
    assert Stamps(record, start, start) == {};
    assert Stamps(record, start, lo) + Stamps(record, lo, hi) == Stamps(record, start, hi);
  }

  /** `sorted` over the merged stamps, clipped to the span. */
  method Ascending(byTime: map<int, Bar>, ghost record: seq<Bar>, ghost stepS: int, ghost lo: nat, ghost hi: nat, fromS: int)
    returns (bars: seq<Bar>)
    requires Spaced(record, stepS) && lo <= hi <= |record| && Holds(byTime, record, lo, hi)
    ensures bars == record[Max(lo, Min(Below(record, fromS), hi))..hi]
  {
    hide Spaced, Below, Holds, Stamps;
    bars := [];
    var left := byTime.Keys;
    ghost var j, k := lo, Below(record, fromS);
    NoStampsLeft(byTime, record, lo, hi);
    while left != {}
      invariant lo <= j <= hi && left == Stamps(record, j, hi) && (left == {} <==> j == hi)
      invariant bars == record[Max(lo, Min(k, j))..j]
      decreases left
    {
      NextStamp(byTime, record, stepS, lo, j, hi);
      NextKept(record, stepS, lo, j, fromS);
      var t :| t in left && forall u :: u in left ==> t <= u;
      left := left - {t};
      if t >= fromS {
        bars := bars + [byTime[t]];
      }
      j := j + 1;
      NoStampsLeft(byTime, record, j, hi);
    }
  }

  lemma NoStampsLeft(byTime: map<int, Bar>, record: seq<Bar>, j: nat, hi: nat)
    requires j <= hi <= |record|
    ensures Stamps(record, j, hi) == {} <==> j == hi
    ensures Holds(byTime, record, j, hi) ==> byTime.Keys == Stamps(record, j, hi)
  {
    assert j < hi ==> record[j].ms in Stamps(record, j, hi);
  }

  /** The smallest stamp left is the next candle's, and the kept run grows by it
      exactly when it is within the span. */
  lemma NextStamp(byTime: map<int, Bar>, record: seq<Bar>, stepS: int, lo: nat, j: nat, hi: nat)
    requires Spaced(record, stepS) && lo <= j < hi <= |record| && Holds(byTime, record, lo, hi)
    ensures var t := record[j].ms;
      && t in Stamps(record, j, hi) && (forall u :: u in Stamps(record, j, hi) ==> t <= u)
      && Stamps(record, j, hi) - {t} == Stamps(record, j + 1, hi)
      && t in byTime && byTime[t] == record[j]
  {
    OldestFirst(record, stepS, j, hi);
  }

  /** One candle more, kept when it is not before `fromS`. */
  lemma NextKept(record: seq<Bar>, stepS: int, lo: nat, j: nat, fromS: int)
    requires Spaced(record, stepS) && lo <= j < |record|
    ensures var k := Below(record, fromS);
      record[Max(lo, Min(k, j + 1))..j + 1] ==
      record[Max(lo, Min(k, j))..j] + if record[j].ms >= fromS then [record[j]] else []
  {
    hide Spaced, Below;
    StampSide(record, stepS, fromS, j);
  }

  lemma OldestFirst(record: seq<Bar>, stepS: int, lo: nat, hi: nat)
    requires Spaced(record, stepS) && lo < hi <= |record|
    ensures record[lo].ms in Stamps(record, lo, hi)
    ensures forall u :: u in Stamps(record, lo, hi) ==> record[lo].ms <= u
    ensures Stamps(record, lo, hi) - {record[lo].ms} == Stamps(record, lo + 1, hi)
  {
  }

  lemma StampSide(record: seq<Bar>, stepS: int, fromS: int, j: nat)
    requires Spaced(record, stepS) && j < |record|
    ensures record[j].ms >= fromS <==> Below(record, fromS) <= j
  {
    BelowAt(record, fromS, j + 1);
    BelowAt(record, fromS, j);
  }

  /** The candle a page below `oldest` ends at is the one just before it. */
  lemma SeamLosesNothing(record: seq<Bar>, stepS: int, lo: nat)
    requires Spaced(record, stepS) && lo < |record|
    ensures Below(record, record[lo].ms - stepS + 1) == lo
  {
    BelowIs(record, record[lo].ms - stepS + 1, lo);
  }

  ghost function ReachedS(record: seq<Bar>, lo: nat, nowS: int): int {
    if lo < Below(record, nowS + 1) then record[lo].ms else nowS + 1
  }

  /** What the walk has merged, as a stretch of the record. */
  lemma MergedIsStretch(record: seq<Bar>, stepS: int, lo: nat, fromS: int, nowS: int)
    requires Spaced(record, stepS)
    requires lo <= Below(record, nowS + 1)
    ensures var hi := Below(record, nowS + 1);
      record[Max(lo, Min(Below(record, fromS), hi))..hi]
        == Prints(record, Max(fromS, ReachedS(record, lo, nowS)), nowS + 1)
  {
    var reached := ReachedS(record, lo, nowS);
    hide Sorted, BelowWithin;
    if lo < Below(record, nowS + 1) {
      StampIsItsIndex(record, stepS, lo);
    }
    hide Spaced, Below;
    BelowMax(record, fromS, reached);
    BelowMax(record, fromS, nowS + 1);
  }

  /** Reaching the oldest candle, or past the span, answers the whole span. */
  lemma WholeSpan(record: seq<Bar>, stepS: int, lo: nat, fromS: int, nowS: int)
    requires Spaced(record, stepS)
    requires lo <= Below(record, nowS + 1)
    requires lo == 0 || ReachedS(record, lo, nowS) <= fromS
    ensures Prints(record, Max(fromS, ReachedS(record, lo, nowS)), nowS + 1) == Prints(record, fromS, nowS + 1)
  {
    hide BelowWithin, Spaced;
    var reached := ReachedS(record, lo, nowS);
    if fromS < reached {
      BelowMax(record, fromS, reached);
      BelowMax(record, fromS, nowS + 1);
      if 0 < Below(record, nowS + 1) {
        StampIsItsIndex(record, stepS, 0);
        SpacedIsSorted(record, stepS);
        BelowAt(record, nowS + 1, 1);
      }
    }
  }

  lemma StampIsItsIndex(record: seq<Bar>, stepS: int, i: nat)
    requires Spaced(record, stepS) && i < |record|
    ensures Below(record, record[i].ms) == i
  {
    BelowIs(record, record[i].ms, i);
  }

  lemma BelowMax(record: seq<Bar>, a: int, b: int)
    ensures Below(record, Max(a, b)) == Max(Below(record, a), Below(record, b))
    ensures a <= b ==> Below(record, a) <= Below(record, b)
  {
    if a <= b { BelowMonotone(record, a, b); } else { BelowMonotone(record, b, a); }
  }

  /** `fetch_rates`. `reachedS` is the oldest candle merged, or just past now. */
  method FetchRates(record: seq<Bar>, stepS: int, fromS: int, nowS: int, widest: nat -> nat, ratesMaxBars: int, refusals: set<nat>)
    returns (bars: seq<Bar>, pages: nat, partial: bool, stop: Stop, calls: nat, ghost reachedS: int)
    requires Spaced(record, stepS)
    ensures bars == Prints(record, Max(fromS, reachedS), nowS + 1)
    ensures pages <= RATES_MAX_PAGES
    ensures stop in {Covered, ShortPage, NoBars} ==> bars == Prints(record, fromS, nowS + 1)
    ensures stop == PageFailed ==> partial == (reachedS <= nowS)
    ensures partial ==> stop in {PageFailed, Budget}
    ensures stop == PageFailed ==> calls in refusals || widest(calls) < MIN_PAGE_BARS
    ensures stop == Budget ==> pages == RATES_MAX_PAGES && partial == (reachedS <= nowS)
    ensures stop == Cap ==> ratesMaxBars <= |Prints(record, reachedS, nowS + 1)|
  {
    hide Spaced, Below, Holds, Stamps, Prints;
    var byTime: map<int, Bar> := map[];
    var anchor := nowS;
    pages, partial, stop := 0, false, Budget;
    var width := PAGE_BARS;
    calls := 0;
    ghost var hi := Below(record, nowS + 1);
    ghost var lo: nat := hi;
    HoldsNothing(record, hi);
    while pages < RATES_MAX_PAGES
      invariant pages <= RATES_MAX_PAGES && lo <= hi && !partial && stop == Budget
      invariant MIN_PAGE_BARS <= width
      invariant Holds(byTime, record, lo, hi) && Below(record, anchor + 1) == lo
    {
      var answer, used, after := AskPage(record, anchor, width, widest, calls, refusals);
      pages, width, calls := pages + 1, used, after;
      if !answer.Chunk? {
        partial, stop := |byTime| > 0, PageFailed;
        break;
      }
      var chunk := answer.bars;
      ghost var start := if lo < width then 0 else lo - width;
      PageIs(record, anchor, width, lo);
      if |chunk| == 0 {
        stop := NoBars;
        break;
      }
      byTime := MergePage(byTime, chunk, record, stepS, start, lo, hi);
      lo := start;
      var oldest := chunk[0].ms;
      if oldest <= fromS { stop := Covered; break; }
      if |chunk| < width { stop := ShortPage; break; }
      if |byTime| >= ratesMaxBars { stop := Cap; break; }
      SeamLosesNothing(record, stepS, lo);
      anchor := oldest - stepS;
    }
    if stop == Budget {
      partial := |byTime| > 0;
    }
    reachedS := if lo < hi then record[lo].ms else nowS + 1;
    WhatWasFetched(byTime, record, stepS, lo, fromS, nowS);
    bars := Ascending(byTime, record, stepS, lo, hi, fromS);
  }

  /** What the walk leaves, once it stops with `record[lo..]` merged. */
  lemma WhatWasFetched(byTime: map<int, Bar>, record: seq<Bar>, stepS: int, lo: nat, fromS: int, nowS: int)
    requires Spaced(record, stepS) && lo <= Below(record, nowS + 1) && Holds(byTime, record, lo, Below(record, nowS + 1))
    ensures var (hi, reachedS) := (Below(record, nowS + 1), ReachedS(record, lo, nowS));
      && record[Max(lo, Min(Below(record, fromS), hi))..hi] == Prints(record, Max(fromS, reachedS), nowS + 1)
      && (|byTime| > 0 <==> reachedS <= nowS)
      && |Prints(record, reachedS, nowS + 1)| == |byTime|
      && (lo == 0 || reachedS <= fromS ==> Prints(record, Max(fromS, reachedS), nowS + 1) == Prints(record, fromS, nowS + 1))
  {
    hide Spaced, Below, Holds, Prints;
    var hi, reachedS := Below(record, nowS + 1), ReachedS(record, lo, nowS);
    SpacedIsSorted(record, stepS);
    HoldsSomething(byTime, record, lo, hi, nowS);
    MergedIsStretch(record, stepS, lo, fromS, nowS);
    if lo == 0 || reachedS <= fromS {
      WholeSpan(record, stepS, lo, fromS, nowS);
    }
    HeldCount(byTime, record, stepS, lo, hi);
    StretchCount(record, stepS, lo, nowS);
  }

  /** One entry a candle: the merge counts what it holds. */
  lemma {:induction false} HeldCount(byTime: map<int, Bar>, record: seq<Bar>, stepS: int, lo: nat, hi: nat)
    requires Spaced(record, stepS) && lo <= hi <= |record| && Holds(byTime, record, lo, hi)
    ensures |byTime| == hi - lo
  {
    StampCount(record, stepS, lo, hi);
    assert |byTime| == |byTime.Keys|;
  }

  lemma {:induction false} StampCount(record: seq<Bar>, stepS: int, lo: nat, hi: nat)
    requires Spaced(record, stepS) && lo <= hi <= |record|
    ensures |Stamps(record, lo, hi)| == hi - lo
    decreases hi - lo
  {
    if lo < hi {
      OldestFirst(record, stepS, lo, hi);
      StampCount(record, stepS, lo + 1, hi);
    }
  }

  lemma StretchCount(record: seq<Bar>, stepS: int, lo: nat, nowS: int)
    requires Spaced(record, stepS) && lo <= Below(record, nowS + 1)
    ensures |Prints(record, ReachedS(record, lo, nowS), nowS + 1)| == Below(record, nowS + 1) - lo
  {
    if lo < Below(record, nowS + 1) {
      StampIsItsIndex(record, stepS, lo);
    }
  }

  lemma SpacedIsSorted(record: seq<Bar>, stepS: int)
    requires Spaced(record, stepS)
    ensures Sorted(record)
  {
  }

  lemma HoldsNothing(record: seq<Bar>, hi: nat)
    requires hi <= |record|
    ensures Holds(map[], record, hi, hi)
  {
  }

  lemma HoldsSomething(byTime: map<int, Bar>, record: seq<Bar>, lo: nat, hi: nat, nowS: int)
    requires lo <= hi == Below(record, nowS + 1) && Holds(byTime, record, lo, hi)
    requires Sorted(record)
    ensures |byTime| > 0 <==> lo < hi
    ensures lo < hi ==> record[lo].ms <= nowS
  {
    BelowAt(record, nowS + 1, if lo < hi then lo + 1 else lo);
    assert lo < hi ==> record[lo].ms in byTime.Keys;
    assert lo == hi ==> byTime.Keys == {};
  }

  /** A page is the stretch of at most `width` candles ending where it was asked. */
  lemma PageIs(record: seq<Bar>, anchor: int, width: nat, lo: nat)
    requires Below(record, anchor + 1) == lo && width > 0
    ensures var start := if lo < width then 0 else lo - width;
      && CopyRatesFrom(record, anchor, width) == record[start..lo]
      && (start == lo ==> lo == 0) && (lo - start < width ==> start == 0)
      && (start < lo ==> CopyRatesFrom(record, anchor, width)[0] == record[start])
  {
  }
}
