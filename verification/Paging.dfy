/** Cutting a block at a page boundary without splitting a millisecond. */
module Paging {
  import opened Numbers
  import opened Terminal
  import opened Wrappers

  const MAX_SLICE_TICKS := 250_000

  /** The first print of its millisecond. */
  ghost predicate GroupEdge(ticks: seq<Tick>, i: int)
    requires 0 <= i < |ticks|
  {
    i == 0 || ticks[i - 1].ms != ticks[i].ms
  }

  ghost predicate NoEdgeIn(ticks: seq<Tick>, lo: int, hi: int)
    requires 0 <= lo && hi <= |ticks|
  {
    forall i :: lo <= i < hi ==> !GroupEdge(ticks, i)
  }

  /** `start` is where the newest page of `ticks[..end]` begins: everything when
      it fits; otherwise the first group edge within the last `wanted` prints;
      otherwise the one edge of the group that fills the whole page. */
  ghost predicate Cuts(ticks: seq<Tick>, end: nat, wanted: nat, start: nat)
    requires end <= |ticks|
  {
    if end <= wanted then start == 0 else
      && start < end
      && GroupEdge(ticks, start)
      && (start >= end - wanted ==> NoEdgeIn(ticks, end - wanted, start))
      && (start < end - wanted ==> NoEdgeIn(ticks, start + 1, end) && end - start <= MAX_SLICE_TICKS)
  }

  /** No other start qualifies, so `Cuts` is the whole behaviour. */
  lemma CutsUnique(ticks: seq<Tick>, end: nat, wanted: nat, a: nat, b: nat)
    requires end <= |ticks|
    requires Cuts(ticks, end, wanted, a) && Cuts(ticks, end, wanted, b)
    ensures a == b
  {
    if end > wanted {
      assert GroupEdge(ticks, a) && GroupEdge(ticks, b);
    }
  }

  /** The cap the cut respects: a page is never longer than this. */
  lemma CutsBound(ticks: seq<Tick>, end: nat, wanted: nat, start: nat)
    requires end <= |ticks| && Cuts(ticks, end, wanted, start)
    ensures end - start <= Max(wanted, MAX_SLICE_TICKS)
    ensures end > 0 && wanted > 0 ==> start < end
  {
  }

  /** `page_start`. Nothing is answered when the one group filling the page is
      too large for the feed to take whole. */
  method PageStart(ticks: seq<Tick>, end: nat, wanted: nat) returns (start: Option<nat>)
    requires end <= |ticks| && wanted >= 1
    ensures start.Some? ==> Cuts(ticks, end, wanted, start.value)
    ensures start.None? <==>
      var cap := Max(wanted, MAX_SLICE_TICKS);
      end > cap && NoEdgeIn(ticks, end - cap, end)
  {
    var s := Max(0, end - wanted);
    if s == 0 {
      return Some(0);
    }
    var stamp := ticks[s].ms;
    if ticks[s - 1].ms != stamp {
      assert GroupEdge(ticks, s);
      return Some(s);
    }
    var right := s;
    while right < end && ticks[right].ms == stamp
      invariant s <= right <= end
      invariant forall i :: s <= i < right ==> ticks[i].ms == stamp
    {
      right := right + 1;
    }
    if right < end {
      assert GroupEdge(ticks, right);
      return Some(right);
    }
    while s > 0 && ticks[s - 1].ms == stamp
      invariant 0 <= s <= end - wanted
      invariant forall i :: s <= i < end ==> ticks[i].ms == stamp
    {
      s := s - 1;
    }
    assert GroupEdge(ticks, s);
    if end - s > MAX_SLICE_TICKS {
      return None;
    }
    return Some(s);
  }
}
