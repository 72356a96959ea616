/** Cutting the opening session into the slices that follow the opening block. */
module Slices {
  import opened Numbers
  import opened Terminal
  import opened Wrappers
  import opened Paging

  ghost predicate Older(a: seq<Tick>, b: seq<Tick>) {
    |a| > 0 && |b| > 0 && a[|a| - 1].ms < b[0].ms
  }

  /** Slices newest first: none empty, none over the feed's cap, and each wholly
      older than the one before it, so no millisecond is shared. */
  ghost predicate Sliced(slices: seq<seq<Tick>>) {
    && (forall k :: 0 <= k < |slices| ==> 0 < |slices[k]| <= MAX_SLICE_TICKS)
    && (forall k :: 0 < k < |slices| ==> Older(slices[k], slices[k - 1]))
  }

  /** `slices` holds exactly `ticks[edge..]`, cut at group edges only. */
  ghost predicate CutDownTo(ticks: seq<Tick>, slices: seq<seq<Tick>>, edge: nat) {
    && edge < |ticks| && GroupEdge(ticks, edge)
    && |slices| > 0 && Sliced(slices)
    && Joined(slices) == ticks[edge..]
    && slices[|slices| - 1][0] == ticks[edge]
    && slices[0][|slices[0]| - 1] == ticks[|ticks| - 1]
  }

  /** Each slice ends where the newer one begins and starts where a page of `wanted`
      prints would. */
  ghost predicate CutBy(ticks: seq<Tick>, slices: seq<seq<Tick>>, edge: nat, wanted: nat)
    decreases |slices|
  {
    if |slices| == 0 then edge == |ticks|
    else
      var older := slices[|slices| - 1];
      var end := edge + |older|;
      && end <= |ticks| && older == ticks[edge..end] && Cuts(ticks, end, wanted, edge)
      && CutBy(ticks, slices[..|slices| - 1], end, wanted)
  }

  lemma {:induction false} CutOneMore(ticks: seq<Tick>, slices: seq<seq<Tick>>, edge: nat, start: nat, wanted: nat)
    requires start <= edge <= |ticks| && CutBy(ticks, slices, edge, wanted) && Cuts(ticks, edge, wanted, start)
    ensures CutBy(ticks, slices + [ticks[start..edge]], start, wanted)
  {
    assert (slices + [ticks[start..edge]])[..|slices|] == slices;
  }

  lemma {:induction false} FirstCutBy(ticks: seq<Tick>, start: nat, wanted: nat)
    requires start <= |ticks| && Cuts(ticks, |ticks|, wanted, start)
    ensures CutBy(ticks, [ticks[start..|ticks|]], start, wanted)
  {
    CutOneMore(ticks, [], |ticks|, start, wanted);
    assert [] + [ticks[start..|ticks|]] == [ticks[start..|ticks|]];
  }

  lemma FirstCut(ticks: seq<Tick>, edge: nat)
    requires edge < |ticks| <= edge + MAX_SLICE_TICKS && GroupEdge(ticks, edge)
    ensures CutDownTo(ticks, [ticks[edge..|ticks|]], edge)
  {
    JoinedAppend([], ticks[edge..]);
    assert [] + [ticks[edge..]] == [ticks[edge..]];
  }

  lemma NextCut(ticks: seq<Tick>, slices: seq<seq<Tick>>, edge: nat, start: nat)
    requires Sorted(ticks) && CutDownTo(ticks, slices, edge)
    requires start < edge <= start + MAX_SLICE_TICKS && GroupEdge(ticks, start)
    ensures CutDownTo(ticks, slices + [ticks[start..edge]], start)
  {
    var older := ticks[start..edge];
    JoinedAppend(slices, older);
    assert older + ticks[edge..] == ticks[start..];
    assert ticks[edge - 1].ms <= ticks[edge].ms;
    assert Older(older, slices[|slices| - 1]);
  }

  method FirstSlice(ticks: seq<Tick>, sliceTicks: nat) returns (start: Option<nat>)
    requires 1 <= sliceTicks <= MAX_SLICE_TICKS
    ensures ticks == [] ==> start == Some(0)
    ensures start.Some? && ticks != [] ==>
      start.value < |ticks| && CutDownTo(ticks, [ticks[start.value..|ticks|]], start.value)
    ensures start.Some? ==> Cuts(ticks, |ticks|, sliceTicks, start.value) && start.value <= |ticks|
    ensures start.None? ==> |ticks| > MAX_SLICE_TICKS
  {
    start := PageStart(ticks, |ticks|, sliceTicks);
    if start.Some? && ticks != [] {
      CutsBound(ticks, |ticks|, sliceTicks, start.value);
      FirstCut(ticks, start.value);
    }
  }

  method NextSlice(ticks: seq<Tick>, ghost slices: seq<seq<Tick>>, edge: nat, sliceTicks: nat)
    returns (start: Option<nat>)
    requires Sorted(ticks) && 0 < edge && CutDownTo(ticks, slices, edge)
    requires 1 <= sliceTicks <= MAX_SLICE_TICKS
    ensures start.Some? ==> start.value < edge && CutDownTo(ticks, slices + [ticks[start.value..edge]], start.value)
    ensures start.Some? ==> Cuts(ticks, edge, sliceTicks, start.value)
    ensures start.None? ==> edge > MAX_SLICE_TICKS
  {
    start := PageStart(ticks, edge, sliceTicks);
    if start.Some? {
      CutsBound(ticks, edge, sliceTicks, start.value);
      NextCut(ticks, slices, edge, start.value);
    }
  }

  /** The block that opens the chart, and the slices parked behind it. */
  datatype Opening = Opening(block: seq<Tick>, parked: seq<seq<Tick>>)

  /** The slicing half of `backfill`. None is the refusal of a millisecond too
      dense for the feed to take whole. */
  method SliceSession(ticks: seq<Tick>, sliceArg: int) returns (opening: Option<Opening>)
    requires Sorted(ticks)
    ensures opening.Some? && ticks != [] ==>
      CutDownTo(ticks, [opening.value.block] + opening.value.parked, 0)
    ensures opening.Some? ==>
      CutBy(ticks, [opening.value.block] + opening.value.parked, 0, Max(1, Min(sliceArg, MAX_SLICE_TICKS)))
    ensures opening.Some? && ticks == [] ==> opening.value == Opening([], [])
    ensures opening.None? ==> |ticks| > MAX_SLICE_TICKS
  {
    hide Cuts, CutBy, CutDownTo, Sorted;
    var sliceTicks := Max(1, Min(sliceArg, MAX_SLICE_TICKS));
    var end := |ticks|;
    var start := FirstSlice(ticks, sliceTicks);
    if start.None? {
      return None;
    }
    var block := ticks[start.value..end];
    FirstCutBy(ticks, start.value, sliceTicks);
    if end == 0 {
      assert [block] + [] == [block] && block == [];
      return Some(Opening(block, []));
    }
    var parked := [];
    ghost var slices := [block];
    end := start.value;
    while end > 0
      invariant 0 <= end && slices == [block] + parked
      invariant CutDownTo(ticks, slices, end) && CutBy(ticks, slices, end, sliceTicks)
    {
      start := NextSlice(ticks, slices, end, sliceTicks);
      if start.None? {
        return None;
      }
      var older := ticks[start.value..end];
      CutOneMore(ticks, slices, end, start.value, sliceTicks);
      slices, parked := slices + [older], parked + [older];
      end := start.value;
    }
    return Some(Opening(block, parked));
  }

  /** The memory bound: the newest prints win, from a group edge on. */
  method TrimSession(ticks: seq<Tick>, maxTicks: int) returns (kept: Option<seq<Tick>>)
    requires Sorted(ticks)
    ensures kept.Some? ==> exists cut: nat ::
      cut <= |ticks| && Cuts(ticks, |ticks|, Max(1, maxTicks), cut) && kept.value == ticks[cut..]
    ensures kept.Some? && ticks != [] ==> kept.value != []
    ensures kept.Some? ==> Sorted(kept.value)
    ensures kept.None? ==> |ticks| > Max(maxTicks, MAX_SLICE_TICKS)
  {
    var cap := Max(1, maxTicks);
    if |ticks| <= cap {
      assert Cuts(ticks, |ticks|, cap, 0) && ticks == ticks[0..];
      return Some(ticks);
    }
    var cut := PageStart(ticks, |ticks|, cap);
    if cut.None? {
      return None;
    }
    CutsBound(ticks, |ticks|, cap, cut.value);
    SortedSlice(ticks, cut.value, |ticks|);
    assert ticks[cut.value..|ticks|] == ticks[cut.value..];
    return Some(ticks[cut.value..]);
  }

  /** Read oldest first, the opening block and its parked slices are the session
      they were cut from, with nothing lost, repeated or split. */
  lemma SlicesAreTheSession(ticks: seq<Tick>, opening: Opening)
    requires CutDownTo(ticks, [opening.block] + opening.parked, 0)
    ensures Joined(opening.parked) + opening.block == ticks
  {
    JoinedPrepend(opening.block, opening.parked);
  }

  lemma {:induction false} JoinedPrepend(newest: seq<Tick>, windows: seq<seq<Tick>>)
    ensures Joined([newest] + windows) == Joined(windows) + newest
  {
    if |windows| == 0 {
      JoinedAppend([], newest);
      assert [newest] + windows == [] + [newest];
    } else {
      var rest, last := windows[..|windows| - 1], windows[|windows| - 1];
      JoinedPrepend(newest, rest);
      JoinedAppend([newest] + rest, last);
      assert [newest] + windows == [newest] + rest + [last];
    }
  }
}
