/** The anchored range profile: a cache refreshed a budget at a time, against the
    one-shot fold of the range it stands for. */
module ProfileCache {
  import opened Numbers
  import opened RangeFold
  import opened Wrappers

  const F32_MAX: real := 340282346638528859811704183484516925440.0

  datatype Inputs = Inputs(
    tape: Tape, partial: Option<Ladder>, group: int, seriesRevision: nat, partialVersion: nat,
    blocked: bool, sideInferred: bool, partialBucketSlot: Option<nat>, budget: nat)

  datatype Request = Request(minBar: real, maxBar: real, extendRight: bool, approximate: bool, pct: nat)

  datatype Key = Key(
    startSlot: nat, endSlot: nat, group: int, seriesRevision: nat, includePartial: bool, partialSnapshot: nat,
    pct: nat, blocked: bool, sideInferred: bool, approximate: bool, partlyCovered: bool)
  {
    predicate SameFold(other: Key) {
      this.(partialSnapshot := other.partialSnapshot) == other
    }

    predicate GrownRight(other: Key) {
      && other.endSlot > endSlot
      && this.(endSlot := other.endSlot, partialSnapshot := other.partialSnapshot,
               includePartial := other.includePartial) == other
    }

    /** The last slot a fold of closed bars runs to: the forming bar is never in it. */
    function LastClosed(): nat {
      if includePartial && endSlot > 0 then endSlot - 1 else endSlot
    }
  }

  datatype Empty = NoTape | Blocked

  datatype Job = Job(fold: Fold, next: nat, end: nat)

  datatype Cache = Cache(
    key: Key, profile: Option<Profile>, empty: Option<Empty>, barsCovered: nat, closedCovered: nat,
    barsApproximated: nat, barsPartlyCovered: nat, barsFolded: nat, barsTotal: nat, folding: bool, job: Option<Job>)

  // ------------------------------------------------------------------ the span

  function CoveredSlots(minBar: real, maxBar: real, lastSlot: Option<nat>): (span: Option<(nat, nat)>)
    ensures span.Some? ==> span.value.0 <= span.value.1
    ensures forall slot: nat :: InSpan(span, slot) <==> lastSlot.Some? && slot <= lastSlot.value && Round(minBar) <= slot <= Round(maxBar)
  {
    if lastSlot.None? then None
    else
      var (first, last) := (Round(minBar), Round(maxBar));
      if last < 0 || first > lastSlot.value then None
      else
        var (start, end) := (Max(first, 0), Min(Max(last, 0), lastSlot.value));
        if start <= end then Some((start, end)) else None
  }

  predicate InSpan(span: Option<(nat, nat)>, slot: nat) {
    span.Some? && span.value.0 <= slot <= span.value.1
  }

  function PartialSlot(inputs: Inputs): Option<nat> {
    if inputs.partial.Some? then Some(ClosedTotal(inputs.tape)) else None
  }

  function LastSlot(inputs: Inputs): Option<nat> {
    var closed := ClosedTotal(inputs.tape);
    if inputs.partial.Some? then Some(closed) else if closed > 0 then Some(closed - 1) else None
  }

  function SpanOf(request: Request, inputs: Inputs): Option<(nat, nat)> {
    CoveredSlots(request.minBar, if request.extendRight then F32_MAX else request.maxBar, LastSlot(inputs))
  }

  function BarsTotal(span: Option<(nat, nat)>): nat {
    if span.Some? && span.value.0 <= span.value.1 then span.value.1 - span.value.0 + 1 else 0
  }

  function KeyOf(request: Request, inputs: Inputs): Key {
    var span := SpanOf(request, inputs);
    var (start, end) := if span.Some? then span.value else (0, 0);
    var includePartial := span.Some? && PartialSlot(inputs).Some? && PartialSlot(inputs).value <= end;
    var partlyCovered := inputs.partialBucketSlot.Some? && InSpan(span, inputs.partialBucketSlot.value);
    Key(start, end, inputs.group, inputs.seriesRevision, includePartial, if includePartial then inputs.partialVersion else 0,
        request.pct, inputs.blocked, inputs.sideInferred, request.approximate, partlyCovered)
  }

  // ------------------------------------------------------------- the operations

  /** The forming bar joins a copy of the fold, every time it moves. */
  function Derived(k: Kernel, cache: Cache, inputs: Inputs): Cache {
    if cache.job.None? then cache
    else
      var shown := Shown(k, cache.job.value.fold, cache.key, inputs.partial);
      cache.(
        barsCovered := cache.closedCovered + if shown.1 then 1 else 0,
        profile := shown.0,
        barsFolded := if cache.folding then cache.barsFolded else cache.barsTotal,
        empty := if cache.folding then cache.empty else if shown.0.None? then Some(NoTape) else None)
  }

  /** What is drawn of a fold, and whether the forming bar is in it. */
  function Shown(k: Kernel, fold: Fold, key: Key, partial: Option<Ladder>): (Option<Profile>, bool) {
    if key.includePartial && partial.Some? then
      var (withPartial, joined) := k.pushLadder(fold, partial.value);
      (k.read(withPartial, key.pct), joined)
    else (k.read(fold, key.pct), false)
  }

  /** With approximation off the venue candles are stepped over at once. */
  function Skipped(cache: Cache, tape: Tape): Cache {
    if cache.job.Some? && !cache.key.approximate && cache.job.value.next < |tape.prefix| then
      cache.(barsFolded := cache.barsFolded + (|tape.prefix| - cache.job.value.next),
             job := Some(cache.job.value.(next := |tape.prefix|)))
    else cache
  }

  function Advanced(k: Kernel, cache: Cache, inputs: Inputs): Cache {
    if cache.job.None? then cache
    else
      var skipped := Skipped(cache, inputs.tape);
      var job := skipped.job.value;
      var w := WalkOn(k, inputs.tape, Walk(Sum(job.fold, skipped.closedCovered, skipped.barsApproximated), job.next, 0),
                      job.end, inputs.budget);
      Derived(k, Walked(k, skipped, w), inputs)
  }

  /** A cache after a walk; the last input in, the pending spreads are folded once. */
  function Walked(k: Kernel, cache: Cache, w: Walk): Cache
    requires cache.job.Some? && w.next >= cache.job.value.next
  {
    var folding := w.next <= cache.job.value.end;
    cache.(
      closedCovered := w.sum.covered, barsApproximated := w.sum.approximated,
      barsFolded := cache.barsFolded + (w.next - cache.job.value.next), folding := folding,
      job := Some(Job(if folding then w.sum.fold else k.seal(w.sum.fold), w.next, cache.job.value.end)))
  }

  function CarriesOn(cache: Cache, key: Key): bool {
    cache.key.SameFold(key) || cache.key.GrownRight(key)
  }

  /** The same fold, its right edge perhaps further on. */
  function Grown(cache: Cache, key: Key, barsTotal: nat): Cache {
    if key.endSlot <= cache.key.endSlot then cache.(key := key)
    else if cache.job.None? then cache.(key := key, barsTotal := barsTotal)
    else
      var job := cache.job.value.(end := key.LastClosed());
      cache.(key := key, barsTotal := barsTotal, job := Some(job), folding := job.next <= job.end)
  }

  function Carried(k: Kernel, cache: Cache, request: Request, inputs: Inputs): Cache {
    var key := KeyOf(request, inputs);
    var grown := Grown(cache, key, BarsTotal(SpanOf(request, inputs)));
    if grown.folding then Advanced(k, grown, inputs)
    else if cache.key.partialSnapshot != key.partialSnapshot || key.endSlot > cache.key.endSlot then Derived(k, grown, inputs)
    else grown
  }

  function Opened(k: Kernel, request: Request, inputs: Inputs): Cache {
    var (key, span) := (KeyOf(request, inputs), SpanOf(request, inputs));
    if inputs.blocked then
      Cache(key, None, Some(Blocked), 0, 0, 0, 0, 0, BarsTotal(span), false, None)
    else
      Advanced(k, Cold(k, key, span), inputs)
  }

  function Cold(k: Kernel, key: Key, span: Option<(nat, nat)>): Cache {
    var job := if span.Some? then Some(Job(k.open(key.group), span.value.0, key.LastClosed())) else None;
    Cache(key, None, if span.Some? then None else Some(NoTape), 0, 0, 0, if key.partlyCovered then 1 else 0,
          0, BarsTotal(span), span.Some?, job)
  }

  function Refreshed(k: Kernel, current: Option<Cache>, request: Request, inputs: Inputs): Cache {
    if current.Some? && CarriesOn(current.value, KeyOf(request, inputs))
    then Carried(k, current.value, request, inputs)
    else Opened(k, request, inputs)
  }

  // ------------------------------------------------------------- what it must be

  /** The fold of a range's closed slots, all at once, starting at `from`. */
  ghost function OneShot(k: Kernel, key: Key, tape: Tape, from: nat): Sum {
    FoldRange(k, tape, key.approximate, key.group, from, key.LastClosed() + 1)
  }

  /** What a finished cache shows: the one-shot fold of the closed slots from `from`
      on, the forming ladder added where the range reaches it. */
  ghost predicate ShowsFrom(k: Kernel, cache: Cache, tape: Tape, partial: Option<Ladder>, from: nat) {
    var sum := OneShot(k, cache.key, tape, from);
    var shown := Shown(k, sum.fold, cache.key, partial);
    && cache.profile == shown.0
    && cache.closedCovered == sum.covered && cache.barsCovered == sum.covered + (if shown.1 then 1 else 0)
    && cache.barsApproximated == sum.approximated
    && cache.barsFolded == cache.barsTotal
    && cache.empty == (if shown.0.None? then Some(NoTape) else None)
  }

  /** The tape and range a key can stand for. */
  ghost predicate Fits(key: Key, tape: Tape) {
    && key.startSlot <= key.endSlot && key.endSlot <= ClosedTotal(tape)
    && (key.includePartial <==> key.endSlot == ClosedTotal(tape))
  }

  /** A running fold holds exactly the slots from `from` it has passed. */
  ghost predicate HoldsFrom(k: Kernel, cache: Cache, tape: Tape, from: nat) {
    && cache.job.Some? && Fits(cache.key, tape)
    && var job := cache.job.value;
    && job.end == cache.key.LastClosed() && cache.key.startSlot <= from <= job.next
    && (job.next <= job.end + 1 || (!cache.key.approximate && job.next == |tape.prefix|))
    && Alike(k, Sum(job.fold, cache.closedCovered, cache.barsApproximated),
             FoldRange(k, tape, cache.key.approximate, cache.key.group, from, job.next))
    && cache.barsTotal == cache.key.endSlot - cache.key.startSlot + 1
    && cache.barsPartlyCovered == (if cache.key.partlyCovered then 1 else 0)
  }

  /** It has passed no slot that was not closed. */
  ghost predicate PassedClosed(cache: Cache, tape: Tape, from: nat) {
    cache.job.Some? && (cache.job.value.next <= ClosedTotal(tape) || cache.job.value.next == from)
  }

  ghost predicate KeyedBy(key: Key, inputs: Inputs) {
    && key.seriesRevision == inputs.seriesRevision && key.group == inputs.group && key.blocked == inputs.blocked
    && (key.includePartial ==> key.partialSnapshot == inputs.partialVersion)
  }

  ghost predicate ShowsBlocked(cache: Cache) {
    && cache.job.None? && !cache.folding && cache.profile.None? && cache.empty == Some(Blocked)
    && cache.barsCovered == cache.closedCovered == cache.barsApproximated == cache.barsPartlyCovered == cache.barsFolded == 0
  }

  ghost predicate ShowsNothing(cache: Cache) {
    && cache.job.None? && !cache.folding && cache.profile.None? && cache.empty == Some(NoTape)
    && cache.barsCovered == cache.closedCovered == cache.barsApproximated == cache.barsPartlyCovered == cache.barsFolded == 0
  }

  /** A cache in order, over the slots of its range from `from` on. */
  ghost predicate SoundFrom(k: Kernel, cache: Cache, inputs: Inputs, from: nat) {
    && KeyedBy(cache.key, inputs) && !cache.key.blocked
    && HoldsFrom(k, cache, inputs.tape, from) && PassedClosed(cache, inputs.tape, from)
    && (cache.folding <==> cache.job.value.next <= cache.job.value.end)
    && (!cache.folding ==> ShowsFrom(k, cache, inputs.tape, inputs.partial, from))
  }

  /** What every refresh should leave: the whole range folded or being folded, or
      the word that it is blocked. */
  ghost predicate Sound(k: Kernel, cache: Cache, inputs: Inputs) {
    if inputs.blocked then KeyedBy(cache.key, inputs) && ShowsBlocked(cache)
    else
      && KeyedBy(cache.key, inputs) && HoldsFrom(k, cache, inputs.tape, cache.key.startSlot)
      && (cache.folding <==> cache.job.value.next <= cache.job.value.end)
      && (!cache.folding ==> ShowsFrom(k, cache, inputs.tape, inputs.partial, cache.key.startSlot))
  }

  /** An equal series revision means the tape was only appended to, and an equal
      partial version the same forming ladder. */
  ghost predicate Steady(was: Inputs, inputs: Inputs) {
    was.seriesRevision == inputs.seriesRevision && was.group == inputs.group ==>
      && Extends(was.tape, inputs.tape)
      && (was.tape.closed == inputs.tape.closed && was.partialVersion == inputs.partialVersion ==> was.partial == inputs.partial)
  }

  /** The range is slot 0 alone, and slot 0 is still forming. */
  predicate FormingZero(request: Request, inputs: Inputs) {
    KeyOf(request, inputs).includePartial && KeyOf(request, inputs).endSlot == 0
  }

  /** Where the fold starts once it is asked for this: a pass over the forming
      slot 0 steps past it. */
  function FromAfter(from: nat, request: Request, inputs: Inputs): nat {
    if FormingZero(request, inputs) && inputs.budget > 0 then 1 else from
  }

  lemma KeyFits(request: Request, inputs: Inputs)
    requires SpanOf(request, inputs).Some?
    ensures var key := KeyOf(request, inputs);
      && Fits(key, inputs.tape) && KeyedBy(key, inputs)
      && BarsTotal(SpanOf(request, inputs)) == key.endSlot - key.startSlot + 1
  {
    hide Round, CoveredSlots;
    var span := SpanOf(request, inputs);
    assert InSpan(span, span.value.1);
    assert SpanOf(request, inputs) == CoveredSlots(request.minBar, if request.extendRight then F32_MAX else request.maxBar, LastSlot(inputs));
  }

  lemma ShownAlike(k: Kernel, f: Fold, g: Fold, key: Key, partial: Option<Ladder>)
    requires Lawful(k) && k.rows(f) == k.rows(g)
    ensures Shown(k, f, key, partial) == Shown(k, g, key, partial)
  {
    if key.includePartial && partial.Some? {
      assert SameLadder(k, f, g, partial.value);
      ReadAlike(k, k.pushLadder(f, partial.value).0, k.pushLadder(g, partial.value).0, key.pct);
    } else {
      ReadAlike(k, f, g, key.pct);
    }
  }

  /** A fold past its last closed slot holds the whole range, and shows it. */
  lemma DerivedShows(k: Kernel, cache: Cache, inputs: Inputs, from: nat)
    requires Lawful(k) && HoldsFrom(k, cache, inputs.tape, from)
    requires cache.folding <==> cache.job.value.next <= cache.job.value.end
    ensures HoldsFrom(k, Derived(k, cache, inputs), inputs.tape, from)
    ensures !cache.folding ==> ShowsFrom(k, Derived(k, cache, inputs), inputs.tape, inputs.partial, from)
  {
    hide Lawful, Shown, FoldRange, Fits;
    var job, key := cache.job.value, cache.key;
    if !cache.folding {
      if job.next != job.end + 1 {
        CandlesAreSkipped(k, inputs.tape, key.group, from, job.end + 1, job.next);
      }
      ShownAlike(k, job.fold, OneShot(k, key, inputs.tape, from).fold, key, inputs.partial);
    }
  }

  lemma SkippedHolds(k: Kernel, cache: Cache, tape: Tape, from: nat)
    requires HoldsFrom(k, cache, tape, from)
    ensures HoldsFrom(k, Skipped(cache, tape), tape, from)
    ensures Skipped(cache, tape).key == cache.key
    ensures cache.key.approximate || Skipped(cache, tape).job.value.next >= |tape.prefix|
  {
    hide FoldRange, Fits, Alike;
    var job, key := cache.job.value, cache.key;
    if !key.approximate && job.next < |tape.prefix| {
      CandlesAreSkipped(k, tape, key.group, from, job.next, |tape.prefix|);
    }
  }

  /** A pass over a fold that holds what it passed leaves it holding what it passed,
      and showing the range once it is done. */
  lemma AdvancedHolds(k: Kernel, cache: Cache, inputs: Inputs, from: nat)
    requires Lawful(k) && HoldsFrom(k, cache, inputs.tape, from)
    ensures var after := Advanced(k, cache, inputs);
      && HoldsFrom(k, after, inputs.tape, from) && after.key == cache.key
      && (after.folding <==> after.job.value.next <= after.job.value.end)
      && (!after.folding ==> ShowsFrom(k, after, inputs.tape, inputs.partial, from))
  {
    hide Lawful, FoldRange, Fits, Alike, Shown, Skipped, ShowsFrom;
    var skipped, tape, key := Skipped(cache, inputs.tape), inputs.tape, cache.key;
    SkippedHolds(k, cache, tape, from);
    var job := skipped.job.value;
    var start := Walk(Sum(job.fold, skipped.closedCovered, skipped.barsApproximated), job.next, 0);
    WalkFolds(k, tape, key.approximate, key.group, from, start, job.end, inputs.budget);
    var w := WalkOn(k, tape, start, job.end, inputs.budget);
    SealedAlike(k, w.sum, FoldRange(k, tape, key.approximate, key.group, from, w.next));
    var walked := Walked(k, skipped, w);
    assert HoldsFrom(k, walked, tape, from);
    DerivedShows(k, walked, inputs, from);
    assert Advanced(k, cache, inputs) == Derived(k, walked, inputs);
    DerivedKeeps(k, walked, inputs);
  }

  /** How far a pass gets: to the end at most, and past the forming slot 0 if it
      has any budget. */
  lemma AdvancedReaches(k: Kernel, cache: Cache, inputs: Inputs)
    requires cache.job.Some?
    ensures Advanced(k, cache, inputs).job.Some?
    ensures var (was, next) := (cache.job.value, Advanced(k, cache, inputs).job.value.next);
      && was.next <= next && (next <= was.next || next <= was.end + 1 || next <= |inputs.tape.prefix|)
      && (inputs.budget == 0 && inputs.tape.prefix == [] ==> next == was.next)
      && (inputs.budget > 0 && was.next <= was.end ==> next > was.next)
  {
    hide WalkOn;
  }

  lemma DerivedKeeps(k: Kernel, cache: Cache, inputs: Inputs)
    ensures var d := Derived(k, cache, inputs);
      d.key == cache.key && d.job == cache.job && d.folding == cache.folding
  {
  }

  lemma SealedAlike(k: Kernel, a: Sum, b: Sum)
    requires Lawful(k) && Alike(k, a, b)
    ensures Alike(k, a.(fold := k.seal(a.fold)), b) && Alike(k, Sum(a.fold, a.covered, a.approximated), b)
  {
    SealIsNeutral(k, a);
  }

  /** A key that carries on fits the tape as it is now; an empty span carries on only
      over a range of slot 0. */
  lemma CarriedKeyFits(k: Kernel, cache: Cache, was: Inputs, request: Request, inputs: Inputs, from: nat)
    requires SoundFrom(k, cache, was, from) && Steady(was, inputs) && CarriesOn(cache, KeyOf(request, inputs))
    ensures var key := KeyOf(request, inputs);
      && Fits(key, inputs.tape) && KeyedBy(key, inputs) && Extends(was.tape, inputs.tape)
      && (key.endSlot > cache.key.endSlot ==> BarsTotal(SpanOf(request, inputs)) == key.endSlot - key.startSlot + 1)
  {
    hide FoldRange, Alike, SpanOf, BarsTotal, ShowsFrom;
    if SpanOf(request, inputs).Some? {
      KeyFits(request, inputs);
    }
  }

  /** A range that carried on still holds what it passed, on the tape as it is now. */
  lemma GrownHolds(k: Kernel, cache: Cache, was: Inputs, request: Request, inputs: Inputs, from: nat)
    requires SoundFrom(k, cache, was, from) && Steady(was, inputs) && CarriesOn(cache, KeyOf(request, inputs))
    ensures var grown := Grown(cache, KeyOf(request, inputs), BarsTotal(SpanOf(request, inputs)));
      && HoldsFrom(k, grown, inputs.tape, from) && KeyedBy(grown.key, inputs) && !grown.key.blocked
      && grown.key == KeyOf(request, inputs) && grown.job.value.next == cache.job.value.next
      && PassedClosed(grown, inputs.tape, from)
      && (grown.folding <==> grown.job.value.next <= grown.job.value.end)
  {
    var key, job := KeyOf(request, inputs), cache.job.value;
    CarriedKeyFits(k, cache, was, request, inputs, from);
    hide Alike, SpanOf, KeyOf, BarsTotal, ShowsFrom;
    if job.next <= ClosedTotal(was.tape) {
      ExtendedFold(k, was.tape, inputs.tape, key.approximate, key.group, from, job.next);
    }
  }

  /** Nothing moved: what was shown is still what the range holds. */
  lemma StillShows(k: Kernel, cache: Cache, was: Inputs, key: Key, inputs: Inputs, from: nat)
    requires SoundFrom(k, cache, was, from) && Steady(was, inputs) && !cache.folding
    requires cache.key.SameFold(key) && cache.key.partialSnapshot == key.partialSnapshot
    requires Fits(key, inputs.tape) && KeyedBy(key, inputs)
    ensures ShowsFrom(k, cache, inputs.tape, inputs.partial, from)
  {
    hide FoldRange, Alike;
    assert cache.key == key;
    assert key.includePartial ==> was.tape.closed == inputs.tape.closed;
    ExtendedFold(k, was.tape, inputs.tape, key.approximate, key.group, from, key.LastClosed() + 1);
  }

  /** Without a job nothing is ever read: only the key and the count move. */
  lemma NoJobNothingMoves(k: Kernel, cache: Cache, request: Request, inputs: Inputs)
    requires cache.job.None? && !cache.folding
    ensures var r := Carried(k, cache, request, inputs);
      r == cache.(key := KeyOf(request, inputs), barsTotal := r.barsTotal)
  {
  }

  /** A pass leaves the cache in order, from the next slot on if it stepped past a
      forming slot 0. */
  lemma AdvancedIsSound(k: Kernel, cache: Cache, request: Request, inputs: Inputs, from: nat)
    requires Lawful(k) && HoldsFrom(k, cache, inputs.tape, from) && PassedClosed(cache, inputs.tape, from)
    requires from == cache.key.startSlot || (from == 1 && cache.key.startSlot == 0)
    requires cache.key == KeyOf(request, inputs) && KeyedBy(cache.key, inputs) && !cache.key.blocked
    ensures SoundFrom(k, Advanced(k, cache, inputs), inputs, if cache.job.value.next <= cache.job.value.end then FromAfter(from, request, inputs) else from)
  {
    hide Lawful, FoldRange, Alike, ShowsFrom, SpanOf, KeyOf, Advanced;
    AdvancedHolds(k, cache, inputs, from);
    AdvancedReaches(k, cache, inputs);
    var after := Advanced(k, cache, inputs);
    if FormingZero(request, inputs) && from == 0 && after.job.value.next == 1 {
      NothingBelowOne(k, after, inputs);
    }
  }

  /** Before slot 0 closes, from it and from the next slot is the same fold. */
  lemma NothingBelowOne(k: Kernel, cache: Cache, inputs: Inputs)
    requires HoldsFrom(k, cache, inputs.tape, 0) && cache.job.value.next == 1 && ClosedTotal(inputs.tape) == 0
    ensures HoldsFrom(k, cache, inputs.tape, 1)
    ensures ShowsFrom(k, cache, inputs.tape, inputs.partial, 0) ==> ShowsFrom(k, cache, inputs.tape, inputs.partial, 1)
  {
    hide Alike;
    var (key, tape) := (cache.key, inputs.tape);
    assert LadderAt(tape, 0) == None;
    assert FoldRange(k, tape, key.approximate, key.group, 0, 1)
        == PushSlot(k, tape, key.approximate, FoldRange(k, tape, key.approximate, key.group, 0, 0), 0);
    assert FoldRange(k, tape, key.approximate, key.group, 0, 1) == FoldRange(k, tape, key.approximate, key.group, 1, 1);
  }

  /** A same or grown range carried on stays in order. */
  lemma CarriedIsSound(k: Kernel, cache: Cache, was: Inputs, request: Request, inputs: Inputs, from: nat)
    requires Lawful(k) && SoundFrom(k, cache, was, from) && Steady(was, inputs)
    requires from == cache.key.startSlot || (from == 1 && cache.key.startSlot == 0)
    requires CarriesOn(cache, KeyOf(request, inputs))
    ensures SoundFrom(k, Carried(k, cache, request, inputs), inputs, FromAfter(from, request, inputs))
  {
    var key := KeyOf(request, inputs);
    CarriedKeyFits(k, cache, was, request, inputs, from);
    GrownHolds(k, cache, was, request, inputs, from);
    hide Lawful, SoundFrom, HoldsFrom, ShowsFrom, SpanOf, BarsTotal, KeyOf, Steady, Advanced, Derived, FormingZero, PassedClosed, Grown;
    var grown := Grown(cache, key, BarsTotal(SpanOf(request, inputs)));
    HoldingHasJob(k, grown, inputs.tape, from);
    if grown.folding {
      AdvancedIsSound(k, grown, request, inputs, from);
    } else {
      FinishedStartsThere(k, grown, request, inputs, from);
      if cache.key.partialSnapshot != key.partialSnapshot || key.endSlot > cache.key.endSlot {
        DerivedIsSound(k, grown, inputs, from);
      } else {
        StillSound(k, cache, was, request, inputs, from);
      }
    }
  }

  lemma DerivedIsSound(k: Kernel, cache: Cache, inputs: Inputs, from: nat)
    requires Lawful(k) && HoldsFrom(k, cache, inputs.tape, from) && PassedClosed(cache, inputs.tape, from)
    requires KeyedBy(cache.key, inputs) && !cache.key.blocked
    requires cache.folding <==> cache.job.value.next <= cache.job.value.end
    ensures SoundFrom(k, Derived(k, cache, inputs), inputs, from)
  {
    DerivedShows(k, cache, inputs, from);
    DerivedKeeps(k, cache, inputs);
    hide Lawful, HoldsFrom, ShowsFrom, Derived;
  }

  lemma StillSound(k: Kernel, cache: Cache, was: Inputs, request: Request, inputs: Inputs, from: nat)
    requires SoundFrom(k, cache, was, from) && Steady(was, inputs)
    requires var key := KeyOf(request, inputs);
      CarriesOn(cache, key) && cache.key.partialSnapshot == key.partialSnapshot && key.endSlot <= cache.key.endSlot
    requires !Grown(cache, KeyOf(request, inputs), BarsTotal(SpanOf(request, inputs))).folding
    ensures SoundFrom(k, Grown(cache, KeyOf(request, inputs), BarsTotal(SpanOf(request, inputs))), inputs, from)
  {
    var key := KeyOf(request, inputs);
    CarriedKeyFits(k, cache, was, request, inputs, from);
    GrownHolds(k, cache, was, request, inputs, from);
    hide SpanOf, BarsTotal, KeyOf, Steady, HoldsFrom, ShowsFrom;
    StillShows(k, cache, was, key, inputs, from);
  }

  lemma HoldingHasJob(k: Kernel, cache: Cache, tape: Tape, from: nat)
    requires HoldsFrom(k, cache, tape, from)
    ensures cache.job.Some?
  {
  }

  /** A finished fold asked for the forming slot 0 had stepped past it before. */
  lemma FinishedStartsThere(k: Kernel, cache: Cache, request: Request, inputs: Inputs, from: nat)
    requires HoldsFrom(k, cache, inputs.tape, from) && PassedClosed(cache, inputs.tape, from)
    requires cache.key == KeyOf(request, inputs) && cache.job.value.next > cache.job.value.end
    requires from == cache.key.startSlot || (from == 1 && cache.key.startSlot == 0)
    ensures FromAfter(from, request, inputs) == from
  {
    if FormingZero(request, inputs) {
      FormingZeroIsFirst(request, inputs);
    }
    hide KeyOf, Alike;
  }

  // ------------------------------------------------------------------- openings

  lemma OpenedIsSound(k: Kernel, request: Request, inputs: Inputs)
    requires Lawful(k) && SpanOf(request, inputs).Some? && !inputs.blocked
    ensures var key := KeyOf(request, inputs);
      SoundFrom(k, Opened(k, request, inputs), inputs, FromAfter(key.startSlot, request, inputs))
  {
    KeyFits(request, inputs);
    hide Lawful, SpanOf, BarsTotal, Advanced, KeyOf;
    var key := KeyOf(request, inputs);
    var cold := Cold(k, key, SpanOf(request, inputs));
    ColdHolds(k, request, inputs);
    AdvancedIsSound(k, cold, request, inputs, key.startSlot);
  }

  lemma ColdHolds(k: Kernel, request: Request, inputs: Inputs)
    requires SpanOf(request, inputs).Some?
    ensures var (key, cold) := (KeyOf(request, inputs), Cold(k, KeyOf(request, inputs), SpanOf(request, inputs)));
      && HoldsFrom(k, cold, inputs.tape, key.startSlot) && PassedClosed(cold, inputs.tape, key.startSlot)
      && cold.key == key && (FormingZero(request, inputs) ==> key.startSlot == 0 && cold.job.value.next <= cold.job.value.end)
  {
    KeyFits(request, inputs);
    hide CoveredSlots, BarsTotal;
  }

  // ------------------------------------------------------------------- whole runs

  datatype Call = Call(request: Request, inputs: Inputs)

  function Run(k: Kernel, calls: seq<Call>): Option<Cache> {
    if calls == [] then None
    else
      var last := calls[|calls| - 1];
      Some(Refreshed(k, Run(k, calls[..|calls| - 1]), last.request, last.inputs))
  }

  /** The last call carried on from the cache the earlier ones left. */
  predicate CarriedAt(k: Kernel, calls: seq<Call>)
    requires calls != []
  {
    var (before, last) := (Run(k, calls[..|calls| - 1]), calls[|calls| - 1]);
    before.Some? && CarriesOn(before.value, KeyOf(last.request, last.inputs))
  }

  /** The call that opened the cache the run ends with: the last that did not carry on. */
  function Opening(k: Kernel, calls: seq<Call>): Call
    requires calls != []
  {
    if |calls| > 1 && CarriedAt(k, calls) then Opening(k, calls[..|calls| - 1]) else calls[|calls| - 1]
  }

  /** Since its opening the cache was asked, with budget, for slot 0 alone while
      that slot was forming. */
  predicate SteppedPast(k: Kernel, calls: seq<Call>)
    requires calls != []
  {
    var last := calls[|calls| - 1];
    || (FormingZero(last.request, last.inputs) && last.inputs.budget > 0)
    || (|calls| > 1 && CarriedAt(k, calls) && SteppedPast(k, calls[..|calls| - 1]))
  }

  ghost predicate SteadyRun(calls: seq<Call>) {
    forall i :: 0 <= i < |calls| - 1 ==> SteadyAt(calls, i)
  }

  ghost predicate SteadyAt(calls: seq<Call>, i: nat)
    requires i + 1 < |calls|
  {
    Steady(calls[i].inputs, calls[i + 1].inputs)
  }

  lemma SteadyBefore(calls: seq<Call>)
    requires SteadyRun(calls) && |calls| > 1
    ensures SteadyRun(calls[..|calls| - 1]) && Steady(calls[|calls| - 2].inputs, calls[|calls| - 1].inputs)
  {
    var before := calls[..|calls| - 1];
    forall i: nat | i < |before| - 1
      ensures SteadyAt(before, i)
    {
      assert SteadyAt(calls, i);
    }
    assert SteadyAt(calls, |calls| - 2);
  }

  /** What a run leaves, by the call that opened its cache: blocked, nothing, or the
      slots of its range, from slot 1 if it stepped past a forming slot 0. */
  ghost predicate Leaves(k: Kernel, opening: Call, stepped: bool, cache: Cache, inputs: Inputs) {
    && KeyedBy(cache.key, inputs) && inputs.blocked == opening.inputs.blocked
    && if opening.inputs.blocked then ShowsBlocked(cache)
       else if SpanOf(opening.request, opening.inputs).None? then ShowsNothing(cache)
       else
         && (stepped ==>
             && cache.key.startSlot == 0 && (cache.key.includePartial || cache.key.endSlot > 0)
             && inputs.tape.prefix == [] && cache.job.Some? && cache.job.value.next >= 1)
         && SoundFrom(k, cache, inputs, if stepped then 1 else cache.key.startSlot)
  }

  lemma OpenedLeaves(k: Kernel, call: Call)
    requires Lawful(k)
    ensures Leaves(k, call, FormingZero(call.request, call.inputs) && call.inputs.budget > 0,
                   Opened(k, call.request, call.inputs), call.inputs)
  {
    var (request, inputs) := (call.request, call.inputs);
    if inputs.blocked || SpanOf(request, inputs).None? {
      hide SpanOf, BarsTotal;
    } else {
      OpenedIsSound(k, request, inputs);
      RefreshedKey(k, None, request, inputs);
      if FormingZero(request, inputs) {
        FormingZeroIsFirst(request, inputs);
      }
      hide Lawful, SpanOf, BarsTotal, Opened, KeyOf, ShowsFrom, Alike, FoldRange;
    }
  }

  lemma FormingZeroIsFirst(request: Request, inputs: Inputs)
    requires FormingZero(request, inputs)
    ensures KeyOf(request, inputs).startSlot == 0 && ClosedTotal(inputs.tape) == 0 && inputs.tape.prefix == []
  {
    KeyFits(request, inputs);
  }

  lemma CarriedLeaves(k: Kernel, opening: Call, stepped: bool, cache: Cache, was: Inputs, call: Call)
    requires Lawful(k) && Leaves(k, opening, stepped, cache, was) && Steady(was, call.inputs)
    requires CarriesOn(cache, KeyOf(call.request, call.inputs))
    ensures Leaves(k, opening, stepped || (FormingZero(call.request, call.inputs) && call.inputs.budget > 0),
                   Carried(k, cache, call.request, call.inputs), call.inputs)
  {
    var (request, inputs) := (call.request, call.inputs);
    var key := KeyOf(request, inputs);
    if opening.inputs.blocked || SpanOf(opening.request, opening.inputs).None? {
      NoJobNothingMoves(k, cache, request, inputs);
      hide SpanOf, Carried;
    } else {
      CarriedIsSound(k, cache, was, request, inputs, if stepped then 1 else cache.key.startSlot);
      CarriedMoves(k, cache, request, inputs);
      CarriedKeyFits(k, cache, was, request, inputs, if stepped then 1 else cache.key.startSlot);
      if FormingZero(request, inputs) {
        FormingZeroIsFirst(request, inputs);
      }
      hide Lawful, SpanOf, KeyOf, ShowsFrom, Alike, FoldRange, Carried, Steady, Fits;
    }
  }

  /** Carrying on keeps the range's start, never draws its end back and never
      unfolds a slot. */
  lemma CarriedMoves(k: Kernel, cache: Cache, request: Request, inputs: Inputs)
    requires CarriesOn(cache, KeyOf(request, inputs)) && cache.job.Some?
    ensures var r := Carried(k, cache, request, inputs);
      && r.key == KeyOf(request, inputs) && r.key.startSlot == cache.key.startSlot
      && r.key.seriesRevision == cache.key.seriesRevision && r.key.group == cache.key.group && r.key.blocked == cache.key.blocked
      && (r.key.endSlot > cache.key.endSlot || (r.key.endSlot == cache.key.endSlot && r.key.includePartial == cache.key.includePartial))
      && r.job.Some? && r.job.value.next >= cache.job.value.next
  {
    hide KeyOf, SpanOf, BarsTotal, Advanced, Derived;
    var grown := Grown(cache, KeyOf(request, inputs), BarsTotal(SpanOf(request, inputs)));
    AdvancedReaches(k, grown, inputs);
    DerivedKeeps(k, grown, inputs);
    AdvancedKeepsKey(k, grown, inputs);
  }

  lemma AdvancedKeepsKey(k: Kernel, cache: Cache, inputs: Inputs)
    ensures Advanced(k, cache, inputs).key == cache.key
  {
    hide WalkOn;
  }

  lemma {:induction false} EveryRunLeaves(k: Kernel, calls: seq<Call>)
    requires Lawful(k) && SteadyRun(calls) && calls != []
    ensures Leaves(k, Opening(k, calls), SteppedPast(k, calls), Run(k, calls).value, calls[|calls| - 1].inputs)
  {
    hide Lawful, Leaves, Steady, Carried, Opened, FormingZero;
    var (before, last) := (calls[..|calls| - 1], calls[|calls| - 1]);
    if |calls| > 1 {
      SteadyBefore(calls);
    }
    if |calls| > 1 && CarriedAt(k, calls) {
      EveryRunLeaves(k, before);
      CarriedLeaves(k, Opening(k, before), SteppedPast(k, before), Run(k, before).value, before[|before| - 1].inputs, last);
    } else {
      OpenedLeaves(k, last);
    }
  }

  /** After any refreshes, whatever their budgets, growth, forming bars, changes of
      range and empty ranges on the way, a refresh that reaches a slot leaves the
      whole range folded or being folded exactly when the call that opened its cache
      was blocked, or reached a slot itself and did not step past a forming slot 0
      whose ladder, closed since, belongs in the range. */
  lemma {:induction false} EveryRunIsSoundExactlyWhen(k: Kernel, calls: seq<Call>)
    requires Lawful(k) && Grouped(k) && SteadyRun(calls) && calls != []
    requires var last := calls[|calls| - 1]; SpanOf(last.request, last.inputs).Some?
    ensures var (opening, last) := (Opening(k, calls), calls[|calls| - 1]);
      Sound(k, Run(k, calls).value, last.inputs) <==>
        || opening.inputs.blocked
        || (SpanOf(opening.request, opening.inputs).Some?
            && !(SteppedPast(k, calls) && Joins(k, last.inputs.tape, last.inputs.group, 0)))
  {
    EveryRunLeaves(k, calls);
    var (opening, last, cache) := (Opening(k, calls), calls[|calls| - 1], Run(k, calls).value);
    hide Lawful, Grouped, SpanOf, KeyOf, Run, HoldsFrom, ShowsFrom, Joins, Opening, SteppedPast;
    if !opening.inputs.blocked && SpanOf(opening.request, opening.inputs).Some? && SteppedPast(k, calls) {
      SteppedIsSoundExactlyWhen(k, cache, last.inputs);
    }
  }

  lemma SteppedIsSoundExactlyWhen(k: Kernel, cache: Cache, inputs: Inputs)
    requires Lawful(k) && Grouped(k) && SoundFrom(k, cache, inputs, 1)
    requires cache.key.startSlot == 0 && inputs.tape.prefix == [] && cache.job.value.next >= 1
    ensures Sound(k, cache, inputs) <==> !Joins(k, inputs.tape, inputs.group, 0)
  {
    var (key, tape) := (cache.key, inputs.tape);
    hide Lawful, Grouped, Joins, FoldRange, Shown;
    WithoutTheFirst(k, tape, key.approximate, key.group, cache.job.value.next);
    WithoutTheFirst(k, tape, key.approximate, key.group, key.LastClosed() + 1);
    if !Joins(k, tape, key.group, 0) {
      ShownAlike(k, OneShot(k, key, tape, 0).fold, OneShot(k, key, tape, 1).fold, key, inputs.partial);
    }
  }

  // ------------------------------------------------------ the range asked for

  /** Slots are counted in machine words. */
  const WORD := 0x1_0000_0000_0000_0000

  /** A bar stands at this slot: a venue candle, a closed bar, or the forming one. */
  predicate Stands(inputs: Inputs, slot: nat) {
    || slot < |inputs.tape.prefix| + inputs.tape.closed
    || (slot == |inputs.tape.prefix| + inputs.tape.closed && inputs.partial.Some?)
  }

  /** The request reaches this slot: it stands at or after the rounded left edge,
      and at or before the right one unless the range extends to the newest bar. */
  predicate Asked(request: Request, inputs: Inputs, slot: nat) {
    && Stands(inputs, slot)
    && Round(request.minBar) <= slot
    && (request.extendRight || slot <= Round(request.maxBar))
  }

  /** The key is the request's own: its range holds exactly the slots asked for, and
      every setting is the request's or the tape's. Without a slot it is `(0, 0)`. */
  ghost predicate IsTheRequest(key: Key, request: Request, inputs: Inputs) {
    var forming := |inputs.tape.prefix| + inputs.tape.closed;
    && (forall other: nat :: Asked(request, inputs, other) ==>
          forall slot: nat :: key.startSlot <= slot <= key.endSlot <==> Asked(request, inputs, slot))
    && ((forall slot: nat :: !Asked(request, inputs, slot)) ==> key.startSlot == key.endSlot == 0)
    && (key.includePartial <==> inputs.partial.Some? && Asked(request, inputs, forming))
    && key.partialSnapshot == (if key.includePartial then inputs.partialVersion else 0)
    && (key.partlyCovered <==>
          inputs.partialBucketSlot.Some? && Asked(request, inputs, inputs.partialBucketSlot.value))
    && key.pct == request.pct && key.approximate == request.approximate
    && key.group == inputs.group && key.seriesRevision == inputs.seriesRevision
    && key.blocked == inputs.blocked && key.sideInferred == inputs.sideInferred
  }

  lemma SpanIsAsked(request: Request, inputs: Inputs, slot: nat)
    requires ClosedTotal(inputs.tape) < WORD
    ensures InSpan(SpanOf(request, inputs), slot) <==> Asked(request, inputs, slot)
  {
    assert Round(F32_MAX) >= WORD;
    hide Round;
    var maxBar := if request.extendRight then F32_MAX else request.maxBar;
    assert SpanOf(request, inputs) == CoveredSlots(request.minBar, maxBar, LastSlot(inputs));
    hide CoveredSlots;
    assert InSpan(CoveredSlots(request.minBar, maxBar, LastSlot(inputs)), slot) <==>
      LastSlot(inputs).Some? && slot <= LastSlot(inputs).value && Round(request.minBar) <= slot <= Round(maxBar);
  }

  lemma KeyIsTheRequest(request: Request, inputs: Inputs)
    requires ClosedTotal(inputs.tape) < WORD
    ensures IsTheRequest(KeyOf(request, inputs), request, inputs)
  {
    var (key, span) := (KeyOf(request, inputs), SpanOf(request, inputs));
    forall slot: nat
      ensures InSpan(span, slot) <==> Asked(request, inputs, slot)
    {
      SpanIsAsked(request, inputs, slot);
    }
    if span.Some? {
      assert InSpan(span, span.value.0);
      KeyFits(request, inputs);
    }
    hide SpanOf, Asked, BarsTotal;
    var forming := |inputs.tape.prefix| + inputs.tape.closed;
    assert InSpan(span, forming) <==> Asked(request, inputs, forming);
  }

  /** After every refresh, whatever came before it, the cache stands for exactly the
      range the request reaches. */
  lemma {:induction false} EveryRunStandsForTheRequest(k: Kernel, calls: seq<Call>)
    requires calls != [] && ClosedTotal(calls[|calls| - 1].inputs.tape) < WORD
    ensures var last := calls[|calls| - 1];
      IsTheRequest(Run(k, calls).value.key, last.request, last.inputs)
  {
    var last := calls[|calls| - 1];
    RefreshedKey(k, Run(k, calls[..|calls| - 1]), last.request, last.inputs);
    KeyIsTheRequest(last.request, last.inputs);
    hide IsTheRequest, KeyOf, Refreshed;
  }

  /** A range that reaches no slot shows nothing exactly when the call that opened
      its cache was blocked or reached none either; carried on from a range of
      slot 0, it goes on showing that slot. */
  lemma {:induction false} EmptyRangeShowsNothingExactlyWhen(k: Kernel, calls: seq<Call>)
    requires Lawful(k) && SteadyRun(calls) && calls != []
    requires var last := calls[|calls| - 1]; SpanOf(last.request, last.inputs).None?
    ensures var (opening, last, cache) := (Opening(k, calls), calls[|calls| - 1], Run(k, calls).value);
      if opening.inputs.blocked then ShowsBlocked(cache)
      else if SpanOf(opening.request, opening.inputs).None? then ShowsNothing(cache)
      else !ShowsNothing(cache) && cache.key.startSlot == cache.key.endSlot == 0 && SoundFrom(k, cache, last.inputs, 0)
    ensures !CarriedAt(k, calls) ==> Opening(k, calls) == calls[|calls| - 1]
  {
    var last, cache := calls[|calls| - 1], Run(k, calls).value;
    EveryRunLeaves(k, calls);
    RefreshedKey(k, Run(k, calls[..|calls| - 1]), last.request, last.inputs);
    EmptyKey(last.request, last.inputs);
    hide Lawful, SpanOf, Run, HoldsFrom, ShowsFrom, KeyOf, Opening, SteppedPast, Fits, ShowsBlocked;
    SoundHasJob(k, cache, last.inputs);
  }

  lemma SoundHasJob(k: Kernel, cache: Cache, inputs: Inputs)
    ensures forall from: nat :: SoundFrom(k, cache, inputs, from) ==> !ShowsNothing(cache)
  {
    hide FoldRange, Alike, Fits, ShowsFrom;
  }

  lemma RefreshedKey(k: Kernel, current: Option<Cache>, request: Request, inputs: Inputs)
    ensures Refreshed(k, current, request, inputs).key == KeyOf(request, inputs)
  {
    hide KeyOf, SpanOf, BarsTotal, WalkOn;
  }

  lemma EmptyKey(request: Request, inputs: Inputs)
    requires SpanOf(request, inputs).None?
    ensures var key := KeyOf(request, inputs);
      key.startSlot == key.endSlot == 0 && !key.includePartial
  {
    hide SpanOf;
  }

  /** A pass with budget over a fold still running moves it on, and a whole ladder
      is all it can overspend by. */
  lemma {:induction false} PassMoves(k: Kernel, cache: Cache, inputs: Inputs)
    requires cache.job.Some? && inputs.budget >= 1 && cache.job.value.next <= cache.job.value.end
    ensures var (job, after) := (cache.job.value, Advanced(k, cache, inputs).job.value);
      && after.next > job.next && after.end == job.end
      && (Advanced(k, cache, inputs).folding <==> after.next <= after.end)
    ensures var skipped := Skipped(cache, inputs.tape);
      var (from, after) := (skipped.job.value.next, Advanced(k, cache, inputs).job.value.next);
      && (from < after ==> Spent(k, inputs.tape, from, after - 1) < inputs.budget)
      && (Advanced(k, cache, inputs).folding ==> Spent(k, inputs.tape, from, after) >= inputs.budget)
  {
    hide WalkOn;
    var skipped := Skipped(cache, inputs.tape);
    var job := skipped.job.value;
    var w := Walk(Sum(job.fold, skipped.closedCovered, skipped.barsApproximated), job.next, 0);
    DerivedKeeps(k, Walked(k, skipped, WalkOn(k, inputs.tape, w, job.end, inputs.budget)), inputs);
    WalkSpends(k, inputs.tape, w, job.end, inputs.budget, job.next);
  }

  /** As many passes as there are slots left always finish a fold. */
  function Passes(k: Kernel, cache: Cache, inputs: Inputs, n: nat): Cache
    decreases n
  {
    if n == 0 || !cache.folding then cache else Passes(k, Advanced(k, cache, inputs), inputs, n - 1)
  }

  lemma {:induction false} PassesFinish(k: Kernel, cache: Cache, inputs: Inputs, n: nat)
    requires cache.job.Some? && inputs.budget >= 1
    requires cache.folding <==> cache.job.value.next <= cache.job.value.end
    requires n >= cache.job.value.end + 1 - cache.job.value.next
    ensures !Passes(k, cache, inputs, n).folding
    decreases n
  {
    hide Advanced;
    if cache.folding {
      PassMoves(k, cache, inputs);
      AdvancedKeepsJob(k, cache, inputs);
      PassesFinish(k, Advanced(k, cache, inputs), inputs, n - 1);
    }
  }

  lemma AdvancedKeepsJob(k: Kernel, cache: Cache, inputs: Inputs)
    requires cache.job.Some?
    ensures Advanced(k, cache, inputs).job.Some?
  {
    hide WalkOn;
  }

  // ------------------------------------------------------------- what is shown

  /** The whole range pushed from nothing: its venue candles, if they may join, then
      the ladders of its closed bars, and the forming bar's last. */
  ghost function Whole(k: Kernel, key: Key, inputs: Inputs): Sum
    requires key.startSlot <= key.endSlot
  {
    var (tape, end) := (inputs.tape, key.endSlot + 1);
    var candles := if key.approximate then CandlesIn(tape, key.startSlot, end) else [];
    var forming := if inputs.partial.Some? && key.endSlot == |tape.prefix| + tape.closed then [inputs.partial.value] else [];
    PushLadders(k, PushCandles(k, Sum(k.open(key.group), 0, 0), candles), LaddersIn(tape, key.startSlot, end) + forming)
  }

  /** A finished cache in order shows the whole range, the forming bar with it, counts
      what joined, and calls the range empty exactly when there is nothing to read. */
  lemma SoundShowsTheWhole(k: Kernel, cache: Cache, inputs: Inputs)
    requires Sound(k, cache, inputs) && !inputs.blocked && !cache.folding
    ensures var (key, whole) := (cache.key, Whole(k, cache.key, inputs));
      && cache.profile == k.read(whole.fold, key.pct)
      && cache.barsCovered == whole.covered && cache.barsApproximated == whole.approximated
      && cache.barsFolded == cache.barsTotal == key.endSlot - key.startSlot + 1
      && cache.empty == (if cache.profile.None? then Some(NoTape) else None)
  {
    var (key, tape) := (cache.key, inputs.tape);
    var (start, end) := (key.startSlot, key.endSlot + 1);
    FoldIsCandlesThenLadders(k, tape, key.approximate, key.group, start, end);
    OneShotIsWhole(k, key, tape);
    hide PushCandles, CandlesIn, LaddersIn, FoldRange, Alike, OneShot;
    var whole, sum := Whole(k, key, inputs), OneShot(k, key, tape, start);
    var candles := if key.approximate then CandlesIn(tape, start, end) else [];
    var (seed, closed) := (PushCandles(k, Sum(k.open(key.group), 0, 0), candles), LaddersIn(tape, start, end));
    if inputs.partial.Some? && key.endSlot == |tape.prefix| + tape.closed {
      assert whole == PushLadders(k, seed, closed + [inputs.partial.value]);
      OneLadderMore(k, seed, closed, inputs.partial.value);
    } else {
      assert closed + [] == closed;
      assert whole == sum;
    }
    hide PushLadders, Whole;
    assert Shown(k, sum.fold, key, inputs.partial) == (k.read(whole.fold, key.pct), whole.covered > sum.covered);
  }

  lemma {:induction false} OneLadderMore(k: Kernel, sum: Sum, ladders: seq<Ladder>, ladder: Ladder)
    ensures var before := PushLadders(k, sum, ladders);
      var (fold, joined) := k.pushLadder(before.fold, ladder);
      PushLadders(k, sum, ladders + [ladder]) == Sum(fold, before.covered + (if joined then 1 else 0), before.approximated)
  {
    assert (ladders + [ladder])[..|ladders|] == ladders;
  }

  /** The forming slot adds nothing to the closed fold. */
  lemma {:induction false} OneShotIsWhole(k: Kernel, key: Key, tape: Tape)
    requires Fits(key, tape)
    ensures OneShot(k, key, tape, key.startSlot)
         == FoldRange(k, tape, key.approximate, key.group, key.startSlot, key.endSlot + 1)
  {
    if key.LastClosed() < key.endSlot {
      FoldOneMore(k, tape, key.approximate, key.group, key.startSlot, key.endSlot);
      hide FoldRange;
    }
  }

  /** While a fold runs, a range just opened counts every slot it has passed and is
      not called empty; one carried on counts on from what it said, and says no more
      of being empty than it did. */
  lemma WhatFoldingShows(k: Kernel, current: Option<Cache>, request: Request, inputs: Inputs)
    requires current.Some? ==> (current.value.folding ==> current.value.job.Some?)
    requires Refreshed(k, current, request, inputs).folding
    ensures var r := Refreshed(k, current, request, inputs);
      && r.job.Some? && r.job.value.next <= r.job.value.end
      && if current.Some? && CarriesOn(current.value, KeyOf(request, inputs))
         then
           && current.value.job.Some?
           && r.barsFolded == current.value.barsFolded + (r.job.value.next - current.value.job.value.next)
           && r.empty == current.value.empty
         else r.barsFolded == r.job.value.next - r.key.startSlot && r.empty == None
  {
    hide SpanOf, BarsTotal, WalkOn, Shown;
    var (key, span) := (KeyOf(request, inputs), SpanOf(request, inputs));
    assert span.Some? ==> key.startSlot == span.value.0;
    hide KeyOf;
  }

  // ---------------------------------------------------------- it never starts over

  /** What one refresh may ask for after another without starting over: the same
      range and settings, its right edge no further on than the bars that came, and
      while the edge stays, the forming bar in it or not as it was. */
  ghost predicate Follows(was: Key, now: Key) {
    && now.startSlot == was.startSlot && now.pct == was.pct && now.approximate == was.approximate
    && now.group == was.group && now.seriesRevision == was.seriesRevision && now.blocked == was.blocked
    && now.sideInferred == was.sideInferred && now.partlyCovered == was.partlyCovered
    && (now.endSlot > was.endSlot || (now.endSlot == was.endSlot && now.includePartial == was.includePartial))
  }

  lemma FollowsCarriesOn(cache: Cache, key: Key)
    ensures CarriesOn(cache, key) <==> Follows(cache.key, key)
  {
  }

  ghost predicate OneRange(calls: seq<Call>) {
    forall i :: 0 <= i < |calls| - 1 ==> OneRangeAt(calls, i)
  }

  ghost predicate OneRangeAt(calls: seq<Call>, i: nat)
    requires i + 1 < |calls|
  {
    var (was, now) := (KeyOf(calls[i].request, calls[i].inputs), KeyOf(calls[i + 1].request, calls[i + 1].inputs));
    Follows(was, now) && now.LastClosed() <= was.LastClosed() + 1
  }

  lemma AdvancedPasses(k: Kernel, cache: Cache, inputs: Inputs)
    requires cache.job.Some? && inputs.budget >= 1
    ensures var (job, r) := (cache.job.value, Advanced(k, cache, inputs));
      && r.job.Some? && r.job.value.end == job.end && (r.folding <==> r.job.value.next <= job.end)
      && r.job.value.next >= job.next && (r.job.value.next > job.next || job.next > job.end)
  {
    if cache.job.value.next <= cache.job.value.end {
      AdvancedKeepsJob(k, cache, inputs);
      PassMoves(k, cache, inputs);
      hide Advanced;
    }
  }

  lemma ColdPasses(k: Kernel, call: Call)
    requires SpanOf(call.request, call.inputs).Some? && !call.inputs.blocked && call.inputs.budget >= 1
    ensures var (key, r) := (KeyOf(call.request, call.inputs), Opened(k, call.request, call.inputs));
      && r.job.Some? && r.job.value.end == key.LastClosed()
      && (r.folding <==> r.job.value.next <= r.job.value.end)
      && (r.job.value.next > key.startSlot || r.job.value.next > r.job.value.end)
  {
    hide Advanced, SpanOf, BarsTotal;
    var key := KeyOf(call.request, call.inputs);
    AdvancedPasses(k, Cold(k, key, SpanOf(call.request, call.inputs)), call.inputs);
  }

  lemma CarriedPasses(k: Kernel, cache: Cache, call: Call)
    requires cache.job.Some? && cache.job.value.end == cache.key.LastClosed() && call.inputs.budget >= 1
    requires cache.folding <==> cache.job.value.next <= cache.job.value.end
    requires Follows(cache.key, KeyOf(call.request, call.inputs))
    ensures var (key, r) := (KeyOf(call.request, call.inputs), Carried(k, cache, call.request, call.inputs));
      && r.job.Some? && r.job.value.end == key.LastClosed()
      && (r.folding <==> r.job.value.next <= r.job.value.end)
      && r.job.value.next >= cache.job.value.next
      && (r.job.value.next > cache.job.value.next || r.job.value.next > r.job.value.end)
  {
    hide Advanced, Derived, KeyOf, SpanOf, BarsTotal;
    var grown := Grown(cache, KeyOf(call.request, call.inputs), BarsTotal(SpanOf(call.request, call.inputs)));
    AdvancedPasses(k, grown, call.inputs);
    DerivedKeeps(k, grown, call.inputs);
  }

  /** A range whose right edge takes at most one bar more a refresh is folded to its
      end within as many refreshes as it has slots, whatever their budgets and however
      often its forming bar moves: no close and no snapshot starts it over. */
  lemma {:induction false} RefreshesFinish(k: Kernel, calls: seq<Call>)
    requires calls != [] && OneRange(calls)
    requires SpanOf(calls[0].request, calls[0].inputs).Some? && !calls[0].inputs.blocked
    requires forall i :: 0 <= i < |calls| ==> calls[i].inputs.budget >= 1
    ensures var (last, cache) := (calls[|calls| - 1], Run(k, calls).value);
      && cache.key == KeyOf(last.request, last.inputs) && cache.job.Some?
      && var job := cache.job.value;
      && job.end == cache.key.LastClosed() && (cache.folding <==> job.next <= job.end)
      && (job.next >= cache.key.startSlot + |calls| || job.next > job.end)
      && (|calls| > job.end - cache.key.startSlot ==> !cache.folding)
  {
    var (before, last) := (calls[..|calls| - 1], calls[|calls| - 1]);
    RefreshedKey(k, Run(k, before), last.request, last.inputs);
    if before == [] {
      hide Advanced, KeyOf, SpanOf, BarsTotal;
      ColdPasses(k, last);
    } else {
      forall i: nat | i < |before| - 1
        ensures OneRangeAt(before, i)
      {
        assert OneRangeAt(calls, i);
      }
      assert OneRangeAt(calls, |calls| - 2);
      RefreshesFinish(k, before);
      hide KeyOf, SpanOf, BarsTotal, Carried;
      FollowsCarriesOn(Run(k, before).value, KeyOf(last.request, last.inputs));
      CarriedPasses(k, Run(k, before).value, last);
    }
  }

  // --------------------------------------------------- what the condition shuts out

  /** A range opened on no slot has no job, so nothing it carries on to ever fills it. */
  lemma EmptyOpeningNeverFills(k: Kernel, opening: Call, later: Call)
    requires SpanOf(opening.request, opening.inputs).None? && !opening.inputs.blocked
    requires CarriesOn(Opened(k, opening.request, opening.inputs), KeyOf(later.request, later.inputs))
    ensures var r := Carried(k, Opened(k, opening.request, opening.inputs), later.request, later.inputs);
      r.job.None? && r.profile.None? && !r.folding && r.empty == Some(NoTape)
  {
    hide KeyOf, SpanOf, BarsTotal, Derived;
    var cache := Opened(k, opening.request, opening.inputs);
    NoJobNothingMoves(k, cache, later.request, later.inputs);
  }

  function At(bar: real): Request {
    Request(bar, bar, false, true, 70)
  }

  function OneBar(ladder: Ladder): Inputs {
    Inputs(Tape([], 1, [ladder]), None, 1, 0, 0, false, false, None, 1)
  }

  lemma SpansOfOneBar(ladder: Ladder)
    ensures SpanOf(At(0.0), OneBar(ladder)) == Some((0, 0)) && SpanOf(At(-5.0), OneBar(ladder)) == None
  {
    assert Round(0.0) == 0 && Round(-5.0) == -5;
  }

  /** An empty span is keyed like the range of slot 0 alone: each carries on from
      the other. Opened empty, slot 0 is never folded; asked for nothing, slot 0's
      profile stays. */
  lemma EmptySpanIsTakenForSlotZero(k: Kernel, ladder: Ladder)
    ensures var (empty, zero) := (Opened(k, At(-5.0), OneBar(ladder)), Opened(k, At(0.0), OneBar(ladder)));
      && Refreshed(k, Some(empty), At(0.0), OneBar(ladder)).profile == None
      && Refreshed(k, Some(zero), At(-5.0), OneBar(ladder)).profile == zero.profile
      && zero.profile == k.read(k.seal(k.pushLadder(k.open(1), ladder).0), 70)
  {
    hide SpanOf, Round;
    SpansOfOneBar(ladder);
    var inputs, zero := OneBar(ladder), Opened(k, At(0.0), OneBar(ladder));
    assert KeyOf(At(0.0), inputs) == KeyOf(At(-5.0), inputs);
    EmptyOpeningNeverFills(k, Call(At(-5.0), inputs), Call(At(0.0), inputs));
    OneBarFolds(k, ladder);
  }

  lemma OneBarFolds(k: Kernel, ladder: Ladder)
    ensures var zero := Opened(k, At(0.0), OneBar(ladder));
      && !zero.folding && zero.profile == k.read(k.seal(k.pushLadder(k.open(1), ladder).0), 70)
  {
    hide SpanOf;
    SpansOfOneBar(ladder);
    var inputs := OneBar(ladder);
    var w := Walk(Sum(k.open(1), 0, 0), 0, 0);
    assert LadderAt(inputs.tape, 0) == Some(ladder);
    assert WalkOn(k, inputs.tape, w, 0, 1).next == 1;
  }

  function Live(): Request {
    Request(0.0, 0.0, true, true, 70)
  }

  function Forming(ladder: Ladder): Inputs {
    Inputs(Tape([], 0, []), Some(ladder), 1, 0, 0, false, false, None, 1)
  }

  function Closed(ladder: Ladder): Inputs {
    Inputs(Tape([], 1, [ladder]), Some(ladder), 1, 0, 1, false, false, None, 1)
  }

  lemma LiveSpans(ladder: Ladder)
    ensures SpanOf(Live(), Forming(ladder)) == Some((0, 0)) && SpanOf(Live(), Closed(ladder)) == Some((0, 1))
  {
    assert Round(0.0) == 0 && Round(F32_MAX) >= 1;
  }

  /** A range opened while only slot 0 is forming steps past it: once that bar closes,
      its ladder is in the range and never in the fold. */
  lemma FormingSlotZeroIsLost(k: Kernel, ladder: Ladder)
    ensures var later := Refreshed(k, Some(Opened(k, Live(), Forming(ladder))), Live(), Closed(ladder));
      && !later.folding && later.closedCovered == 0
      && OneShot(k, later.key, Closed(ladder).tape, 0).covered == if k.pushLadder(k.open(1), ladder).1 then 1 else 0
  {
    hide SpanOf, Round;
    LiveSpans(ladder);
    FormingOpens(k, ladder);
    var tape := Closed(ladder).tape;
    assert LadderAt(tape, 0) == Some(ladder);
    assert FoldRange(k, tape, true, 1, 0, 1) == PushSlot(k, tape, true, FoldRange(k, tape, true, 1, 0, 0), 0);
  }

  lemma FormingOpens(k: Kernel, ladder: Ladder)
    ensures var zero := Opened(k, Live(), Forming(ladder));
      && !zero.folding && zero.closedCovered == 0 && zero.job.Some? && zero.job.value.next == 1
      && zero.key == KeyOf(Live(), Forming(ladder))
  {
    hide SpanOf;
    LiveSpans(ladder);
    var w := Walk(Sum(k.open(1), 0, 0), 0, 0);
    assert LadderAt(Forming(ladder).tape, 0) == None;
    assert WalkOn(k, Forming(ladder).tape, w, 0, 1) == Walk(w.sum, 1, 0);
  }

  // ------------------------------------------------------------------- the object

  function WalkOf(cache: Cache, spent: nat): Walk
    requires cache.job.Some?
  {
    Walk(Sum(cache.job.value.fold, cache.closedCovered, cache.barsApproximated), cache.job.value.next, spent)
  }

  /** A cache that has walked so far, its pending spreads still pending. */
  function Reached(cache: Cache, w: Walk): Cache
    requires cache.job.Some? && w.next >= cache.job.value.next
  {
    cache.(closedCovered := w.sum.covered, barsApproximated := w.sum.approximated,
           barsFolded := cache.barsFolded + (w.next - cache.job.value.next),
           job := Some(Job(w.sum.fold, w.next, cache.job.value.end)))
  }

  function OneSlot(k: Kernel, tape: Tape, cache: Cache): Cache
    requires cache.job.Some?
  {
    var job := cache.job.value;
    var sum := PushSlot(k, tape, true, Sum(job.fold, cache.closedCovered, cache.barsApproximated), job.next);
    cache.(closedCovered := sum.covered, barsApproximated := sum.approximated, barsFolded := cache.barsFolded + 1,
           job := Some(Job(sum.fold, job.next + 1, job.end)))
  }

  /** What slots alone can change of a cache. */
  ghost predicate Progressed(was: Cache, now: Cache) {
    && was.job.Some? && now.job.Some? && now.job.value.end == was.job.value.end && now.job.value.next >= was.job.value.next
    && now == was.(closedCovered := now.closedCovered, barsApproximated := now.barsApproximated, job := now.job,
                   barsFolded := was.barsFolded + (now.job.value.next - was.job.value.next))
  }

  lemma OneSlotProgresses(k: Kernel, tape: Tape, was: Cache, now: Cache, spent: nat)
    requires Progressed(was, now)
    ensures Progressed(was, OneSlot(k, tape, now))
    ensures var w := WalkOf(now, spent);
      WalkOf(OneSlot(k, tape, now), spent + Cost(k, tape, w.next))
        == Walk(PushSlot(k, tape, true, w.sum, w.next), w.next + 1, w.spent + Cost(k, tape, w.next))
  {
    hide PushSlot, Cost;
  }

  class RangeProfile {
    var key: Key
    var profile: Option<Profile>
    var empty: Option<Empty>
    var barsCovered: nat
    var closedCovered: nat
    var barsApproximated: nat
    var barsPartlyCovered: nat
    var barsFolded: nat
    var barsTotal: nat
    var folding: bool
    var job: Option<Job>

    function State(): Cache
      reads this
    {
      Cache(key, profile, empty, barsCovered, closedCovered, barsApproximated, barsPartlyCovered, barsFolded, barsTotal, folding, job)
    }

    constructor (state: Cache)
      ensures State() == state
    {
      key, profile, empty := state.key, state.profile, state.empty;
      barsCovered, closedCovered := state.barsCovered, state.closedCovered;
      barsApproximated, barsPartlyCovered := state.barsApproximated, state.barsPartlyCovered;
      barsFolded, barsTotal, folding, job := state.barsFolded, state.barsTotal, state.folding, state.job;
    }

    method Derive(k: Kernel, inputs: Inputs)
      modifies this
      ensures State() == Derived(k, old(State()), inputs)
    {
      if job.None? {
        return;
      }
      var joinedPartial, shown := false, None;
      if key.includePartial && inputs.partial.Some? {
        var (withPartial, joined) := k.pushLadder(job.value.fold, inputs.partial.value);
        joinedPartial, shown := joined, k.read(withPartial, key.pct);
      } else {
        shown := k.read(job.value.fold, key.pct);
      }
      barsCovered := closedCovered + if joinedPartial then 1 else 0;
      profile := shown;
      if !folding {
        barsFolded := barsTotal;
        empty := if profile.None? then Some(NoTape) else None;
      }
    }

    /** One slot into the fold, and what it cost. */
    method FoldSlot(k: Kernel, tape: Tape) returns (cost: nat)
      requires job.Some?
      modifies this
      ensures cost == Cost(k, tape, old(job.value.next))
      ensures State() == OneSlot(k, tape, old(State()))
    {
      var slot, fold := job.value.next, job.value.fold;
      cost := 0;
      if slot < |tape.prefix| {
        var (pushed, joined) := k.pushCandle(fold, tape.prefix[slot]);
        fold := pushed;
        if joined {
          barsApproximated := barsApproximated + 1;
        }
        cost := 1;
      } else {
        var ladder := LadderAt(tape, slot);
        if ladder.Some? {
          var (pushed, joined) := k.pushLadder(fold, ladder.value);
          fold := pushed;
          if joined {
            closedCovered := closedCovered + 1;
          }
          cost := Max(k.levels(ladder.value), 1);
        }
      }
      job := Some(Job(fold, slot + 1, job.value.end));
      barsFolded := barsFolded + 1;
    }

    /** The budgeted loop. */
    method FoldWhileBudget(k: Kernel, inputs: Inputs)
      requires job.Some?
      modifies this
      ensures job.Some? && job.value.next >= old(job).value.next
      ensures State() == Reached(old(State()), WalkOn(k, inputs.tape, WalkOf(old(State()), 0), old(job).value.end, inputs.budget))
    {
      hide WalkOn, PushSlot, Cost, OneSlot;
      ghost var was := State();
      var end, spent: nat := job.value.end, 0;
      while spent < inputs.budget && job.value.next <= end
        invariant Progressed(was, State())
        invariant WalkOn(k, inputs.tape, WalkOf(was, 0), end, inputs.budget)
               == WalkOn(k, inputs.tape, WalkOf(State(), spent), end, inputs.budget)
        decreases end - job.value.next
      {
        OneSlotProgresses(k, inputs.tape, was, State(), spent);
        WalkUnfolds(k, inputs.tape, WalkOf(State(), spent), end, inputs.budget);
        var cost := FoldSlot(k, inputs.tape);
        spent := spent + cost;
      }
      WalkUnfolds(k, inputs.tape, WalkOf(State(), spent), end, inputs.budget);
    }

    method Advance(k: Kernel, inputs: Inputs)
      modifies this
      ensures State() == Advanced(k, old(State()), inputs)
    {
      hide WalkOn, Derived;
      if job.None? {
        return;
      }
      var prefixLen := |inputs.tape.prefix|;
      if !key.approximate && job.value.next < prefixLen {
        barsFolded := barsFolded + (prefixLen - job.value.next);
        job := Some(job.value.(next := prefixLen));
      }
      var end := job.value.end;
      FoldWhileBudget(k, inputs);
      Finish(k, end);
      Derive(k, inputs);
    }

    /** The last input in, the pending spreads are folded once. */
    method Finish(k: Kernel, end: nat)
      requires job.Some?
      modifies this
      ensures State() == old(State()).(
        folding := old(job.value.next) <= end,
        job := if old(job.value.next) <= end then old(job) else Some(old(job).value.(fold := k.seal(old(job).value.fold))))
    {
      folding := job.value.next <= end;
      if !folding {
        job := Some(job.value.(fold := k.seal(job.value.fold)));
      }
    }

    /** `refresh`: the cache carries on in place, or a new one takes its place. */
    static method Refresh(k: Kernel, current: RangeProfile?, request: Request, inputs: Inputs)
      returns (next: RangeProfile, more: bool)
      modifies if current == null then {} else {current}
      ensures next == current || fresh(next)
      ensures next.State()
           == Refreshed(k, if current == null then None else Some(old(current.State())), request, inputs)
      ensures more == next.folding
    {
      hide SpanOf, KeyOf, BarsTotal, Advanced, Derived;
      var span, newKey := SpanOf(request, inputs), KeyOf(request, inputs);
      if current != null && (current.key.SameFold(newKey) || current.key.GrownRight(newKey)) {
        next := current;
        var liveEdgeMoved := next.key.partialSnapshot != newKey.partialSnapshot;
        var grew := newKey.endSlot > next.key.endSlot;
        next.key := newKey;
        if grew {
          next.barsTotal := BarsTotal(span);
          if next.job.Some? {
            next.job := Some(next.job.value.(end := newKey.LastClosed()));
            next.folding := next.job.value.next <= next.job.value.end;
          }
        }
        if next.folding {
          next.Advance(k, inputs);
        } else if liveEdgeMoved || grew {
          next.Derive(k, inputs);
        }
        return next, next.folding;
      }
      if inputs.blocked {
        next := new RangeProfile(Cache(newKey, None, Some(Blocked), 0, 0, 0, 0, 0, BarsTotal(span), false, None));
        return next, false;
      }
      next := new RangeProfile(Cold(k, newKey, span));
      next.Advance(k, inputs);
      return next, next.folding;
    }
  }

  lemma WalkUnfolds(k: Kernel, tape: Tape, w: Walk, end: int, budget: nat)
    ensures WalkOn(k, tape, w, end, budget)
         == if w.spent < budget && w.next <= end
            then WalkOn(k, tape, Walk(PushSlot(k, tape, true, w.sum, w.next), w.next + 1, w.spent + Cost(k, tape, w.next)), end, budget)
            else w
  {
  }
}
