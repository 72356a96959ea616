/** The fold of a range's closed bars: one shot, or a few slots at a time. */
module RangeFold {
  import opened Wrappers

  type Fold(!new)
  type Rows(!new)
  type Ladder(!new, ==)
  type Candle(!new)
  type Profile(!new, ==)

  /** The engine's accumulator. `rows` is what a fold holds however late its pending
      spreads are collapsed, `group` the grouping it was opened with and `base` a
      ladder's own; only the laws below speak of them. */
  datatype Kernel = Kernel(
    open: int -> Fold,
    pushLadder: (Fold, Ladder) -> (Fold, bool),
    pushCandle: (Fold, Candle) -> (Fold, bool),
    seal: Fold -> Fold,
    read: (Fold, nat) -> Option<Profile>,
    levels: Ladder -> nat,
    base: Ladder -> int,
    rows: Fold -> Rows,
    group: Fold -> int)

  ghost predicate SameLadder(k: Kernel, f: Fold, g: Fold, l: Ladder) {
    k.rows(k.pushLadder(f, l).0) == k.rows(k.pushLadder(g, l).0) && k.pushLadder(f, l).1 == k.pushLadder(g, l).1
  }

  ghost predicate SameCandle(k: Kernel, f: Fold, g: Fold, c: Candle) {
    k.rows(k.pushCandle(f, c).0) == k.rows(k.pushCandle(g, c).0) && k.pushCandle(f, c).1 == k.pushCandle(g, c).1
  }

  /** Collapsing the pending spreads early and late reach the same rows, and the
      rows decide everything that can be read or pushed afterwards. */
  ghost predicate Lawful(k: Kernel) {
    && (forall f :: k.rows(k.seal(f)) == k.rows(f))
    && (forall f, g, l :: k.rows(f) == k.rows(g) ==> SameLadder(k, f, g, l))
    && (forall f, g, c :: k.rows(f) == k.rows(g) ==> SameCandle(k, f, g, c))
    && (forall f, g, pct :: k.rows(f) == k.rows(g) ==> k.read(f, pct) == k.read(g, pct))
  }

  /** A ladder joins exactly the folds opened with its own grouping, and one that
      is refused leaves no trace. */
  ghost predicate Grouped(k: Kernel) {
    && (forall g :: k.group(k.open(g)) == g)
    && (forall f, l :: LadderGrouped(k, f, l))
    && (forall f, c :: k.group(k.pushCandle(f, c).0) == k.group(f))
  }

  ghost predicate LadderGrouped(k: Kernel, f: Fold, l: Ladder) {
    var (after, joined) := k.pushLadder(f, l);
    && k.group(after) == k.group(f)
    && (joined <==> k.base(l) == k.group(f))
    && (!joined ==> k.rows(after) == k.rows(f))
  }

  /** The closed slots: venue candles first, then bars of which some have ladders. */
  datatype Tape = Tape(prefix: seq<Candle>, closed: nat, ladders: seq<Ladder>)

  function ClosedTotal(tape: Tape): nat {
    |tape.prefix| + tape.closed
  }

  function LadderAt(tape: Tape, slot: nat): Option<Ladder> {
    if |tape.prefix| <= slot < ClosedTotal(tape) && slot - |tape.prefix| < |tape.ladders|
    then Some(tape.ladders[slot - |tape.prefix|])
    else None
  }

  /** Nothing closed in `a` reads differently in `b`. */
  ghost predicate Extends(a: Tape, b: Tape) {
    && a.prefix == b.prefix && a.closed <= b.closed
    && forall i: nat :: i < a.closed ==>
         && (i < |a.ladders| <==> i < |b.ladders|)
         && (i < |a.ladders| ==> a.ladders[i] == b.ladders[i])
  }

  lemma ExtendedLadder(a: Tape, b: Tape, slot: nat)
    requires Extends(a, b) && (slot < ClosedTotal(a) || a.closed == b.closed)
    ensures LadderAt(a, slot) == LadderAt(b, slot)
  {
  }

  datatype Sum = Sum(fold: Fold, covered: nat, approximated: nat)

  /** One slot's contribution. */
  function PushSlot(k: Kernel, tape: Tape, approximate: bool, sum: Sum, slot: nat): Sum {
    if slot < |tape.prefix| then
      if approximate then
        var (fold, joined) := k.pushCandle(sum.fold, tape.prefix[slot]);
        sum.(fold := fold, approximated := sum.approximated + if joined then 1 else 0)
      else sum
    else
      var ladder := LadderAt(tape, slot);
      if ladder.Some? then
        var (fold, joined) := k.pushLadder(sum.fold, ladder.value);
        sum.(fold := fold, covered := sum.covered + if joined then 1 else 0)
      else sum
  }

  /** The one-shot fold of the slots in [from, to). */
  function FoldRange(k: Kernel, tape: Tape, approximate: bool, group: int, from: nat, to: nat): Sum {
    if to <= from then Sum(k.open(group), 0, 0)
    else PushSlot(k, tape, approximate, FoldRange(k, tape, approximate, group, from, to - 1), to - 1)
  }

  ghost predicate Alike(k: Kernel, a: Sum, b: Sum) {
    k.rows(a.fold) == k.rows(b.fold) && a.covered == b.covered && a.approximated == b.approximated
  }

  lemma PushAlike(k: Kernel, tape: Tape, approximate: bool, a: Sum, b: Sum, slot: nat)
    requires Lawful(k) && Alike(k, a, b)
    ensures Alike(k, PushSlot(k, tape, approximate, a, slot), PushSlot(k, tape, approximate, b, slot))
  {
    if slot < |tape.prefix| {
      assert SameCandle(k, a.fold, b.fold, tape.prefix[slot]);
    } else if LadderAt(tape, slot).Some? {
      assert SameLadder(k, a.fold, b.fold, LadderAt(tape, slot).value);
    }
  }

  lemma SealIsNeutral(k: Kernel, a: Sum)
    requires Lawful(k)
    ensures Alike(k, a.(fold := k.seal(a.fold)), a)
  {
  }

  lemma ReadAlike(k: Kernel, f: Fold, g: Fold, pct: nat)
    requires Lawful(k) && k.rows(f) == k.rows(g)
    ensures k.read(f, pct) == k.read(g, pct)
  {
  }

  /** A tape that only grew folds to the same sum over the slots it had. */
  lemma {:induction false} ExtendedFold(k: Kernel, a: Tape, b: Tape, approximate: bool, group: int, from: nat, to: nat)
    requires Extends(a, b) && (to <= ClosedTotal(a) || a.closed == b.closed)
    ensures FoldRange(k, a, approximate, group, from, to) == FoldRange(k, b, approximate, group, from, to)
  {
    if from < to {
      ExtendedFold(k, a, b, approximate, group, from, to - 1);
      ExtendedLadder(a, b, to - 1);
    }
  }

  /** With approximation off the venue candles contribute nothing. */
  lemma {:induction false} CandlesAreSkipped(k: Kernel, tape: Tape, group: int, from: nat, mid: nat, to: nat)
    requires mid <= to <= |tape.prefix|
    ensures FoldRange(k, tape, false, group, from, to) == FoldRange(k, tape, false, group, from, mid)
  {
    if mid < to {
      CandlesAreSkipped(k, tape, group, from, mid, to - 1);
    }
  }

  /** The slot's ladder is there and is one of this grouping's. */
  predicate Joins(k: Kernel, tape: Tape, group: int, slot: nat) {
    LadderAt(tape, slot).Some? && k.base(LadderAt(tape, slot).value) == group
  }

  lemma {:induction false} FoldKeepsGroup(k: Kernel, tape: Tape, approximate: bool, group: int, from: nat, to: nat)
    requires Grouped(k)
    ensures k.group(FoldRange(k, tape, approximate, group, from, to).fold) == group
  {
    if from < to {
      FoldKeepsGroup(k, tape, approximate, group, from, to - 1);
      PushKeepsGroup(k, tape, approximate, FoldRange(k, tape, approximate, group, from, to - 1), to - 1);
    }
  }

  lemma PushKeepsGroup(k: Kernel, tape: Tape, approximate: bool, sum: Sum, slot: nat)
    requires Grouped(k)
    ensures var after := PushSlot(k, tape, approximate, sum, slot);
      && k.group(after.fold) == k.group(sum.fold)
      && (slot >= |tape.prefix| ==>
          && after.covered == sum.covered + (if Joins(k, tape, k.group(sum.fold), slot) then 1 else 0)
          && (!Joins(k, tape, k.group(sum.fold), slot) ==> Alike(k, after, sum)))
  {
    if slot >= |tape.prefix| && LadderAt(tape, slot).Some? {
      assert LadderGrouped(k, sum.fold, LadderAt(tape, slot).value);
    }
  }

  /** Leaving out the first slot of a tape without candles: one covered bar short
      if its ladder joins, no difference at all if it does not. */
  lemma {:induction false} WithoutTheFirst(k: Kernel, tape: Tape, approximate: bool, group: int, to: nat)
    requires Lawful(k) && Grouped(k) && tape.prefix == [] && to >= 1
    ensures var (all, rest) := (FoldRange(k, tape, approximate, group, 0, to), FoldRange(k, tape, approximate, group, 1, to));
      if Joins(k, tape, group, 0) then all.covered == rest.covered + 1 else Alike(k, all, rest)
  {
    hide Lawful, Grouped, PushSlot, Alike, Joins;
    var (all, rest) := (FoldRange(k, tape, approximate, group, 0, to - 1), FoldRange(k, tape, approximate, group, 1, to - 1));
    FoldKeepsGroup(k, tape, approximate, group, 0, to - 1);
    FoldKeepsGroup(k, tape, approximate, group, 1, to - 1);
    PushKeepsGroup(k, tape, approximate, all, to - 1);
    PushKeepsGroup(k, tape, approximate, rest, to - 1);
    if to > 1 {
      WithoutTheFirst(k, tape, approximate, group, to - 1);
      if !Joins(k, tape, group, 0) {
        PushAlike(k, tape, approximate, all, rest, to - 1);
      }
    }
  }

  // -------------------------------------------- candles first, ladders after

  function PushCandles(k: Kernel, sum: Sum, candles: seq<Candle>): Sum {
    if candles == [] then sum
    else
      var before := PushCandles(k, sum, candles[..|candles| - 1]);
      var (fold, joined) := k.pushCandle(before.fold, candles[|candles| - 1]);
      before.(fold := fold, approximated := before.approximated + if joined then 1 else 0)
  }

  function PushLadders(k: Kernel, sum: Sum, ladders: seq<Ladder>): Sum {
    if ladders == [] then sum
    else
      var before := PushLadders(k, sum, ladders[..|ladders| - 1]);
      var (fold, joined) := k.pushLadder(before.fold, ladders[|ladders| - 1]);
      before.(fold := fold, covered := before.covered + if joined then 1 else 0)
  }

  function Clamp(n: int, most: nat): nat {
    if n < 0 then 0 else if n < most then n else most
  }

  /** The venue candles of the slots in [from, to). */
  function CandlesIn(tape: Tape, from: nat, to: nat): seq<Candle>
    requires from <= to
  {
    tape.prefix[Clamp(from, |tape.prefix|)..Clamp(to, |tape.prefix|)]
  }

  /** The ladders of the closed bars in [from, to), each at its own place after the
      candles: a bar past the ladders the tape has, or past the closed ones, adds none. */
  function LaddersIn(tape: Tape, from: nat, to: nat): seq<Ladder>
    requires from <= to
  {
    var known := if tape.closed < |tape.ladders| then tape.closed else |tape.ladders|;
    tape.ladders[Clamp(from - |tape.prefix|, known)..Clamp(to - |tape.prefix|, known)]
  }

  /** The fold of the closed slots in [from, to) is its venue candles, when they may
      join, and then its bars' ladders. */
  lemma {:induction false} FoldIsCandlesThenLadders(k: Kernel, tape: Tape, approximate: bool, group: int, from: nat, to: nat)
    requires from <= to
    ensures FoldRange(k, tape, approximate, group, from, to)
         == PushLadders(k, PushCandles(k, Sum(k.open(group), 0, 0), if approximate then CandlesIn(tape, from, to) else []),
                        LaddersIn(tape, from, to))
  {
    hide CandlesIn, LaddersIn, LadderAt;
    if from < to {
      var (slot, start) := (to - 1, Sum(k.open(group), 0, 0));
      FoldIsCandlesThenLadders(k, tape, approximate, group, from, slot);
      OneMoreSlot(tape, from, slot);
      hide FoldRange, PushCandles, PushLadders;
      FoldOneMore(k, tape, approximate, group, from, slot);
      OneMoreCandle(k, start, tape, from, slot);
      var sum := PushCandles(k, start, if approximate then CandlesIn(tape, from, to) else []);
      OneMoreLadder(k, sum, tape, from, slot);
      NothingPushed(k, start);
      NothingPushed(k, PushCandles(k, start, CandlesIn(tape, from, to)));
      NothingPushed(k, PushCandles(k, start, CandlesIn(tape, from, slot)));
    } else {
      NothingIn(tape, from);
    }
  }

  lemma NothingIn(tape: Tape, from: nat)
    ensures CandlesIn(tape, from, from) == [] && LaddersIn(tape, from, from) == []
  {
  }

  lemma {:induction false} NothingPushed(k: Kernel, sum: Sum)
    ensures PushCandles(k, sum, []) == sum && PushLadders(k, sum, []) == sum
  {
  }

  /** One slot is one candle, one ladder or nothing. */
  lemma OneMoreSlot(tape: Tape, from: nat, slot: nat)
    requires from <= slot
    ensures slot < |tape.prefix| ==>
      && CandlesIn(tape, from, slot + 1) == CandlesIn(tape, from, slot) + [tape.prefix[slot]]
      && LaddersIn(tape, from, slot + 1) == LaddersIn(tape, from, slot) == []
    ensures slot >= |tape.prefix| ==>
      && CandlesIn(tape, from, slot + 1) == CandlesIn(tape, from, slot)
      && LaddersIn(tape, from, slot + 1)
           == if LadderAt(tape, slot).Some? then LaddersIn(tape, from, slot) + [LadderAt(tape, slot).value]
              else LaddersIn(tape, from, slot)
  {
  }

  lemma FoldOneMore(k: Kernel, tape: Tape, approximate: bool, group: int, from: nat, slot: nat)
    requires from <= slot
    ensures FoldRange(k, tape, approximate, group, from, slot + 1)
         == PushSlot(k, tape, approximate, FoldRange(k, tape, approximate, group, from, slot), slot)
  {
  }

  lemma {:induction false} OneMoreCandle(k: Kernel, sum: Sum, tape: Tape, from: nat, slot: nat)
    requires from <= slot
    ensures slot < |tape.prefix| ==>
      var before := PushCandles(k, sum, CandlesIn(tape, from, slot));
      var (fold, joined) := k.pushCandle(before.fold, tape.prefix[slot]);
      PushCandles(k, sum, CandlesIn(tape, from, slot + 1))
        == before.(fold := fold, approximated := before.approximated + if joined then 1 else 0)
  {
    hide CandlesIn, LaddersIn;
    OneMoreSlot(tape, from, slot);
    if slot < |tape.prefix| {
      assert CandlesIn(tape, from, slot + 1)[..|CandlesIn(tape, from, slot)|] == CandlesIn(tape, from, slot);
    }
  }

  lemma {:induction false} OneMoreLadder(k: Kernel, sum: Sum, tape: Tape, from: nat, slot: nat)
    requires from <= slot
    ensures slot >= |tape.prefix| && LadderAt(tape, slot).Some? ==>
      var before := PushLadders(k, sum, LaddersIn(tape, from, slot));
      var (fold, joined) := k.pushLadder(before.fold, LadderAt(tape, slot).value);
      PushLadders(k, sum, LaddersIn(tape, from, slot + 1))
        == before.(fold := fold, covered := before.covered + if joined then 1 else 0)
  {
    hide CandlesIn, LaddersIn;
    OneMoreSlot(tape, from, slot);
    if slot >= |tape.prefix| && LadderAt(tape, slot).Some? {
      assert LaddersIn(tape, from, slot + 1)[..|LaddersIn(tape, from, slot)|] == LaddersIn(tape, from, slot);
    }
  }

  // --------------------------------------------------------------- one pass

  datatype Walk = Walk(sum: Sum, next: nat, spent: nat)

  /** What a slot costs: a candle one, a ladder its levels, an empty slot nothing. */
  function Cost(k: Kernel, tape: Tape, slot: nat): nat {
    if slot < |tape.prefix| then 1
    else
      var ladder := LadderAt(tape, slot);
      if ladder.None? then 0 else if k.levels(ladder.value) > 1 then k.levels(ladder.value) else 1
  }

  function WalkOn(k: Kernel, tape: Tape, w: Walk, end: int, budget: nat): (r: Walk)
    ensures r.next >= w.next && (r.next == w.next || r.next <= end + 1)
    ensures if budget > w.spent && w.next <= end then r.next > w.next else r == w
    decreases end - w.next
  {
    if w.spent < budget && w.next <= end then
      WalkOn(k, tape, Walk(PushSlot(k, tape, true, w.sum, w.next), w.next + 1, w.spent + Cost(k, tape, w.next)), end, budget)
    else w
  }

  /** What the slots in [from, to) cost. */
  function Spent(k: Kernel, tape: Tape, from: nat, to: nat): nat {
    if to <= from then 0 else Spent(k, tape, from, to - 1) + Cost(k, tape, to - 1)
  }

  /** The levels of some ladders, one at least for each. */
  function LevelsOf(k: Kernel, ladders: seq<Ladder>): nat {
    if ladders == [] then 0
    else
      var (before, last) := (ladders[..|ladders| - 1], ladders[|ladders| - 1]);
      LevelsOf(k, before) + if k.levels(last) == 0 then 1 else k.levels(last)
  }

  /** A range costs one for each of its candles, and the levels of its ladders. */
  lemma {:induction false} SpentIsCandlesAndLevels(k: Kernel, tape: Tape, from: nat, to: nat)
    requires from <= to
    ensures Spent(k, tape, from, to) == |CandlesIn(tape, from, to)| + LevelsOf(k, LaddersIn(tape, from, to))
  {
    hide CandlesIn, LaddersIn, LadderAt;
    if from < to {
      var slot := to - 1;
      SpentIsCandlesAndLevels(k, tape, from, slot);
      OneMoreSlot(tape, from, slot);
      if slot >= |tape.prefix| && LadderAt(tape, slot).Some? {
        assert LaddersIn(tape, from, to)[..|LaddersIn(tape, from, slot)|] == LaddersIn(tape, from, slot);
      }
    } else {
      NothingIn(tape, from);
    }
  }

  /** A walk stops at the end or when the budget is spent, and before its last slot
      it was not. */
  lemma {:induction false} WalkSpends(k: Kernel, tape: Tape, w: Walk, end: int, budget: nat, from: nat)
    requires from <= w.next && w.spent == Spent(k, tape, from, w.next)
    ensures var r := WalkOn(k, tape, w, end, budget);
      && r.spent == Spent(k, tape, from, r.next)
      && (w.next < r.next ==> Spent(k, tape, from, r.next - 1) < budget)
      && (r.next <= end ==> r.spent >= budget)
    decreases end - w.next
  {
    hide Cost, PushSlot;
    if w.spent < budget && w.next <= end {
      var after := Walk(PushSlot(k, tape, true, w.sum, w.next), w.next + 1, w.spent + Cost(k, tape, w.next));
      WalkSpends(k, tape, after, end, budget, from);
    }
  }

  /** What a walk reaches is the one-shot fold of what it has walked. */
  lemma {:induction false} WalkFolds(k: Kernel, tape: Tape, approximate: bool, group: int, from: nat, w: Walk, end: int, budget: nat)
    requires Lawful(k) && from <= w.next && (approximate || w.next >= |tape.prefix|)
    requires Alike(k, w.sum, FoldRange(k, tape, approximate, group, from, w.next))
    ensures var r := WalkOn(k, tape, w, end, budget);
      Alike(k, r.sum, FoldRange(k, tape, approximate, group, from, r.next))
    decreases end - w.next
  {
    if w.spent < budget && w.next <= end {
      hide Lawful, Alike, PushSlot;
      var one := FoldRange(k, tape, approximate, group, from, w.next);
      PushAlike(k, tape, approximate, w.sum, one, w.next);
      SameWhenWalked(k, tape, approximate, w.sum, w.next);
      var after := Walk(PushSlot(k, tape, true, w.sum, w.next), w.next + 1, w.spent + Cost(k, tape, w.next));
      WalkFolds(k, tape, approximate, group, from, after, end, budget);
    }
  }

  lemma SameWhenWalked(k: Kernel, tape: Tape, approximate: bool, sum: Sum, slot: nat)
    requires approximate || slot >= |tape.prefix|
    ensures PushSlot(k, tape, true, sum, slot) == PushSlot(k, tape, approximate, sum, slot)
  {
  }
}
