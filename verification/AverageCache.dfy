/** The anchored average: rows kept by preview, append or replay, against the rows a
    replay from the anchor gives. */
module AverageCache {
  import opened Numbers
  import opened Wrappers

  type State(!new)
  type Row(!new, ==)
  type Price(!new)
  type Config(!new, ==)

  datatype Bar = Bar(openTime: int, closeTime: int, trades: nat, price: Price)

  /** The indicator kernel: `close` commits a bar's row or fails without a trace,
      `preview` answers for a forming bar and changes nothing. */
  datatype Kernel = Kernel(
    start: (int, Config) -> State,
    close: (State, Bar, nat) -> Option<(State, Row)>,
    preview: (State, Bar, nat) -> Option<Row>,
    blank: Row)

  /** The kernel as of the last closed bar, and the rows it has committed. */
  datatype Retained = Retained(state: State, plots: seq<Row>)

  datatype Inputs = Inputs(prefix: seq<Bar>, closed: seq<Bar>, partial: Option<Bar>, timelineRevision: nat)

  /** `anchor` is None when the anchor's coordinate is not finite. */
  datatype Request = Request(anchor: Option<real>, config: Config)

  datatype Sig = Sig(closeTime: int, trades: nat)

  datatype Key = Key(anchorSlot: nat, timelineRevision: nat, closedLen: nat, prefixLen: nat, config: Config)

  datatype Average = Average(key: Key, partial: Option<Sig>, firstSlot: nat, rows: seq<Row>, kernel: Retained)

  function ClosedTotal(inputs: Inputs): nat {
    |inputs.prefix| + |inputs.closed|
  }

  function BarAt(inputs: Inputs, slot: nat): Option<Bar> {
    if slot < |inputs.prefix| then Some(inputs.prefix[slot])
    else
      var stateSlot := slot - |inputs.prefix|;
      if stateSlot < |inputs.closed| then Some(inputs.closed[stateSlot])
      else if stateSlot == |inputs.closed| then inputs.partial
      else None
  }

  function Slots(inputs: Inputs): nat {
    ClosedTotal(inputs) + if inputs.partial.Some? then 1 else 0
  }

  /** The bars there are: venue candles, closed bars, and the forming one. */
  function Bars(inputs: Inputs): seq<Bar> {
    inputs.prefix + inputs.closed + if inputs.partial.Some? then [inputs.partial.value] else []
  }

  function Distance(a: int, b: int): nat {
    if a < b then b - a else a - b
  }

  /** The bar under the anchor, clamped to the bars that exist. */
  function AnchorSlot(request: Request, inputs: Inputs): (slot: Option<nat>)
    ensures slot.Some? <==> request.anchor.Some? && Slots(inputs) > 0
    ensures slot.Some? ==> slot.value < Slots(inputs)
  {
    if Slots(inputs) == 0 || request.anchor.None? then None
    else
      var slot := Round(request.anchor.value);
      Some(if slot < 0 then 0 else if slot < Slots(inputs) then slot else Slots(inputs) - 1)
  }

  function KeyOf(slot: nat, request: Request, inputs: Inputs): Key {
    Key(slot, inputs.timelineRevision, |inputs.closed|, |inputs.prefix|, request.config)
  }

  function SigOf(partial: Option<Bar>): Option<Sig> {
    if partial.None? then None else Some(Sig(partial.value.closeTime, partial.value.trades))
  }

  // --------------------------------------------------------------- the operations

  function PlotRow(k: Kernel, kernel: Retained, row: nat): Row {
    if row < |kernel.plots| then kernel.plots[row] else k.blank
  }

  function LiveRows(k: Kernel, kernel: Retained, partial: Option<Bar>): (rows: seq<Row>)
    ensures |rows| <= 1
  {
    if partial.None? then []
    else
      var row := k.preview(kernel.state, partial.value, |kernel.plots|);
      if row.None? then [] else [row.value]
  }

  /** Bars from `slot` closed one by one, each pushing the row the kernel just
      committed; the first failure ends it. */
  function CloseRows(k: Kernel, inputs: Inputs, kernel: Retained, rows: seq<Row>, slot: nat, upTo: nat): (Retained, seq<Row>)
    decreases upTo - slot
  {
    if slot >= upTo || BarAt(inputs, slot).None? then (kernel, rows)
    else
      var closed := k.close(kernel.state, BarAt(inputs, slot).value, |kernel.plots|);
      if closed.None? then (kernel, rows)
      else
        var after := Retained(closed.value.0, kernel.plots + [closed.value.1]);
        CloseRows(k, inputs, after, rows + [PlotRow(k, after, |rows|)], slot + 1, upTo)
  }

  function Popped(rows: seq<Row>): seq<Row> {
    if rows == [] then [] else rows[..|rows| - 1]
  }

  function PartialRefreshed(k: Kernel, avg: Average, inputs: Inputs): Average {
    var sig := SigOf(inputs.partial);
    if avg.partial == sig then avg
    else
      var rows := if avg.partial.Some? then Popped(avg.rows) else avg.rows;
      avg.(rows := rows + LiveRows(k, avg.kernel, inputs.partial), partial := sig)
  }

  function Appended(k: Kernel, avg: Average, key: Key, inputs: Inputs): Average {
    var rows := if avg.partial.Some? then Popped(avg.rows) else avg.rows;
    var (kernel, closed) := CloseRows(k, inputs, avg.kernel, rows, key.anchorSlot + |avg.kernel.plots|, ClosedTotal(inputs));
    avg.(key := key, partial := SigOf(inputs.partial), kernel := kernel, rows := closed + LiveRows(k, kernel, inputs.partial))
  }

  /** Everything from the anchor bar on, from nothing. */
  function Replayed(k: Kernel, slot: nat, request: Request, inputs: Inputs): Option<Average> {
    var anchor := BarAt(inputs, slot);
    if anchor.None? then None
    else
      var start := Retained(k.start(anchor.value.openTime, request.config), []);
      var (kernel, closed) := CloseRows(k, inputs, start, [], slot, ClosedTotal(inputs));
      Some(Average(KeyOf(slot, request, inputs), SigOf(inputs.partial), slot,
                   closed + LiveRows(k, kernel, inputs.partial), kernel))
  }

  predicate Extends(was: Key, key: Key) {
    was == key.(closedLen := was.closedLen) && was.closedLen < key.closedLen
  }

  function Refreshed(k: Kernel, current: Option<Average>, request: Request, inputs: Inputs): Option<Average> {
    var slot := AnchorSlot(request, inputs);
    if slot.None? then None
    else
      var key := KeyOf(slot.value, request, inputs);
      if current.Some? && current.value.key == key then Some(PartialRefreshed(k, current.value, inputs))
      else if current.Some? && Extends(current.value.key, key) then Some(Appended(k, current.value, key, inputs))
      else Replayed(k, slot.value, request, inputs)
  }

  /** What a refresh with nothing to reuse would hold. */
  function FromScratch(k: Kernel, request: Request, inputs: Inputs): Option<Average> {
    Refreshed(k, None, request, inputs)
  }

  // --------------------------------------------------------------- what a tape keeps

  /** An equal timeline revision over an equal prefix means bars were only appended,
      the forming bar closes with the open it had, and an equal signature on an equal
      count of bars is the same forming bar. */
  ghost predicate Steady(was: Inputs, inputs: Inputs) {
    was.timelineRevision == inputs.timelineRevision && |was.prefix| == |inputs.prefix| ==>
      && was.prefix == inputs.prefix && was.closed <= inputs.closed
      && OpensAlike(BarAt(was, ClosedTotal(was)), BarAt(inputs, ClosedTotal(was)))
      && (|was.closed| == |inputs.closed| && SigOf(was.partial) == SigOf(inputs.partial) ==> was.partial == inputs.partial)
  }

  predicate OpensAlike(a: Option<Bar>, b: Option<Bar>) {
    a.Some? && b.Some? ==> a.value.openTime == b.value.openTime
  }

  /** The kernel answers for the forming bar. */
  predicate Previews(k: Kernel, avg: Average, partial: Option<Bar>) {
    partial.Some? ==> k.preview(avg.kernel.state, partial.value, |avg.kernel.plots|).Some?
  }

  // --------------------------------------------------------------- the anchor

  lemma BarAtIsTheBar(inputs: Inputs, slot: nat)
    ensures BarAt(inputs, slot) == if slot < |Bars(inputs)| then Some(Bars(inputs)[slot]) else None
    ensures Slots(inputs) == |Bars(inputs)|
  {
  }

  /** The average starts on the bar at the rounded anchor, and where there is none, on
      the one nearest to it: there is an anchor slot exactly when there is a bar and a
      coordinate, and no bar is nearer. */
  lemma AnchorIsTheNearestBar(request: Request, inputs: Inputs)
    ensures AnchorSlot(request, inputs).Some? <==> request.anchor.Some? && Bars(inputs) != []
    ensures AnchorSlot(request, inputs).Some? ==>
      var (slot, asked) := (AnchorSlot(request, inputs).value, Round(request.anchor.value));
      && slot < |Bars(inputs)|
      && (0 <= asked < |Bars(inputs)| ==> slot == asked)
      && forall other: nat :: other < |Bars(inputs)| && other != slot ==> Distance(slot, asked) < Distance(other, asked)
  {
    hide Round;
    BarAtIsTheBar(inputs, 0);
  }

  /** The bars closed one after another from a fresh kernel until one is refused. */
  function Committed(k: Kernel, kernel: Retained, bars: seq<Bar>): Retained
    decreases |bars|
  {
    if bars == [] then kernel
    else
      var closed := k.close(kernel.state, bars[0], |kernel.plots|);
      if closed.None? then kernel
      else Committed(k, Retained(closed.value.0, kernel.plots + [closed.value.1]), bars[1..])
  }

  lemma {:induction false} ClosingCommits(k: Kernel, inputs: Inputs, kernel: Retained, rows: seq<Row>, slot: nat, upTo: nat)
    requires slot <= upTo <= |Bars(inputs)|
    ensures CloseRows(k, inputs, kernel, rows, slot, upTo).0 == Committed(k, kernel, Bars(inputs)[slot..upTo])
    decreases upTo - slot
  {
    hide Bars;
    if slot < upTo {
      BarAtIsTheBar(inputs, slot);
      var bars := Bars(inputs)[slot..upTo];
      assert bars[0] == Bars(inputs)[slot] && bars[1..] == Bars(inputs)[slot + 1..upTo];
      var closed := k.close(kernel.state, bars[0], |kernel.plots|);
      if closed.Some? {
        var after := Retained(closed.value.0, kernel.plots + [closed.value.1]);
        ClosingCommits(k, inputs, after, rows + [PlotRow(k, after, |rows|)], slot + 1, upTo);
      }
    }
  }

  /** A refresh with nothing to reuse anchors the kernel at the anchor bar's own open
      and closes every closed bar from it on, in order; its rows are the rows those
      bars committed and the forming bar's preview, the anchor's own row first. */
  lemma {:induction false} ReplayClosesTheBars(k: Kernel, request: Request, inputs: Inputs)
    requires AnchorSlot(request, inputs).Some?
    ensures var (slot, total) := (AnchorSlot(request, inputs).value, |inputs.prefix| + |inputs.closed|);
      var kernel := Committed(k, Retained(k.start(Bars(inputs)[slot].openTime, request.config), []),
                              if slot < total then Bars(inputs)[slot..total] else []);
      && FromScratch(k, request, inputs).Some?
      && var avg := FromScratch(k, request, inputs).value;
      && avg.kernel == kernel && avg.firstSlot == slot
      && avg.key == Key(slot, inputs.timelineRevision, |inputs.closed|, |inputs.prefix|, request.config)
      && match inputs.partial
         case None => avg.rows == kernel.plots && avg.partial == None
         case Some(bar) =>
           var shown := k.preview(kernel.state, bar, |kernel.plots|);
           && avg.rows == kernel.plots + (if shown.Some? then [shown.value] else [])
           && avg.partial == Some(Sig(bar.closeTime, bar.trades))
  {
    var (slot, total) := (AnchorSlot(request, inputs).value, ClosedTotal(inputs));
    BarAtIsTheBar(inputs, slot);
    hide AnchorSlot, BarAt, Bars, Slots;
    ReplayedShape(k, slot, request, inputs);
    var start := Retained(k.start(Bars(inputs)[slot].openTime, request.config), []);
    if slot < total {
      ClosingCommits(k, inputs, start, [], slot, total);
    } else {
      assert CloseRows(k, inputs, start, [], slot, total).0 == start;
    }
  }

  // ------------------------------------------------------------------- the proofs

  /** Each closed bar pushes the kernel's row at the index the rows have reached: rows
      that are short stay short by as many. */
  lemma {:induction false} RowsFollowTheKernel(k: Kernel, inputs: Inputs, kernel: Retained, slot: nat, upTo: nat, lost: nat)
    requires lost <= |kernel.plots|
    ensures var (after, rows) := CloseRows(k, inputs, kernel, kernel.plots[..|kernel.plots| - lost], slot, upTo);
      && |kernel.plots| <= |after.plots| && rows == after.plots[..|after.plots| - lost]
    decreases upTo - slot
  {
    if slot < upTo && BarAt(inputs, slot).Some? {
      var closed := k.close(kernel.state, BarAt(inputs, slot).value, |kernel.plots|);
      if closed.Some? {
        var (n, after) := (|kernel.plots|, Retained(closed.value.0, kernel.plots + [closed.value.1]));
        assert kernel.plots[..n - lost] + [after.plots[n - lost]] == after.plots[..n + 1 - lost];
        RowsFollowTheKernel(k, inputs, after, slot + 1, upTo, lost);
      }
    }
  }

  /** How many rows a kernel ends with, and where, does not depend on the rows pushed. */
  lemma {:induction false} KernelAlone(k: Kernel, inputs: Inputs, kernel: Retained, rows: seq<Row>, other: seq<Row>, slot: nat, upTo: nat)
    ensures CloseRows(k, inputs, kernel, rows, slot, upTo).0 == CloseRows(k, inputs, kernel, other, slot, upTo).0
    decreases upTo - slot
  {
    if slot < upTo && BarAt(inputs, slot).Some? {
      var closed := k.close(kernel.state, BarAt(inputs, slot).value, |kernel.plots|);
      if closed.Some? {
        var after := Retained(closed.value.0, kernel.plots + [closed.value.1]);
        KernelAlone(k, inputs, after, rows + [PlotRow(k, after, |rows|)], other + [PlotRow(k, after, |other|)], slot + 1, upTo);
      }
    }
  }

  lemma WholeRows(plots: seq<Row>)
    ensures plots[..|plots| - 0] == plots
  {
  }

  /** Closing carries on from wherever it stopped, a refused bar included. */
  lemma {:induction false} ClosingCarriesOn(k: Kernel, inputs: Inputs, kernel: Retained, slot: nat, mid: nat, upTo: nat)
    requires mid <= upTo
    ensures var (some, rows) := CloseRows(k, inputs, kernel, kernel.plots, slot, mid);
      && |kernel.plots| <= |some.plots|
      && CloseRows(k, inputs, kernel, kernel.plots, slot, upTo)
           == CloseRows(k, inputs, some, some.plots, slot + |some.plots| - |kernel.plots|, upTo)
    decreases mid - slot
  {
    if slot < mid && BarAt(inputs, slot).Some? {
      var closed := k.close(kernel.state, BarAt(inputs, slot).value, |kernel.plots|);
      if closed.Some? {
        var after := Retained(closed.value.0, kernel.plots + [closed.value.1]);
        WholeRows(after.plots);
        RowsFollowTheKernel(k, inputs, after, slot + 1, mid, 0);
        ClosingCarriesOn(k, inputs, after, slot + 1, mid, upTo);
      }
    }
  }

  lemma {:induction false} SameBarsSameRows(k: Kernel, a: Inputs, b: Inputs, kernel: Retained, rows: seq<Row>, slot: nat, upTo: nat)
    requires forall s: nat :: s < upTo ==> BarAt(a, s) == BarAt(b, s)
    ensures CloseRows(k, a, kernel, rows, slot, upTo) == CloseRows(k, b, kernel, rows, slot, upTo)
    decreases upTo - slot
  {
    if slot < upTo && BarAt(a, slot).Some? {
      var closed := k.close(kernel.state, BarAt(a, slot).value, |kernel.plots|);
      if closed.Some? {
        var after := Retained(closed.value.0, kernel.plots + [closed.value.1]);
        SameBarsSameRows(k, a, b, after, rows + [PlotRow(k, after, |rows|)], slot + 1, upTo);
      }
    }
  }

  /** A replayed average: its rows are the kernel's, and the live one. */
  lemma ReplayedShape(k: Kernel, slot: nat, request: Request, inputs: Inputs)
    requires Replayed(k, slot, request, inputs).Some?
    ensures var avg := Replayed(k, slot, request, inputs).value;
      avg.rows == avg.kernel.plots + LiveRows(k, avg.kernel, inputs.partial)
  {
    RowsFollowTheKernel(k, inputs, Retained(k.start(BarAt(inputs, slot).value.openTime, request.config), []), slot, ClosedTotal(inputs), 0);
    WholeRows(Replayed(k, slot, request, inputs).value.kernel.plots);
  }

  /** A kernel that refuses nothing leaves one row a bar, from the anchor to the newest. */
  lemma OneRowABar(k: Kernel, slot: nat, request: Request, inputs: Inputs)
    requires Replayed(k, slot, request, inputs).Some? && slot < Slots(inputs)
    requires forall state, bar, n :: k.close(state, bar, n).Some?
    requires Previews(k, Replayed(k, slot, request, inputs).value, inputs.partial)
    ensures |Replayed(k, slot, request, inputs).value.rows| == Slots(inputs) - slot
  {
    var start := Retained(k.start(BarAt(inputs, slot).value.openTime, request.config), []);
    EveryBarCloses(k, inputs, start, slot, ClosedTotal(inputs));
    ReplayedShape(k, slot, request, inputs);
  }

  lemma {:induction false} EveryBarCloses(k: Kernel, inputs: Inputs, kernel: Retained, slot: nat, upTo: nat)
    requires slot <= upTo <= ClosedTotal(inputs)
    requires forall state, bar, n :: k.close(state, bar, n).Some?
    ensures |CloseRows(k, inputs, kernel, kernel.plots, slot, upTo).0.plots| == |kernel.plots| + upTo - slot
    decreases upTo - slot
  {
    if slot < upTo {
      var closed := k.close(kernel.state, BarAt(inputs, slot).value, |kernel.plots|);
      EveryBarCloses(k, inputs, Retained(closed.value.0, kernel.plots + [closed.value.1]), slot + 1, upTo);
    }
  }

  /** A replayed average whose last `lost` committed rows are missing. */
  function Short(k: Kernel, avg: Average, partial: Option<Bar>, lost: nat): Average
    requires lost <= |avg.kernel.plots|
  {
    avg.(rows := avg.kernel.plots[..|avg.kernel.plots| - lost] + LiveRows(k, avg.kernel, partial))
  }

  lemma NothingShort(k: Kernel, slot: nat, request: Request, inputs: Inputs, lost: nat)
    requires Replayed(k, slot, request, inputs).Some?
    requires lost <= |Replayed(k, slot, request, inputs).value.kernel.plots|
    ensures Short(k, Replayed(k, slot, request, inputs).value, inputs.partial, lost) == Replayed(k, slot, request, inputs).value
       <==> lost == 0
  {
    ReplayedShape(k, slot, request, inputs);
    hide Replayed, LiveRows;
    var avg := Replayed(k, slot, request, inputs).value;
    WholeRows(avg.kernel.plots);
    assert lost > 0 ==> |Short(k, avg, inputs.partial, lost).rows| < |avg.rows|;
  }

  /** The rows missing once the live row has been taken off: one more if the preview
      had failed and there was a committed row to take in its place. */
  function LostMore(k: Kernel, avg: Average, partial: Option<Bar>, lost: nat): nat {
    if !Previews(k, avg, partial) && lost < |avg.kernel.plots| then lost + 1 else lost
  }

  lemma LiveRowComesOff(k: Kernel, avg: Average, partial: Option<Bar>, lost: nat)
    requires lost <= |avg.kernel.plots| && avg.partial == SigOf(partial)
    ensures var was := Short(k, avg, partial, lost);
      var more := LostMore(k, avg, partial, lost);
      && more <= |avg.kernel.plots|
      && (if was.partial.Some? then Popped(was.rows) else was.rows) == avg.kernel.plots[..|avg.kernel.plots| - more]
  {
  }

  /** A refresh over the same closed bars: a replay, short by the rows that were
      missing, and one more if the forming bar moved after a failed preview. */
  lemma PreviewLeaves(k: Kernel, was: Inputs, before: Request, slot: nat, request: Request, inputs: Inputs, lost: nat)
    requires Replayed(k, slot, before, was).Some? && lost <= |Replayed(k, slot, before, was).value.kernel.plots|
    requires KeyOf(slot, before, was) == KeyOf(slot, request, inputs) && slot < Slots(inputs) && Steady(was, inputs)
    ensures Replayed(k, slot, request, inputs).Some?
    ensures var (avg, now) := (Replayed(k, slot, before, was).value, Replayed(k, slot, request, inputs).value);
      var left := if SigOf(was.partial) == SigOf(inputs.partial) then lost else LostMore(k, avg, was.partial, lost);
      && left <= |now.kernel.plots|
      && PartialRefreshed(k, Short(k, avg, was.partial, lost), inputs) == Short(k, now, inputs.partial, left)
  {
    var avg := Replayed(k, slot, before, was).value;
    SameStart(was, inputs, slot);
    hide CloseRows, LiveRows, Popped, Previews, BarAt;
    LiveRowComesOff(k, avg, was.partial, lost);
    var start := Retained(k.start(BarAt(inputs, slot).value.openTime, request.config), []);
    SameBarsSameRows(k, was, inputs, start, [], slot, ClosedTotal(inputs));
  }

  /** A refresh over more closed bars, likewise. */
  lemma AppendLeaves(k: Kernel, was: Inputs, before: Request, slot: nat, request: Request, inputs: Inputs, lost: nat)
    requires Replayed(k, slot, before, was).Some? && lost <= |Replayed(k, slot, before, was).value.kernel.plots|
    requires Extends(KeyOf(slot, before, was), KeyOf(slot, request, inputs)) && slot < Slots(inputs) && Steady(was, inputs)
    ensures Replayed(k, slot, request, inputs).Some?
    ensures var (avg, now) := (Replayed(k, slot, before, was).value, Replayed(k, slot, request, inputs).value);
      var left := LostMore(k, avg, was.partial, lost);
      && left <= |now.kernel.plots|
      && Appended(k, Short(k, avg, was.partial, lost), KeyOf(slot, request, inputs), inputs) == Short(k, now, inputs.partial, left)
  {
    hide CloseRows, LiveRows, Steady, Popped, Slots;
    var avg := Replayed(k, slot, before, was).value;
    var left := LostMore(k, avg, was.partial, lost);
    LiveRowComesOff(k, avg, was.partial, lost);
    ClosesShort(k, was, before, slot, request, inputs, left);
    ReplayedKernel(k, slot, before, was);
    ReplayedKernel(k, slot, request, inputs);
    var now := Replayed(k, slot, request, inputs).value;
    ShortIs(k, avg, was.partial, lost);
    ShortIs(k, now, inputs.partial, left);
    var key := KeyOf(slot, request, inputs);
    assert key.anchorSlot == slot;
    hide *;
    AppendedIs(k, Short(k, avg, was.partial, lost), key, inputs, avg.kernel.plots[..|avg.kernel.plots| - left],
               now.kernel, now.kernel.plots[..|now.kernel.plots| - left]);
  }

  lemma ShortIs(k: Kernel, avg: Average, partial: Option<Bar>, lost: nat)
    requires lost <= |avg.kernel.plots|
    ensures Short(k, avg, partial, lost)
         == Average(avg.key, avg.partial, avg.firstSlot,
                    avg.kernel.plots[..|avg.kernel.plots| - lost] + LiveRows(k, avg.kernel, partial), avg.kernel)
  {
  }

  lemma AppendedIs(k: Kernel, avg: Average, key: Key, inputs: Inputs, rows: seq<Row>, kernel: Retained, closed: seq<Row>)
    requires (if avg.partial.Some? then Popped(avg.rows) else avg.rows) == rows
    requires CloseRows(k, inputs, avg.kernel, rows, key.anchorSlot + |avg.kernel.plots|, ClosedTotal(inputs)) == (kernel, closed)
    ensures Appended(k, avg, key, inputs)
         == Average(key, SigOf(inputs.partial), avg.firstSlot, closed + LiveRows(k, kernel, inputs.partial), kernel)
  {
    hide CloseRows, LiveRows, Popped;
  }

  /** Closing the new bars on rows that are short leaves them short by as many. */
  lemma {:induction false} ClosesShort(k: Kernel, was: Inputs, before: Request, slot: nat, request: Request, inputs: Inputs, lost: nat)
    requires Replayed(k, slot, before, was).Some? && lost <= |Replayed(k, slot, before, was).value.kernel.plots|
    requires Extends(KeyOf(slot, before, was), KeyOf(slot, request, inputs)) && slot < Slots(inputs) && Steady(was, inputs)
    ensures Replayed(k, slot, request, inputs).Some?
    ensures var (kernel, now) := (Replayed(k, slot, before, was).value.kernel, Replayed(k, slot, request, inputs).value.kernel);
      && lost <= |now.plots|
      && CloseRows(k, inputs, kernel, kernel.plots[..|kernel.plots| - lost], slot + |kernel.plots|, ClosedTotal(inputs))
           == (now, now.plots[..|now.plots| - lost])
  {
    var kernel := Replayed(k, slot, before, was).value.kernel;
    SameStart(was, inputs, slot);
    ReplayedKernel(k, slot, before, was);
    ReplayedKernel(k, slot, request, inputs);
    hide CloseRows, LiveRows, BarAt, Steady, Replayed;
    var start := Retained(k.start(BarAt(inputs, slot).value.openTime, request.config), []);
    SameBarsSameRows(k, was, inputs, start, [], slot, ClosedTotal(was));
    ClosingCarriesOn(k, inputs, start, slot, ClosedTotal(was), ClosedTotal(inputs));
    RowsFollowTheKernel(k, inputs, kernel, slot + |kernel.plots|, ClosedTotal(inputs), lost);
    KernelAlone(k, inputs, kernel, kernel.plots, kernel.plots[..|kernel.plots| - lost], slot + |kernel.plots|, ClosedTotal(inputs));
  }

  lemma {:induction false} ReplayedKernel(k: Kernel, slot: nat, request: Request, inputs: Inputs)
    requires Replayed(k, slot, request, inputs).Some?
    ensures var start := Retained(k.start(BarAt(inputs, slot).value.openTime, request.config), []);
      CloseRows(k, inputs, start, [], slot, ClosedTotal(inputs)).0 == Replayed(k, slot, request, inputs).value.kernel
    ensures var avg := Replayed(k, slot, request, inputs).value;
      avg.key == KeyOf(slot, request, inputs) && avg.firstSlot == slot && avg.partial == SigOf(inputs.partial)
  {
  }

  /** The slots a tape had read the same, and the anchor's bar opens when it did. */
  lemma SameStart(was: Inputs, inputs: Inputs, slot: nat)
    requires Steady(was, inputs) && was.timelineRevision == inputs.timelineRevision && |was.prefix| == |inputs.prefix|
    requires slot < Slots(inputs) && BarAt(was, slot).Some?
    ensures |was.closed| <= |inputs.closed|
    ensures forall s: nat :: s < ClosedTotal(was) ==> BarAt(was, s) == BarAt(inputs, s)
    ensures BarAt(inputs, slot).Some? && BarAt(was, slot).value.openTime == BarAt(inputs, slot).value.openTime
  {
  }

  // -------------------------------------------------------------------- whole runs

  datatype Call = Call(request: Request, inputs: Inputs)

  function Run(k: Kernel, calls: seq<Call>): Option<Average> {
    if calls == [] then None
    else
      var last := calls[|calls| - 1];
      Refreshed(k, Run(k, calls[..|calls| - 1]), last.request, last.inputs)
  }

  /** Each tape follows from the last. */
  ghost predicate SteadyRun(calls: seq<Call>) {
    forall i: nat :: i + 1 < |calls| ==> SteadyAt(calls, i)
  }

  ghost predicate SteadyAt(calls: seq<Call>, i: nat)
    requires i + 1 < |calls|
  {
    Steady(calls[i].inputs, calls[i + 1].inputs)
  }

  lemma SteadyBefore(calls: seq<Call>)
    requires SteadyRun(calls) && |calls| > 1
    ensures SteadyRun(calls[..|calls| - 1]) && Steady(calls[|calls| - 2].inputs, calls[|calls| - 1].inputs)
  {
    var before := calls[..|calls| - 1];
    forall i: nat | i + 1 < |before|
      ensures SteadyAt(before, i)
    {
      assert SteadyAt(calls, i);
    }
    assert SteadyAt(calls, |calls| - 2);
  }

  /** The rows lost from one refresh to the next: none after a replay; one more when
      the average was kept in place, its forming bar moved or closed, and the preview
      before had failed with a row left to take. */
  function LostBy(k: Kernel, was: Call, now: Call, lost: nat): nat {
    var (current, slot) := (FromScratch(k, was.request, was.inputs), AnchorSlot(now.request, now.inputs));
    if slot.None? || current.None? then 0
    else
      var key := KeyOf(slot.value, now.request, now.inputs);
      if current.value.key == key then
        if SigOf(was.inputs.partial) == SigOf(now.inputs.partial) then lost
        else LostMore(k, current.value, was.inputs.partial, lost)
      else if Extends(current.value.key, key) then LostMore(k, current.value, was.inputs.partial, lost)
      else 0
  }

  function Lost(k: Kernel, calls: seq<Call>): nat {
    if |calls| <= 1 then 0
    else LostBy(k, calls[|calls| - 2], calls[|calls| - 1], Lost(k, calls[..|calls| - 1]))
  }

  /** What a refresh holds: the replay, short by so many rows. */
  ghost predicate IsShortBy(k: Kernel, current: Option<Average>, call: Call, lost: nat) {
    var replay := FromScratch(k, call.request, call.inputs);
    && (current.Some? <==> replay.Some?)
    && (replay.None? ==> lost == 0)
    && (replay.Some? ==>
        && lost <= |replay.value.kernel.plots|
        && current.value == Short(k, replay.value, call.inputs.partial, lost))
  }

  /** However the average was previewed, appended and replayed on the way, a refresh
      leaves what a replay from the anchor over today's bars would, short by exactly
      the committed rows that failed previews cost since the last replay. */
  lemma {:induction false} EveryRunIsShortBy(k: Kernel, calls: seq<Call>)
    requires SteadyRun(calls) && calls != []
    ensures IsShortBy(k, Run(k, calls), calls[|calls| - 1], Lost(k, calls))
  {
    hide Refreshed, IsShortBy, Steady, LostBy, FromScratch;
    var (before, last) := (calls[..|calls| - 1], calls[|calls| - 1]);
    if |calls| > 1 {
      SteadyBefore(calls);
      EveryRunIsShortBy(k, before);
      OneRefresh(k, Run(k, before), before[|before| - 1], last, Lost(k, before));
    } else {
      FirstRefresh(k, last);
      assert before == [];
    }
  }

  /** So a run ends with a replay exactly when no failed preview cost it a row. */
  lemma {:induction false} EveryRunIsAReplayExactlyWhen(k: Kernel, calls: seq<Call>)
    requires SteadyRun(calls) && calls != []
    ensures Run(k, calls) == FromScratch(k, calls[|calls| - 1].request, calls[|calls| - 1].inputs) <==> Lost(k, calls) == 0
  {
    var last := calls[|calls| - 1];
    EveryRunIsShortBy(k, calls);
    hide Run, Lost, CloseRows, LiveRows, Short, AnchorSlot;
    if FromScratch(k, last.request, last.inputs).Some? {
      NothingShort(k, AnchorSlot(last.request, last.inputs).value, last.request, last.inputs, Lost(k, calls));
    }
  }

  lemma FirstRefresh(k: Kernel, call: Call)
    ensures IsShortBy(k, Refreshed(k, None, call.request, call.inputs), call, 0)
  {
    hide CloseRows, LiveRows, Short, AnchorSlot;
    if FromScratch(k, call.request, call.inputs).Some? {
      NothingShort(k, AnchorSlot(call.request, call.inputs).value, call.request, call.inputs, 0);
    }
  }

  lemma OneRefresh(k: Kernel, current: Option<Average>, was: Call, now: Call, lost: nat)
    requires IsShortBy(k, current, was, lost) && Steady(was.inputs, now.inputs)
    ensures IsShortBy(k, Refreshed(k, current, now.request, now.inputs), now, LostBy(k, was, now, lost))
  {
    hide PartialRefreshed, Appended, Steady, Previews, CloseRows, LiveRows, AnchorSlot, LostMore;
    var slot := AnchorSlot(now.request, now.inputs);
    FirstRefresh(k, now);
    if slot.Some? && current.Some? {
      var key := KeyOf(slot.value, now.request, now.inputs);
      if current.value.key == key {
        PreviewLeaves(k, was.inputs, was.request, slot.value, now.request, now.inputs, lost);
      } else if Extends(current.value.key, key) {
        AppendLeaves(k, was.inputs, was.request, slot.value, now.request, now.inputs, lost);
      }
    }
  }

  // ----------------------------------------------------- one refresh of a replay

  /** A refresh over the same closed bars is a replay exactly when the forming bar is
      the same, or the last preview answered, or no row was committed yet. */
  lemma PreviewIsReplayExactlyWhenAnswered(k: Kernel, was: Inputs, before: Request, slot: nat, request: Request, inputs: Inputs)
    requires Replayed(k, slot, before, was).Some? && slot < Slots(inputs) && Steady(was, inputs)
    requires KeyOf(slot, before, was) == KeyOf(slot, request, inputs)
    ensures var avg := Replayed(k, slot, before, was).value;
      Some(PartialRefreshed(k, avg, inputs)) == Replayed(k, slot, request, inputs) <==>
        SigOf(was.partial) == SigOf(inputs.partial) || Previews(k, avg, was.partial) || avg.kernel.plots == []
  {
    PreviewLeaves(k, was, before, slot, request, inputs, 0);
    var (avg, now) := (Replayed(k, slot, before, was).value, Replayed(k, slot, request, inputs).value);
    var left := if SigOf(was.partial) == SigOf(inputs.partial) then 0 else LostMore(k, avg, was.partial, 0);
    hide Steady, Previews, PartialRefreshed, Short, Replayed, Slots, KeyOf;
    NothingShort(k, slot, before, was, 0);
    NothingShort(k, slot, request, inputs, left);
  }

  /** A refresh over more closed bars is a replay exactly when the last preview
      answered or no row was committed yet: after a failed one the popped row is
      pushed back in place of the next, and the newest closed bar's goes missing. */
  lemma AppendIsReplayExactlyWhenAnswered(k: Kernel, was: Inputs, before: Request, slot: nat, request: Request, inputs: Inputs)
    requires Replayed(k, slot, before, was).Some? && slot < Slots(inputs) && Steady(was, inputs)
    requires Extends(KeyOf(slot, before, was), KeyOf(slot, request, inputs))
    ensures var avg := Replayed(k, slot, before, was).value;
      Some(Appended(k, avg, KeyOf(slot, request, inputs), inputs)) == Replayed(k, slot, request, inputs) <==>
        Previews(k, avg, was.partial) || avg.kernel.plots == []
  {
    AppendLeaves(k, was, before, slot, request, inputs, 0);
    var (avg, now) := (Replayed(k, slot, before, was).value, Replayed(k, slot, request, inputs).value);
    var left := LostMore(k, avg, was.partial, 0);
    hide Steady, Previews, Appended, Short, Replayed, Slots, KeyOf;
    NothingShort(k, slot, before, was, 0);
    NothingShort(k, slot, request, inputs, left);
  }

  // ------------------------------------------------------------------- the object

  class AnchoredAverage {
    var key: Key
    var partial: Option<Sig>
    var firstSlot: nat
    var rows: seq<Row>
    var kernel: Retained

    function Value(): Average
      reads this
    {
      Average(key, partial, firstSlot, rows, kernel)
    }

    constructor (value: Average)
      ensures Value() == value
    {
      key, partial, firstSlot, rows, kernel := value.key, value.partial, value.firstSlot, value.rows, value.kernel;
    }

    method RefreshPartial(k: Kernel, inputs: Inputs)
      modifies this
      ensures Value() == PartialRefreshed(k, old(Value()), inputs)
    {
      var sig := SigOf(inputs.partial);
      if partial != sig {
        if partial.Some? {
          rows := Popped(rows);
        }
        PushLive(k, inputs.partial);
        partial := sig;
      }
    }

    method PushLive(k: Kernel, forming: Option<Bar>)
      modifies `rows
      ensures rows == old(rows) + LiveRows(k, kernel, forming)
    {
      if forming.Some? {
        var row := k.preview(kernel.state, forming.value, |kernel.plots|);
        if row.Some? {
          rows := rows + [row.value];
        }
      }
    }

    /** The loop of a replay and of an append: close bars until one is missing or refused. */
    method CloseBars(k: Kernel, inputs: Inputs, from: nat, upTo: nat)
      modifies `rows, `kernel
      ensures (kernel, rows) == CloseRows(k, inputs, old(kernel), old(rows), from, upTo)
    {
      var slot := from;
      while slot < upTo
        invariant CloseRows(k, inputs, old(kernel), old(rows), from, upTo) == CloseRows(k, inputs, kernel, rows, slot, upTo)
      {
        var bar := BarAt(inputs, slot);
        if bar.None? {
          return;
        }
        var closed := k.close(kernel.state, bar.value, |kernel.plots|);
        if closed.None? {
          return;
        }
        kernel := Retained(closed.value.0, kernel.plots + [closed.value.1]);
        rows := rows + [PlotRow(k, kernel, |rows|)];
        slot := slot + 1;
      }
    }

    method AppendClosed(k: Kernel, newKey: Key, inputs: Inputs)
      modifies this
      ensures Value() == Appended(k, old(Value()), newKey, inputs)
    {
      hide CloseRows, LiveRows;
      if partial.Some? {
        rows := Popped(rows);
      }
      CloseBars(k, inputs, newKey.anchorSlot + |kernel.plots|, ClosedTotal(inputs));
      PushLive(k, inputs.partial);
      partial, key := SigOf(inputs.partial), newKey;
    }

    /** `refresh`: reuse in place where a key allows it, or a new average, or none. */
    static method Refresh(k: Kernel, current: AnchoredAverage?, request: Request, inputs: Inputs)
      returns (next: AnchoredAverage?)
      modifies if current == null then {} else {current}
      ensures next == null || next == current || fresh(next)
      ensures (if next == null then None else Some(next.Value()))
           == Refreshed(k, if current == null then None else Some(old(current.Value())), request, inputs)
    {
      hide CloseRows, LiveRows, Popped;
      var anchor := AnchorSlot(request, inputs);
      if anchor.None? {
        return null;
      }
      var slot := anchor.value;
      var newKey := KeyOf(slot, request, inputs);
      if current != null && current.key == newKey {
        current.RefreshPartial(k, inputs);
        return current;
      }
      if current != null && Extends(current.key, newKey) {
        current.AppendClosed(k, newKey, inputs);
        return current;
      }
      var bar := BarAt(inputs, slot);
      if bar.None? {
        return null;
      }
      var start := Retained(k.start(bar.value.openTime, request.config), []);
      next := new AnchoredAverage(Average(newKey, SigOf(inputs.partial), slot, [], start));
      next.CloseBars(k, inputs, slot, ClosedTotal(inputs));
      next.PushLive(k, inputs.partial);
    }
  }
}
