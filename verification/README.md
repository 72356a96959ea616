# quantick, modelled

A model of five parts of quantick, with proofs in Dafny 4.11. Every module sits
beside the part of the program it follows, and code that changes state in place
is modelled in place, against functions whose properties are then proved.

| part | modules |
|---|---|
| Campaign journal and checkpoints | `Json`, `Counters`, `Publication`, `PartedPublication`, `Resumption`, `Snapshot`, `LawfulCodec`, `OperationJournal` |
| MetaTrader bridge session | `Terminal`, `Paging`, `LoadOlder`, `Opening`, `Slices`, `Pump`, `PumpLoop`, `SessionLoop`, `Rates`, `Commands` |
| Anchored studies | `RangeFold`, `ProfileCache`, `AverageCache` |
| PNG decoder, use-tree expander, binary scan | `PngFilters`, `Png`, `UseTree`, `BoundaryNames` |
| Canvas split | `Canvas` |

`Wrappers` holds `Option` and `Result`, `Numbers` shared arithmetic. `dafny verify
dfyconfig.toml` checks the whole project.

## How the parts are modelled

**Campaign.** The comment log is a sequence of texts that only grows; a comment's
URL is its place in it. `Publication.Event` is one small step: a look, an append
that is answered, lands without an answer or vanishes, or a row of anyone else.
`Publication.Tried` is one whole `append_once` under one world of such
interference, and `CommentLog.AppendOnce` is the code against it. Ownership, lease,
the clock and the sibling check enter a look as one arbitrary answer, so every
theorem holds whatever they say. Canonical JSON, digests and base64 are parameters:
all that is assumed is that records, values and bytes read back, and
`LawfulCodec.LawfulCodecExists` gives a codec that meets it. A float is a finite
64-bit pattern, a byte a number below 256.

**Bridge.** The terminal is a record of prints ordered by millisecond, answered by
whole-second ranges and by counts from a second. `Terminal.Prints(record, lo, hi)`
is the one notion every walk, slice and page is stated in: the prints stamped in
`[lo, hi)`. Refused calls are given by their number. `SessionLoop.Read` is the
reader at the other end of the wire: it accepts exactly the well-bracketed traces
and collects what arrived as slices, as pages and live. The session holds the search
itself and runs one terminal call of it a pass, over the record as it then stands.

**Studies.** `ProfileFold` and `AnchoredVwap` are parameters under the contracts
their callers state: sealing early or late reaches the same rows, a preview changes
nothing. A cache is compared with the computation from nothing, after any run.

**PNG.** Checksum and inflate are parameters. The round trip asks only that the
concatenated data chunks inflate to the filtered scan lines.

**Canvas.** Lengths are reals, the code's epsilon and pixel sizes are constants.

Automatic induction is off in every lemma it would apply to: each inductive step is
written out.

## Where the code does not do what it says

Each is kept as the code has it, shown by an example or by what exactly it leaves,
and bounded by the exact condition under which the code does what it says.

- `pump_ticks` restarts its count at 0 after the first print of a new millisecond
  (line 215), so a second print of it in the same batch is skipped
  (`Pump.SecondPrintIsSkipped`). It forwards exactly the prints after the cursor if
  and only if no later millisecond of the batch repeats (`Pump.RoundIsExactIff`).
  What it forwards is never older than its cursor (`Pump.RoundNeverGoesBack`).
- The look below the terminal's claimed first tick ends at the claim's whole second,
  so an older print in that second is missed (`LoadOlder.SameSecondEscapesTheLook`),
  and a look the terminal refuses counts as one that saw nothing
  (`LoadOlder.RefusedLookIsBelieved`). When a believed claim is clear below is
  `LoadOlder.BelievedIsClearExactlyWhen`.
- A range over no slot is keyed `(0, 0)` like the range of slot 0 alone, and has no
  job: each is taken for the other (`ProfileCache.EmptySpanIsTakenForSlotZero`). A
  range asked for while slot 0 alone is forming steps past it
  (`ProfileCache.FormingSlotZeroIsLost`). Nothing else that is folded goes wrong: over whole runs
  the exact conditions are `ProfileCache.EveryRunIsSoundExactlyWhen` and
  `ProfileCache.EmptyRangeShowsNothingExactlyWhen`.
- A grown range that had been called empty is still called so while it folds, whatever
  it shows by then; exactly then (`ProfileCache.WhatFoldingShows`).
- `AnchoredAverage` records the forming bar's signature even when its preview fails;
  the next refresh in place then pops a committed row, and appending leaves the rows
  short from there on (`AverageCache.AppendLeaves`). Each way of refreshing has its
  exact condition (`AverageCache.PreviewIsReplayExactlyWhenAnswered`,
  `AverageCache.AppendIsReplayExactlyWhenAnswered`), and a run is short by exactly
  the rows counted (`AverageCache.EveryRunIsShortBy`); the shipped kernel's preview
  always answers (crates/indicators/src/native/avwap.rs:214-221).
- An interrupt says goodbye wherever it lands, inside a history block too
  (`SessionLoop.GoodbyeAnywhere`).
- A complete checkpoint whose own `kind` is the manifest's cannot be read back as
  itself (`Snapshot.AManifestByNameIsRefused`, `Snapshot.CompleteReadsBack`).

## Model

| member | source | states |
|---|---|---|
| Publication.NoFork | tools/campaign/architecture-a-coordinator-v2.py:313-378 | In every interleaving of any number of publishers' look, append and look-again steps, with rows of others anywhere, appends that vanish and replies that are lost, two publications of one boundary that both return successfully have the same bytes. |
| Publication.EveryReachableStateIsTruthful | tools/campaign/architecture-a-coordinator-v2.py:350-378 | In every reachable state, whoever has returned successfully published exactly the bytes of the first checkpoint after its boundary. |
| Publication.LogOnlyGrows | tools/campaign/architecture-a-coordinator-v2.py:350-378 | No step of any publisher removes or rewrites a row. |
| Publication.StepsAreAppendOnce | tools/campaign/architecture-a-coordinator-v2.py:350-378 | A publisher stepped through one world among any others ends exactly as one whole `append_once` under that world: done at its URL, or failed, with the same log once it got to send. |
| Publication.LookCommits | tools/campaign/architecture-a-coordinator-v2.py:313-363 | A look that admits the boundary and finds the publication finds it at the first checkpoint: anything before it carries the same key, hence the same bytes. |
| Publication.LookAnswersExactly | tools/campaign/architecture-a-coordinator-v2.py:313-363 | A look is refused exactly when the other checks refuse, the boundary is not on the log, or after it stands another key's checkpoint, another writer's or key's part or an unreadable row; refused as different bytes exactly when a row of this identity has other bytes; else it answers with every row of this identity, oldest first. |
| Publication.OneChild | tools/campaign/architecture-a-coordinator-v2.py:326-334 | A boundary has at most one first child, so two commitments to it are equal. |
| Publication.CommitmentsLast | tools/campaign/architecture-a-coordinator-v2.py:350-378 | What was committed stays committed whatever is appended later. |
| Publication.TriedCommits | tools/campaign/architecture-a-coordinator-v2.py:350-378 | A whole `append_once` of a checkpoint that succeeds, under any interference and any fate of the append, has committed its own bytes. |
| Publication.TriedOnce | tools/campaign/architecture-a-coordinator-v2.py:350-378 | Looking before appending never doubles a record, never moves one that is there, and succeeds only with exactly one, at the URL returned, with the text asked for. |
| Publication.TriedLeavesOthers | tools/campaign/architecture-a-coordinator-v2.py:350-378 | Appending one record leaves the rows of every other identity as they were. |
| Publication.CommentLog.Observed | tools/campaign/architecture-a-coordinator-v2.py:352-363 | The look in place, row by row, is the look whose answers are characterised above: the boundary checks first, then every record of this identity, the first with other bytes ending it. |
| Publication.CommentLog.AppendOnce | tools/campaign/architecture-a-coordinator-v2.py:350-378 | The append in place on the log does what the step function proved above says, in every world. |
| PartedPublication.OnePart | tools/campaign/architecture-a-coordinator-v2.py:435-446 | One part appended: the others stay exactly where they are, and success puts this one in the log once, with its own bytes. |
| PartedPublication.AttemptKeeps | tools/campaign/architecture-a-coordinator-v2.py:435-452 | One attempt at a checkpoint, finished or interrupted at any append, doubles no part, moves none, and when it finishes leaves every part once and its record the first child of the boundary. |
| PartedPublication.ResumingNeverDoubles | tools/campaign/architecture-a-coordinator-v2.py:435-452 | Any number of interrupted and resumed attempts from one frozen file: no part is ever in the log twice, and the attempt that finishes leaves each exactly once. |
| PartedPublication.OneFinalRecord | tools/campaign/architecture-a-coordinator-v2.py:435-450 | The parts never move, so every attempt that finishes publishes the same manifest. |
| Resumption.AttemptFinishes | tools/campaign/architecture-a-coordinator-v2.py:435-452 | From a log whose rows after the boundary are operations, other rows and the publication's own frozen bodies, an attempt nobody else disturbs leaves such a log again, and when every look is admitted and no append vanishes, answered or not, it finishes. |
| Resumption.InterruptedPublicationFinishes | tools/campaign/architecture-a-coordinator-v2.py:435-452 | So a publication that was refused, cut off or left without a reply any number of times finishes on its first smooth attempt. |
| Resumption.StrangersRefuse | tools/campaign/architecture-a-coordinator-v2.py:326-340 | With another writer's part, another key's part or checkpoint, or an unreadable row after the boundary, an attempt appends nothing of its own and is refused. |
| PartedPublication.Publish | tools/campaign/architecture-a-coordinator-v2.py:435-452 | The publishing loop in place, part after part and then the record, is the attempt those lemmas and the ones on finishing are about. |
| PartedPublication.Coordinator.Checkpoint | tools/campaign/architecture-a-coordinator-v2.py:561-597 | Nothing is appended before the request is frozen; while it is unresolved any other request is refused without touching the log; the same request resumes the frozen bytes; success clears it. |
| Snapshot.ChunksJoin | tools/campaign/architecture-a-coordinator-v2.py:118 | Cutting canonical bytes into chunks of 12 KiB and joining them gives the bytes back. |
| Snapshot.ValidateState | tools/campaign/architecture-a-coordinator-v2.py:92-106 | The checks of a state in the code's own order, its task keys listed and counted against their set, pass exactly the states with every required field, schema 1, a sequence from 1 on, and tasks that are objects under keys that are there and differ. |
| Snapshot.PartitionedExactlyWhen | tools/campaign/architecture-a-coordinator-v2.py:109-118 | A snapshot stays one record exactly when its canonical bytes and its body fit in 24 KiB and fewer than fifty of its tasks are not done, counted by their places; else the chunks of 12 KiB are as many as its bytes need. |
| Snapshot.CompleteReadsBack | tools/campaign/architecture-a-coordinator-v2.py:137-142 | A complete record reads back as its state; without the partition format among its own fields, exactly when its kind is not the manifest's. |
| Snapshot.AManifestByNameIsRefused | tools/campaign/architecture-a-coordinator-v2.py:137-148 | A valid state whose own kind is the manifest's: its complete record is refused. |
| Snapshot.PartsReadBack | tools/campaign/architecture-a-coordinator-v2.py:149-177 | Every part named by a manifest passes all the reader's identity, order, digest and length checks and yields its chunk. |
| Snapshot.ManifestReadsBack | tools/campaign/architecture-a-coordinator-v2.py:109-185 | A snapshot cut into parts and published with its manifest reads back as the state it was cut from, with no condition on its kind. |
| Snapshot.ReadsExactlyWhatStands | tools/campaign/architecture-a-coordinator-v2.py:137-185 | The reader answers with a state exactly when the row is a valid record of a kind of its own, or a manifest whose rows are its parts, each of this manifest, place, digest and length, whose chunks join to the canonical bytes, digest and length of that state. |
| Snapshot.OnlyTheStateItWasMadeFor | tools/campaign/architecture-a-coordinator-v2.py:143-185 | As long as digests do not collide, a manifest made for one state never reads as another, whatever stands at the rows it names. |
| Snapshot.ReadingIsStable | tools/campaign/architecture-a-coordinator-v2.py:137-185 | What reads at all reads the same however the log grows. |
| Snapshot.FrozenIsWellKept | tools/campaign/architecture-a-coordinator-v2.py:59-60 | The bodies the encoder writes are recognised by the protocol as the parts and the checkpoint they are. |
| Snapshot.StandsBesideExactlyWhen | tools/campaign/architecture-a-coordinator-v2.py:326-340 | A publication may stand beside a comment exactly when that is no record, or a readable one that is no checkpoint but its own key's and no part but its own writer's and key's; the plain ones are those that are neither. |
| Snapshot.FinishedReadsBack | tools/campaign/architecture-a-coordinator-v2.py:435-452 | A finished publication reads back as the frozen state, so the final readback comparison never fails. |
| Snapshot.InterruptedPublicationReadsBack | tools/campaign/architecture-a-coordinator-v2.py:435-452 | Interrupted at any append and resumed as often as it takes, each part is in the log at most once and the attempt that finishes reads back as the state. |
| Snapshot.PublicationGetsDone | tools/campaign/architecture-a-coordinator-v2.py:435-452 | Undisturbed by other publishers, a state of any size, cut off and resumed any number of times, is published by its first smooth attempt and then reads back. |
| Snapshot.OldBoundaryStillReads | tools/campaign/architecture-a-coordinator-v2.py:313-315 | Through any number of attempts, whoever else publishes meanwhile, the earlier boundary reads exactly as before. |
| OperationJournal.FoldOperations | tools/campaign/architecture-a-coordinator-v2.py:272-305 | The loop folds the rows after a boundary in order and refuses exactly when one of them contradicts the ones before it: a result without its intent, another payload or other bytes for the same attempt, a second outcome. |
| OperationJournal.JournalKeepsOrder | tools/campaign/architecture-a-coordinator-v2.py:380-412 | Whatever one call of `journal` does to the log, and whatever the fate of its append, attempts still run on from history one by one within the limit, all but a key's last have failed, nothing follows a success, and at most one operation is unresolved. |
| OperationJournal.EveryRunIsOrderly | tools/campaign/architecture-a-coordinator-v2.py:531-597 | That order holds in every run of intents, results and checkpoints from any boundary, and history only ever grows along it. |
| OperationJournal.EveryOrderlyLogProjects | tools/campaign/architecture-a-coordinator-v2.py:239-260 | `_project_history` accepts every log `journal` can build; each touched row then tells of its key's last attempt, every other row is unchanged. |
| OperationJournal.ResolvedLogsCommit | tools/campaign/architecture-a-coordinator-v2.py:414-433 | In every run a checkpoint commits exactly when nothing is unresolved and its state's consumed list covers every journal row since the boundary; projection never refuses. A key's provenance is then what it was and exactly that key's rows since, none of which was there before. |
| OperationJournal.SortingArranges | tools/campaign/architecture-a-coordinator-v2.py:242 | Sorting by attempt keeps exactly the folded entries, in rising attempts. |
| OperationJournal.ProjectHistory | tools/campaign/architecture-a-coordinator-v2.py:239-260 | The loop over the sorted attempts refuses exactly when one of them does not continue the count and the failed outcome its key had. |
| OperationJournal.ProjectionOnlyGrows | tools/campaign/architecture-a-coordinator-v2.py:239-260 | Projection never drops a row, lowers a count, loses provenance, or rewrites a row whose last attempt did not fail. |
| OperationJournal.ProjectionConsumes | tools/campaign/architecture-a-coordinator-v2.py:252-259 | A key's provenance after projection is exactly what it was and every row that spoke of one of its attempts. |
| OperationJournal.EveryRowIsFiled | tools/campaign/architecture-a-coordinator-v2.py:272-305 | Each row after the boundary is in the one entry of its own attempt, which holds that row or the result it came to; an entry names no other row. |
| OperationJournal.EveryRunKnowsThePast | tools/campaign/architecture-a-coordinator-v2.py:414-433 | Along every run the history names only rows before the boundary, so a row is consumed once. |
| OperationJournal.DrawnUpOmitsNone | tools/campaign/architecture-a-coordinator-v2.py:581 | The consumed list that `checkpoint` draws up leaves no journal row out. |
| OperationJournal.IntentFindsItself | tools/campaign/architecture-a-coordinator-v2.py:531-550 | Asked again after its reply was lost, an intent computes the pending attempt's number and appends nothing. |
| OperationJournal.IntentIsAdmittedExactlyWhen | tools/campaign/architecture-a-coordinator-v2.py:380-412 | A new attempt is admitted exactly when its key's count is known, nothing is in flight or unresolved, the key has not succeeded, and the attempt is the next one and at most the limit, the last one allowed included. |
| OperationJournal.ResultIsAdmittedExactlyWhen | tools/campaign/architecture-a-coordinator-v2.py:380-412 | A result is admitted exactly when its evidence is there, its attempt is on the log under the same payload, and no other outcome of it is. |
| OperationJournal.IntentAsksFor | tools/campaign/architecture-a-coordinator-v2.py:531-550 | `intent` asks for the attempt its key has unresolved, or else for the one after its last. |
| OperationJournal.FreshIntentGoesThrough | tools/campaign/architecture-a-coordinator-v2.py:531-550 | With nothing else open, an intent within the limit is on the log after one answered call. |
| OperationJournal.JournaledIsAppendedOnce | tools/campaign/architecture-a-coordinator-v2.py:350-412 | A journal call is an `append_once` of the record's own identity: the log it leaves and its success are those of look, append and look again on the comment log, whatever becomes of the append. |
| OperationJournal.Journal.Write | tools/campaign/architecture-a-coordinator-v2.py:380-412 | The journal call in place: the log it leaves, and whether the record is known to be on it. |
| OperationJournal.Journal.Intent | tools/campaign/architecture-a-coordinator-v2.py:531-550 | `intent` asks for the attempt still pending or the next one, and never for another. |
| OperationJournal.Journal.Result | tools/campaign/architecture-a-coordinator-v2.py:553-558 | `result` refuses an unobserved outcome and otherwise journals the same identity with what was observed. |
| Counters.CounterMap | tools/campaign/architecture-a-coordinator-v2.py:188-203 | The map built by the recursive walk holds exactly the counts an independent path lookup finds: tracked fields and everything under them, list items by key, signature, id or place, the last of equal identities winning, an unknown repair count kept as unknown. |
| Counters.GoesByTheFirst | tools/campaign/architecture-a-coordinator-v2.py:198-201 | A list item goes by the first of its key, signature and id that it has, and by its place when it has none. |
| Counters.PreserveCounters | tools/campaign/architecture-a-coordinator-v2.py:206-214 | Refuses exactly the successors that drop a count, lower one, or turn an unknown one known. |
| Counters.CountersOnlyGrow | tools/campaign/architecture-a-coordinator-v2.py:206-214 | Along any committed lineage, however long, no tracked count disappears or falls and none unknown becomes known. |
| Terminal.PrintsJoin | bridge/mt5/quantick_bridge_history.py:277-295 | Two adjoining stretches of the record are one stretch: nothing lost or repeated at a seam. |
| Terminal.OlderThanRange | bridge/mt5/quantick_bridge_history.py:211-231 | Filtering a whole-second range by the cursor leaves exactly the prints before the cursor. |
| Terminal.AskWindow | bridge/mt5/quantick_bridge_history.py:211-231 | One window asked in whole seconds, rounded outward and filtered, is exactly the prints from its start to the cursor. |
| Paging.PageStart | bridge/mt5/quantick_bridge_history.py:628-652 | Where a page begins: everything when it fits, else the first millisecond edge within the page, else the one edge of the group that fills it; refused exactly when that group is larger than the feed takes. |
| Paging.CutsUnique | bridge/mt5/quantick_bridge_history.py:628-652 | No other start meets that description. |
| Paging.CutsBound | bridge/mt5/quantick_bridge_history.py:628-652 | A page is never larger than asked or than the feed's cap, whichever is more, and never empty when there is something to send. |
| LoadOlder.BackWalk.Turn | bridge/mt5/quantick_bridge_history.py:560-601 | One window of the search: an answered call strictly moves the cursor back and widens only over dead time, a refused one changes nothing and ends the search; prints stay in order below the request whatever the terminal gains, and every print in between is kept while the terminal gains none there. |
| LoadOlder.BackWalk.Finish | bridge/mt5/quantick_bridge_history.py:603-626 | The reply is exactly the prints from where it says it reached to the request, cut at a millisecond edge, and claims the end of the tape exactly when the floor was reached and nothing was trimmed. |
| LoadOlder.WalkBack | bridge/mt5/quantick_bridge_history.py:523-626 | The whole search: at most 24 calls, stopping only on enough prints, the budget, a refusal, the epoch or the floor, and asking no window past any of them; always moving when its first call is answered. |
| LoadOlder.PagingDeliversExactlyOnce | bridge/mt5/quantick_bridge_history.py:533-626 | Paging on from each reply's reach delivers every print of the whole span exactly once, in order, across trims, growth, budgets and failures. |
| LoadOlder.ExhaustedMeansEverything | bridge/mt5/quantick_bridge_history.py:611-618 | Under a true floor, a claim that nothing older exists means the pages are the whole record before the first request. |
| LoadOlder.PrintsStable | bridge/mt5/quantick_bridge_history.py:533-626 | Pages already delivered stay right while the terminal appends newer prints. |
| LoadOlder.FloorProbe.EarliestTick | bridge/mt5/quantick_bridge_history.py:663-745 | The floor is the terminal's own claim when the look below it saw nothing, was refused or was not needed, and the answer, once known, is kept; each of the two calls is a turn of its own. |
| LoadOlder.ClearBelowTheClaim | bridge/mt5/quantick_bridge_history.py:716-728 | The look below a claim is clear of older prints exactly when it saw none and none lies in the claim's own second. |
| LoadOlder.BelievedIsClearExactlyWhen | bridge/mt5/quantick_bridge_history.py:700-745 | Exactly when a believed claim is clear for 48 hours: its own second must be, and, where the look was refused or passed over, all that the look would have seen; it is the oldest print exactly when nothing stands further below either. |
| LoadOlder.RefusedLookIsBelieved | bridge/mt5/quantick_bridge_history.py:241-245 | A refused look is taken for an empty one, and the claim believed with a print underneath. |
| LoadOlder.SameSecondEscapesTheLook | bridge/mt5/quantick_bridge_history.py:716-728 | A claim is believed with an older print in its own second: the look ends at the whole second. |
| Opening.LastPrintBefore | bridge/mt5/quantick_bridge_history.py:392-442 | The search for the last print: what it finds is the newest print before the asked second, and finding nothing with every call answered means the whole reach is empty. |
| Opening.SessionEdgeIn | bridge/mt5/quantick_bridge_history.py:247-275 | The newest break of at least the gap inside a window, or none. |
| Opening.WindowSeconds | bridge/mt5/quantick_bridge_history.py:347-351 | A window of the walk: whole seconds around the cursor, never below the 48-hour span rounded down to a second, and exactly one session gap wide when unclipped. |
| Opening.EmptyWindowIsABreak | bridge/mt5/quantick_bridge_history.py:366-370 | An empty unclipped window proves a full session gap before the oldest print held. |
| Opening.BreakInsideWindow | bridge/mt5/quantick_bridge_history.py:371-377 | Cutting at a break inside a window keeps one contiguous stretch that opens a session. |
| Opening.WalkWindow | bridge/mt5/quantick_bridge_history.py:347-383 | One window of the walk: kept whole, cut at its newest break, or proof that the session began above it; a stop on a window clipped by the span means no print is left within the span. |
| Opening.SessionTicks | bridge/mt5/quantick_bridge_history.py:297-390 | The session is exactly the terminal's prints in one interval ending at the newest print, within the span; a stop on a break or an empty unclipped window means the next older print is a full gap away, and on a clipped one that nothing is left within the span; every other stop says why; no window is asked once the cap, the span, the epoch or the floor is reached, and only the last call can have been refused. |
| Slices.SliceSession | bridge/mt5/quantick_bridge_history.py:125-134 | The opening block and the parked slices, newest first: none empty, none over the cap, no millisecond shared, each beginning where a page of the slice size would. |
| Slices.SlicesAreTheSession | bridge/mt5/quantick_bridge_history.py:125-134 | Read oldest first, the block and its slices are the trimmed session, nothing lost, repeated or split. |
| Slices.TrimSession | bridge/mt5/quantick_bridge_history.py:87-96 | The memory bound keeps the newest prints from a millisecond edge on. |
| Pump.RoundAccounts | bridge/mt5/quantick_bridge_ticks.py:198-216 | After any batch the cursor's count is the lines sent at its millisecond, stamps never decrease, and nothing sent is taken back. |
| Pump.RoundBounded | bridge/mt5/quantick_bridge_ticks.py:198-216 | The count at the cursor never exceeds the prints the terminal holds there. |
| Pump.RestartAtOneIsExact | bridge/mt5/quantick_bridge_ticks.py:198-216 | Restarting the count at one instead of zero would forward exactly the prints after the cursor. |
| Pump.RoundIsExactIff | bridge/mt5/quantick_bridge_ticks.py:198-216 | The code's own restart at zero forwards exactly the prints after the cursor if and only if no later millisecond of the batch repeats. |
| Pump.RoundNeverGoesBack | bridge/mt5/quantick_bridge_ticks.py:198-216 | Whether or not a millisecond repeats, what a round forwards are prints at or past the cursor's index, at ascending places of the record, so none twice. |
| Pump.RoundMovesOn | bridge/mt5/quantick_bridge_ticks.py:198-216 | The cursor's index in the record never falls. |
| Pump.SecondPrintIsSkipped | bridge/mt5/quantick_bridge_ticks.py:215 | Three prints of one new millisecond: the second is never sent and the third is sent twice. |
| PumpLoop.DeepestByTen | bridge/mt5/quantick_bridge_ticks.py:171-197 | Ten doublings reach the deepest request. |
| PumpLoop.ReachingForwards | bridge/mt5/quantick_bridge_ticks.py:171-216 | A batch that reaches the first later print forwards something. |
| PumpLoop.BlockNamesTheEnd | bridge/mt5/quantick_bridge_history.py:191-195 | After a block the cursor stands exactly past its last print and its count is the prints sent there. |
| PumpLoop.LivePump.constructor | bridge/mt5/quantick_bridge_history.py:173-209 | Where a sent block, or an empty one, leaves the live cursor. |
| PumpLoop.LivePump.SendRound | bridge/mt5/quantick_bridge_ticks.py:171-228 | One round over what the terminal holds: cursor accounting kept; every print forwarded at or past the cursor's index and none twice; everything after the cursor while later milliseconds are distinct; progress when the batch reaches. |
| PumpLoop.LivePump.PumpTicks | bridge/mt5/quantick_bridge_ticks.py:147-243 | One pass on a growing terminal: sent stamps never decrease and every print forwarded stands at or past the index the cursor had; with distinct later milliseconds the pass forwards exactly the prints after its cursor, all of them when it drains; and if the first later print is within reach it forwards something within 11 rounds. |
| PumpLoop.LivePump.PumpPasses | bridge/mt5/quantick_bridge_ticks.py:147-243 | Any number of passes: no print before the index the cursor started from is ever sent. |
| PumpLoop.OpenAndPump | bridge/mt5/quantick_bridge_history.py:173-209 | A session opened on a block and pumped through any answers never sends a print of the block again; opened without one, nothing stamped before the opening. |
| SessionLoop.Session.QueueLoadOlder | bridge/mt5/quantick_bridge_history.py:446-460 | One request outstanding; behind parked slices it is lowered to the opening block's own floor. |
| SessionLoop.Session.PumpCommands | bridge/mt5/quantick_bridge_transport.py:81-99 | Of a pass's lines the first page asked for is admitted when none is outstanding, every other changes nothing. |
| SessionLoop.Session.PumpOpening | bridge/mt5/quantick_bridge_history.py:146-171 | One parked slice leaves, newest first, in its own block with the count still to come. |
| SessionLoop.Session.SendPage | bridge/mt5/quantick_bridge_history.py:493-521 | A whole page in its own block, its end-of-tape claim and its reach included, answers the outstanding request and clears it. |
| SessionLoop.Session.PumpHistory | bridge/mt5/quantick_bridge_history.py:462-483 | Idle while slices are parked or nothing is asked; else one call of the floor probe, or one window, which fails exactly when the terminal does not answer, and brings the page a turn nearer; or exactly one page, or the goodbye over a millisecond too dense to send. |
| SessionLoop.Session.Probe | bridge/mt5/quantick_bridge_history.py:700-745 | The floor probe a call at a time: a terminal that names nothing, or whose claim the look contradicts, leaves no floor for the session. |
| SessionLoop.Session.PumpStored | bridge/mt5/quantick_bridge.py:359-365 | A parked slice and then a search turn: a request still outstanding is nearer its page in every pass. |
| SessionLoop.Session.RunPass | bridge/mt5/quantick_bridge.py:347-368 | One pass in the loop's own order keeps the trace well bracketed, its contents accounted for and every request within its turns. |
| SessionLoop.Session.RunSession | bridge/mt5/quantick_bridge.py:336-375 | In every run, on a terminal that grows and may refuse any call, every prefix of the trace is well bracketed; the slices received are the parked ones in order, counted down to zero before any page; the pages are the replies, one for each admitted request in order, each sent within 27 passes of the later of its admission and the last slice; each page is what its search gathered, trimmed to the count asked for, and says how far back it holds everything; each search went on until it had enough, ran out of its 24 windows, was refused one in a pass the terminal did not answer, or reached the epoch or the floor, asked no window past that, and moved if its first window was answered; what it gathered is the record's own whenever the record reached up to the request as it began; a page claims the end of the tape exactly when the floor was reached and nothing trimmed, and is never newer than the opening's floor if admitted behind parked slices; the live prints are exactly those pumped; the session ends only with the terminal or over a millisecond too dense to send. |
| SessionLoop.NeverBadBefore | bridge/mt5/quantick_bridge.py:347-375 | A trace that ends well was well at every point before. |
| SessionLoop.GoodbyeAnywhere | bridge/mt5/quantick_bridge.py:376-387 | An interrupt or a failed write says goodbye at whatever line it lands on: the trace is then well bracketed exactly when no block is open there. |
| SessionLoop.SessionPagesDeliverOnce | bridge/mt5/quantick_bridge_history.py:533-626 | A consumer that pages on from each reply's reach, starting no later than the newest print, receives through one session every print of the span once and in order, though the record grows between passes. |
| SessionLoop.PagesStayBelowTheSession | bridge/mt5/quantick_bridge_history.py:455-458 | A page asked for behind parked slices overlaps no part of the session they were cut from. |
| Rates.AskPage | bridge/mt5/quantick_bridge_rates.py:83-102 | One page, the width halved on exactly the calls that refuse it, whichever they are, and never below the least page. |
| Rates.PagesNarrowMidWalk | bridge/mt5/quantick_bridge_rates.py:83-102 | A terminal that answers the first page whole may refuse the second, which is then asked for at half the width. |
| Rates.MergePage | bridge/mt5/quantick_bridge_rates.py:120-121 | Merging by stamp makes the page and what was held one stretch, whatever overlaps. |
| Rates.SeamLosesNothing | bridge/mt5/quantick_bridge_rates.py:129-131 | Asking on from one step before the oldest candle loses none and repeats none. |
| Rates.FetchRates | bridge/mt5/quantick_bridge_rates.py:44-144 | Whatever width each call is refused at, the walk returns, ascending, every candle from the later of the span's start and the oldest reached up to now; at most 64 pages; a stop on coverage, a short or an empty page means the whole span; every other stop says why and whether something is missing. |
| Commands.FramingCarriesOn | bridge/mt5/quantick_bridge_transport.py:118-120 | Reading on from a leftover is reading the whole stream. |
| Commands.LinesAreTheStream | bridge/mt5/quantick_bridge_transport.py:118-120 | Framing gives the one list of unbroken lines and the one unbroken rest that, each line with its newline, write the stream again. |
| Commands.ChunkingDoesNotMatter | bridge/mt5/quantick_bridge_transport.py:101-148 | However one stream is cut into reads, as long as its lines fit, the same commands come out and the same bytes are left over. |
| Commands.CommandReader.TakeLines | bridge/mt5/quantick_bridge_transport.py:119-139 | Every complete line in the buffer is taken and decoded, the rest stays. |
| Commands.CommandReader.ReadRequests | bridge/mt5/quantick_bridge_transport.py:101-148 | The reading loop: at most 16 reads, an empty one the peer gone, an over-long unfinished line dropped. |
| RangeFold.WalkFolds | crates/anchored-studies/src/profile.rs:456-480 | Folding a few slots at a time reaches what one fold of the same slots holds. |
| RangeFold.FoldIsCandlesThenLadders | crates/anchored-studies/src/profile.rs:456-480 | The fold of the slots of a range is its venue candles, if approximation is on, each once and in order, and then the ladder of every traded bar in it, in order. |
| RangeFold.WalkSpends | crates/anchored-studies/src/profile.rs:456-480 | A pass stops at the end or with its budget spent, and before its last slot it was not spent. |
| RangeFold.SpentIsCandlesAndLevels | crates/anchored-studies/src/profile.rs:456-480 | What a pass spends on a range is one for each of its candles and, for each of its ladders, its levels or one if it has none. |
| RangeFold.ExtendedFold | crates/anchored-studies/src/profile.rs:228-241 | A tape that was only appended to folds to the same sum over the slots it had. |
| RangeFold.CandlesAreSkipped | crates/anchored-studies/src/profile.rs:445-453 | With approximation off the venue candles contribute nothing, so stepping over them at once is sound. |
| RangeFold.WithoutTheFirst | crates/anchored-studies/src/profile.rs:410-434 | Leaving the first slot out of a fold costs one covered bar if its ladder joins and changes nothing if it does not. |
| ProfileCache.CoveredSlots | crates/anchored-studies/src/profile.rs:256-272 | The slots a range covers: exactly those between the two rounded coordinates that exist, none when there are none. |
| Numbers.RoundIsNearest | crates/anchored-studies/src/profile.rs:256-258 | A coordinate rounds to the one nearest whole number, and of two as near to the one further from zero. |
| ProfileCache.EveryRunStandsForTheRequest | crates/anchored-studies/src/profile.rs:292-341 | After every refresh the cache stands for exactly what was asked: a slot is in its range exactly when it exists, closed or forming, and lies between the request's rounded edges, the right one open when extended; its percentage and approximation are the request's, its group, revision, blocking and side the inputs', and the forming bar, and the bar known in part, count exactly when asked for. |
| ProfileCache.EveryRunIsSoundExactlyWhen | crates/anchored-studies/src/profile.rs:292-434 | After any refreshes, whatever their budgets, growth, forming bars, changes of range and empty ranges on the way, one that reaches a slot leaves its whole range folded or being folded, and once done showing the one-shot fold with the accepted forming ladder added, exactly when the call that opened the cache was blocked, or reached a slot and the cache has not stepped past a forming slot 0 whose ladder, closed since, joins. |
| ProfileCache.SoundShowsTheWhole | crates/anchored-studies/src/profile.rs:496-532 | A finished cache in order shows what pushing the whole range from nothing shows: its candles if they may join, its closed ladders, and the forming one last; it counts what joined, and calls the range empty exactly when there is nothing to read. |
| ProfileCache.WhatFoldingShows | crates/anchored-studies/src/profile.rs:436-532 | While a fold runs, a range just opened counts exactly the slots it has passed and is not called empty; one carried on counts on from what it said and is called empty exactly if it was. |
| ProfileCache.EmptyRangeShowsNothingExactlyWhen | crates/anchored-studies/src/profile.rs:312-434 | A range over no slot shows nothing exactly when its cache was opened blocked or over no slot; carried on from a range of slot 0 it goes on showing that slot. |
| ProfileCache.EveryRunLeaves | crates/anchored-studies/src/profile.rs:292-434 | What every run leaves, by the call that opened its cache: blocked, nothing, or the slots of its range, from slot 1 once a forming slot 0 was stepped past. |
| ProfileCache.CarriedIsSound | crates/anchored-studies/src/profile.rs:359-386 | A same or grown range carried on still holds exactly the slots it passed and, once done, shows them. |
| ProfileCache.OpenedIsSound | crates/anchored-studies/src/profile.rs:388-434 | A range opened on at least one slot starts in order, from slot 1 if it spent budget on a forming slot 0. |
| ProfileCache.DerivedShows | crates/anchored-studies/src/profile.rs:496-532 | Reading a finished fold with the forming bar on a copy shows the whole range. |
| ProfileCache.PassMoves | crates/anchored-studies/src/profile.rs:436-489 | A pass with budget over a fold still running advances at least one slot and had budget left before its last one. |
| ProfileCache.PassesFinish | crates/anchored-studies/src/profile.rs:436-489 | As many passes as there are slots left always finish the fold. |
| ProfileCache.RefreshesFinish | crates/anchored-studies/src/profile.rs:345-386 | A range whose right edge takes at most one bar more a refresh is folded to its end within as many refreshes as it has slots, whatever their budgets and however often its forming bar moves: no close and no snapshot starts it over. |
| ProfileCache.EmptyOpeningNeverFills | crates/anchored-studies/src/profile.rs:410-421 | A range opened on no slot has no job, so nothing it carries on to ever fills it. |
| ProfileCache.EmptySpanIsTakenForSlotZero | crates/anchored-studies/src/profile.rs:312-313 | An empty span and the range of slot 0 alone share a key: each is taken for the other. |
| ProfileCache.FormingSlotZeroIsLost | crates/anchored-studies/src/profile.rs:410-417 | A range opened while only slot 0 is forming steps past it for good. |
| ProfileCache.RangeProfile.Derive | crates/anchored-studies/src/profile.rs:496-532 | The forming bar is pushed onto a copy: the fold itself, its counts and its place are untouched, and only a fold that reached the end may call its range empty. |
| ProfileCache.RangeProfile.Advance | crates/anchored-studies/src/profile.rs:436-489 | The budgeted loop in place leaves the cache the run theorem reasons about: candles skipped when they cannot join, slots folded until the budget or the end, the fold sealed once, the profile read. |
| ProfileCache.RangeProfile.Refresh | crates/anchored-studies/src/profile.rs:292-434 | `refresh` in place: carried on in the same object or a new one, as the function the run theorem is about. |
| AverageCache.EveryRunIsShortBy | crates/anchored-studies/src/average.rs:142-295 | Whatever was previewed, appended or replayed on the way, a refresh leaves what a replay from the anchor over today's bars would, kernel and key included, short by exactly the committed rows that failed previews cost since the last replay. |
| AverageCache.EveryRunIsAReplayExactlyWhen | crates/anchored-studies/src/average.rs:142-295 | So a run ends with a replay exactly when no refresh in place that moved or closed a forming bar followed a preview that failed with a committed row left to lose. |
| AverageCache.AppendLeaves | crates/anchored-studies/src/average.rs:259-295 | Appending after a failed preview pops a committed row, pushes it back in the next one's place, and leaves the newest closed bar without its row. |
| AverageCache.ClosingCarriesOn | crates/anchored-studies/src/average.rs:270-287 | Closing bars carries on from wherever it stopped. |
| AverageCache.PreviewIsReplayExactlyWhenAnswered | crates/anchored-studies/src/average.rs:246-258 | A refresh over the same closed bars is a replay exactly when the forming bar is the same, or the last preview answered, or no row was committed yet. |
| AverageCache.AppendIsReplayExactlyWhenAnswered | crates/anchored-studies/src/average.rs:259-295 | A refresh over more closed bars is a replay exactly when the last preview answered or no row was committed yet. |
| AverageCache.OneRowABar | crates/anchored-studies/src/average.rs:213-237 | A kernel that refuses nothing leaves one row a bar from the anchor to the newest. |
| AverageCache.AnchorIsTheNearestBar | crates/anchored-studies/src/average.rs:150-180 | The average starts on the bar at the rounded anchor, or the nearest one to it; there is none exactly when there is no bar or no coordinate. |
| AverageCache.ReplayClosesTheBars | crates/anchored-studies/src/average.rs:205-245 | A refresh with nothing to reuse anchors at the anchor bar's open and closes every closed bar from it on, in order; its rows are the rows those bars committed and the forming bar's preview, where the kernel gives one, and its key and forming signature are today's. |
| AverageCache.AnchoredAverage.RefreshPartial | crates/anchored-studies/src/average.rs:246-258 | A forming bar seen before changes nothing; a new one replaces the live row and its signature, and no committed row or kernel state is touched. |
| AverageCache.AnchoredAverage.CloseBars | crates/anchored-studies/src/average.rs:215-232 | The closing loop, shared by a replay and an append. |
| AverageCache.AnchoredAverage.AppendClosed | crates/anchored-studies/src/average.rs:259-295 | Newly closed bars extend the retained kernel and its rows in place, from where it stopped, and the live row is taken off and put back. |
| AverageCache.AnchoredAverage.Refresh | crates/anchored-studies/src/average.rs:142-245 | `refresh` in place: reuse where a key allows it, a new average, or none. |
| Canvas.ResolvedSpendsOnce | crates/app/src/canvas_layout.rs:293-346 | Resolved shares are non-negative and spend the row exactly once, for every mix of automatic, manual and collapsed panes and every width. |
| Canvas.NormalisedSpendsOnce | crates/app/src/canvas_layout.rs:330-342 | So do the shares before the levy, even when no pane claims anything. |
| Canvas.WhoGetsWhat | crates/app/src/canvas_layout.rs:293-342 | Before floors are levied: while the named sizes leave something and a pane is automatic, each named pane gets exactly its own and the automatic ones equal parts of the rest; else what was named is scaled to the row; and where nobody asks for anything all get the same. |
| Canvas.LevyIsFair | crates/app/src/canvas_layout.rs:356-406 | The levy spends the row once, leaves collapsed panes alone, and in a row that can afford it puts every open pane at its floor within the code's epsilon. |
| Canvas.LevyTakesInProportion | crates/app/src/canvas_layout.rs:376-406 | Where the levy moves anything the row can afford its floors, every open pane under the floor is put exactly there, and all above it give in proportion to how far above they stand, none sinking below. |
| Canvas.UnaffordableLeavesOneShort | crates/app/src/canvas_layout.rs:363-374 | In a row that cannot afford its floors some open pane is under its own, so skipping the levy loses nothing it could give. |
| Canvas.AffordableMeansPayable | crates/app/src/canvas_layout.rs:376-394 | The shortfall of an affordable row never exceeds what stands above the floor, so the rate is never capped. |
| Canvas.TilesExactlyWhenCovered | crates/app/src/canvas_layout.rs:488-526 | Panes and dividers tile the area in order, no gap and no overlap, if and only if every share covers its dividers. |
| Canvas.AffordableRowsTile | crates/app/src/canvas_layout.rs:488-526 | A row that can afford its floors, and is not claimed more than three times over, is tiled. |
| Canvas.ResolveShares | crates/app/src/canvas_layout.rs:293-346 | The passes over the share array leave exactly the shares the theorems above are about, claimed, normalised and levied in that order. |
| Canvas.ApplyMinWidth | crates/app/src/canvas_layout.rs:356-406 | The levy in place, pane by pane. |
| Canvas.SplitAxis | crates/app/src/canvas_layout.rs:488-526 | The carving loop; clamping a boundary never changes it. |
| PngFilters.PaethBreaksTiesInOrder | tools/evidence/verify_screenshot_evidence.py:125-128 | The predictor by least distance is that of section 6.6 of RFC 2083, ties in the order left, above, upper left. |
| PngFilters.PredictionIsTheStandards | tools/evidence/verify_screenshot_evidence.py:109-131 | What the encoder of section 6 of RFC 2083 takes off a byte, filter by filter from the bytes left, above and upper left, the decoder's prediction puts back. |
| PngFilters.RebuildUndoesFilter | tools/evidence/verify_screenshot_evidence.py:109-131 | Rebuilding gives back every row from the form the standard's own encoder gives it, for every filter; the encoder is written from section 6 of RFC 2083 and shares nothing with the decoder. |
| PngFilters.FilterUndoesRebuild | tools/evidence/verify_screenshot_evidence.py:109-131 | And the encoder gives back every filtered row from what it rebuilds to, so a row has one filtered form. |
| PngFilters.RebuildRow | tools/evidence/verify_screenshot_evidence.py:114-131 | One row rebuilt in place, each byte from bytes already finished. |
| PngFilters.RowsComeBack | tools/evidence/verify_screenshot_evidence.py:109-133 | Every image comes back from the scan lines the standard's encoder writes for it, whatever filter each was written with. |
| PngFilters.AcceptedRowsAreScanLines | tools/evidence/verify_screenshot_evidence.py:109-133 | Whatever the row loop accepts is scan lines that encoder would have written for the image it returns. |
| PngFilters.RebuildRows | tools/evidence/verify_screenshot_evidence.py:109-133 | The row loop, an unknown filter refused. |
| Png.DecodePng | tools/evidence/verify_screenshot_evidence.py:66-134 | The decoder, every refusal in the code's order. |
| Png.ReadChunks | tools/evidence/verify_screenshot_evidence.py:69-102 | The chunk loop, every refusal in the code's order. |
| Png.WalkedIsRan | tools/evidence/verify_screenshot_evidence.py:72-101 | The bytes of any list of chunks are read as that list, lengths and checksums included. |
| Png.FileRuns | tools/evidence/verify_screenshot_evidence.py:72-102 | The loop gathers the whole data stream of a file, however it was cut and whatever optional chunks surround it. |
| Png.DecodeUndoesEncode | tools/evidence/verify_screenshot_evidence.py:66-134 | For every image, every choice of filters, every cut of a stream that inflates to the scan lines the standard's encoder writes for it and any optional chunks around it, decoding gives the image back. |
| Png.CutsDoNotMatter | tools/evidence/verify_screenshot_evidence.py:90-93 | However one stream, sound or not, is cut into contiguous data chunks, the verdict is the same. |
| Png.GapIsRefused | tools/evidence/verify_screenshot_evidence.py:90-100 | A data chunk after the data has been left is refused, whatever follows it. |
| Png.AcceptsExactlyTheFiles | tools/evidence/verify_screenshot_evidence.py:66-134 | The decoder accepts exactly the files: an image comes out if and only if the bytes are the signature, the header of its size, optional chunks, data cut anywhere, optional chunks and the end, and the data inflates to scan lines the standard's encoder writes for that image. |
| Png.AcceptedIsWhole | tools/evidence/verify_screenshot_evidence.py:85-108 | Whatever is accepted is a whole image of four bytes a pixel within the budget. |
| UseTree.ExpandIsLeaves | tools/read_cost/measure.py:268-323 | For every use tree, parsing what it prints gives its leaf paths in order: aliases dropped, globs and `self` giving their prefix, empty paths left out. |
| UseTree.OnlyTheEmptyAreLeftOut | tools/read_cost/measure.py:323 | Of the paths found the empty ones are left out and nothing else is touched: it goes path by path, in order. |
| UseTree.NodeReadsBack | tools/read_cost/measure.py:285-318 | One printed tree, read back from whatever may follow it. |
| UseTree.ItemsReadBack | tools/read_cost/measure.py:273-283 | A printed list of trees, trailing comma or not, read back to its closing brace. |
| UseTree.Expander.ReadGroup | tools/read_cost/measure.py:273-283 | The group routine on the shared cursor; with the node routine it ends on every token list without a semicolon because the cursor advances. |
| UseTree.Expander.ReadNode | tools/read_cost/measure.py:285-318 | The node routine on the shared cursor leaves the cursor and the paths where the tree parser puts them, on every token list without a semicolon, well formed or not. |
| UseTree.Expander.Expand | tools/read_cost/measure.py:268-323 | The whole expansion is the parser the print theorem is about, on every token list without a semicolon. |
| BoundaryNames.Scan | tools/ci/binary_hook_scan.py:40-64 | The skip-ahead scan finds a name exactly when it stands alone somewhere in the bytes, as the per-name pattern it replaced asks. |
| BoundaryNames.OneRun | tools/ci/binary_hook_scan.py:57-63 | One maximal run: its head is recorded exactly at a boundary, and no name begins inside it. |

## Left out

- PumpLoop.LivePump.PumpTicks: that every later print is forwarded, each once, is stated while later milliseconds are distinct, the exact condition of `Pump.RoundIsExactIff`; that nothing before the cursor is sent again is stated without it.
- Opening.SessionTicks: a gap that straddles the seam of two non-empty windows is not cut by the code, so the block may hold an inner gap; a stop on an empty window clipped by the 48-hour span proves no gap.
- ProfileCache.EveryRunStandsForTheRequest: tapes shorter than 2^64 bars, the machine's own bound; an `f32` coordinate is a real here too.
- ProfileCache.EveryRunIsSoundExactlyWhen: f32 coordinates are reals, and the value area is part of what a fold reads.
- AverageCache.EveryRunIsShortBy: band multipliers that are not numbers, whose keys never compare equal, are not modelled.
- Commands.ChunkingDoesNotMatter: lines must fit the buffer's cap; how much of an over-long line is dropped depends on how it was cut into reads.
- SessionLoop.Session.RunSession: runs that no exception cuts short; an interrupt or a failed write is `SessionLoop.GoodbyeAnywhere`, at a line, while a write that fails part way may also leave half a line before the goodbye. Passes are counted, not timed, and what the live pump sends is given to the pass.
- Snapshot.InterruptedPublicationReadsBack: nobody else publishes under the same key, which names its writer, and no append lands later than the look after it.
- OperationJournal.EveryRunIsOrderly: one writer journals at a time; two calls racing between look and append are not modelled, nor an append that lands late.
- Publication.NoFork: paging through comments is one look, since pages are read newest first of a log that only grows.
- Canvas.TilesExactlyWhenCovered: reals, so no rounding; an area of negative extent, which makes the clamp panic, is excluded.
- UseTree.ExpandIsLeaves: a semicolon inside a group would keep the group routine in place; statements end before theirs, so token lists without one are all there are.
- Python's equality of 1, 1.0 and True, its ordering of dictionary keys, and its refusal to put a list or a dictionary in a set have no counterpart in `Json`.
- Book images, clock measurement, deal counters, logging, heartbeat timing and sleeping carry no state a theorem is about; a book image and a heartbeat are lines of the trace only.
- Rendering candles into lines, the JSON of ticks, activation receipts and the GitHub transport are foreign calls or formatting.
- `verify_geometry` and the registry comparison of the binary scan are lookups over parsed documents.
- Drawing, panels, stores and the rest of crates/app and of tools are not part of this model.
