/** The campaign's operation journal: intents and results on the log, folded, admitted
    one at a time, and projected into the history a checkpoint carries. */
module OperationJournal {
  import opened Wrappers
  import P = Publication

  type Payload(==, !new)

  datatype Status = Pending | Succeeded | Failed

  /** `payload` is everything of a record's identity but its key and attempt. */
  datatype Record = Record(key: string, attempt: int, status: Status, evidence: seq<string>, payload: Payload)

  /** One operation attempt as folded: its latest record and every row that spoke of it. */
  datatype Entry = Entry(record: Record, urls: seq<nat>)

  /** `attempts` is None when a row's count is not a number. */
  datatype HistoryRow = HistoryRow(attempts: Option<nat>, lastStatus: Status, evidence: seq<string>, urls: seq<nat>)

  type History = map<string, HistoryRow>

  /** The committed boundary: its history, whether it has work in flight, its limit,
      the journal rows it consumed, and the URL the next row on the log will have.
      URLs are counted along the whole log, so none is ever given twice. */
  datatype Base = Base(history: History, inflight: bool, retryLimit: int, consumed: seq<nat>, first: nat)

  // ----------------------------------------------------------------------- folding

  predicate Same(a: Record, b: Record) {
    a.key == b.key && a.attempt == b.attempt
  }

  /** Where an attempt stands among the folded ones, or their number. */
  function Place(grouped: seq<Entry>, record: Record): (i: nat)
    ensures i <= |grouped|
    ensures i < |grouped| ==> Same(grouped[i].record, record)
    ensures forall k :: 0 <= k < i ==> !Same(grouped[k].record, record)
  {
    if grouped == [] || Same(grouped[0].record, record) then 0 else 1 + Place(grouped[1..], record)
  }

  /** One row into the fold, or nothing when it contradicts what went before. */
  function FoldOne(grouped: seq<Entry>, record: Record, url: nat): Option<seq<Entry>> {
    if record.attempt < 1 || (record.status != Pending && record.evidence == []) then None
    else
      var i := Place(grouped, record);
      if i == |grouped| then
        if record.status != Pending then None else Some(grouped + [Entry(record, [url])])
      else
        var prior := grouped[i];
        if prior.record.payload != record.payload then None
        else if prior.record.status == record.status then
          if prior.record != record then None else Some(grouped[i := prior.(urls := prior.urls + [url])])
        else if prior.record.status != Pending || record.status == Pending then None
        else Some(grouped[i := Entry(record, prior.urls + [url])])
  }

  /** `fold_operations` of the rows after a boundary, in order; `first` is the URL of
      the first of them. */
  function Fold(rows: seq<Record>, first: nat): Option<seq<Entry>> {
    if rows == [] then Some([])
    else
      var before := Fold(rows[..|rows| - 1], first);
      if before.None? then None else FoldOne(before.value, rows[|rows| - 1], first + |rows| - 1)
  }

  method FoldOperations(rows: seq<Record>, first: nat) returns (grouped: Option<seq<Entry>>)
    ensures grouped == Fold(rows, first)
  {
    hide FoldOne;
    var folded: seq<Entry> := [];
    for i := 0 to |rows|
      invariant Fold(rows[..i], first) == Some(folded)
    {
      assert rows[..i + 1][..i] == rows[..i];
      var next := FoldOne(folded, rows[i], first + i);
      if next.None? {
        ContradictionsStay(rows, first, i + 1, |rows|);
        return None;
      }
      folded := next.value;
    }
    assert rows[..|rows|] == rows;
    return Some(folded);
  }

  lemma {:induction false} ContradictionsStay(rows: seq<Record>, first: nat, upTo: nat, n: nat)
    requires upTo <= n <= |rows| && Fold(rows[..upTo], first).None?
    ensures Fold(rows[..n], first).None? && (n == |rows| ==> Fold(rows, first).None?)
  {
    assert rows[..|rows|] == rows;
    if upTo < n {
      ContradictionsStay(rows, first, upTo, n - 1);
      assert rows[..n][..n - 1] == rows[..n - 1];
    }
  }

  /** The row with this URL speaks of the entry's attempt. */
  ghost predicate SpeaksOf(e: Entry, rows: seq<Record>, first: nat, url: nat) {
    first <= url < first + |rows| && Same(e.record, rows[url - first])
  }

  /** A row's entry holds the row itself, or the result its pending row came to. */
  ghost predicate Heard(grouped: seq<Entry>, row: Record) {
    var i := Place(grouped, row);
    && i < |grouped|
    && var now := grouped[i].record;
       now.payload == row.payload && (now == row || (row.status == Pending && now.status != Pending))
  }

  /** Every row is in the one entry of its attempt, and nothing else is. */
  ghost predicate Filed(rows: seq<Record>, first: nat, grouped: seq<Entry>) {
    && (forall j, k :: 0 <= j < k < |grouped| ==> !Same(grouped[j].record, grouped[k].record))
    && (forall k, url :: 0 <= k < |grouped| ==> (url in grouped[k].urls <==> SpeaksOf(grouped[k], rows, first, url)))
    && (forall i :: 0 <= i < |rows| ==> Heard(grouped, rows[i]))
  }

  lemma {:induction false} EveryRowIsFiled(rows: seq<Record>, first: nat)
    requires Fold(rows, first).Some?
    ensures Filed(rows, first, Fold(rows, first).value)
  {
    hide FoldOne, Filed;
    if rows == [] {
      NoneFiled(first);
    } else {
      var rest := rows[..|rows| - 1];
      EveryRowIsFiled(rest, first);
      OneMoreFiled(rest, first, Fold(rest, first).value, rows[|rows| - 1]);
      assert rows == rest + [rows[|rows| - 1]];
    }
  }

  lemma NoneFiled(first: nat)
    ensures Filed([], first, [])
  {
  }

  lemma OneMoreFiled(rows: seq<Record>, first: nat, grouped: seq<Entry>, row: Record)
    requires Filed(rows, first, grouped) && FoldOne(grouped, row, first + |rows|).Some?
    ensures Filed(rows + [row], first, FoldOne(grouped, row, first + |rows|).value)
  {
    hide FoldOne, Heard, Place, SpeaksOf, Same;
    OneMoreSpeaks(rows, first, grouped, row);
    var after := StillApart(grouped, row, first + |rows|);
    AllStillHeard(rows, grouped, after, row);
  }

  lemma StillApart(grouped: seq<Entry>, row: Record, url: nat) returns (after: seq<Entry>)
    requires FoldOne(grouped, row, url).Some?
    requires forall j, k :: 0 <= j < k < |grouped| ==> !Same(grouped[j].record, grouped[k].record)
    ensures after == FoldOne(grouped, row, url).value && |grouped| <= |after| && Heard(after, row)
    ensures forall j, k :: 0 <= j < k < |after| ==> !Same(after[j].record, after[k].record)
    ensures forall other: Record :: Heard(grouped, other) ==> Heard(after, other)
  {
    after := FoldOne(grouped, row, url).value;
    OneMoreIsHeard(grouped, row, url);
    hide FoldOne, Heard, Place, Same;
    forall other: Record | Heard(grouped, other)
      ensures Heard(after, other)
    {
      OthersAreHeard(grouped, row, url, other);
    }
  }

  lemma OneMoreSpeaks(rows: seq<Record>, first: nat, grouped: seq<Entry>, row: Record)
    requires Filed(rows, first, grouped) && FoldOne(grouped, row, first + |rows|).Some?
    ensures var after := FoldOne(grouped, row, first + |rows|).value;
      forall k, url :: 0 <= k < |after| ==> (url in after[k].urls <==> SpeaksOf(after[k], rows + [row], first, url))
  {
    var after := FoldOne(grouped, row, first + |rows|).value;
    OneMoreIsHeard(grouped, row, first + |rows|);
    hide FoldOne, Heard, Place, SpeaksOf, Same;
    forall k, url | 0 <= k < |after|
      ensures url in after[k].urls <==> SpeaksOf(after[k], rows + [row], first, url)
    {
      if k < |grouped| {
        assert url in grouped[k].urls <==> SpeaksOf(grouped[k], rows, first, url);
        SpeaksStill(grouped[k], after[k], rows, first, row, url);
      } else {
        SpeaksOneMore(after[k], rows, first, row, url);
        NoneSpokeYet(rows, first, grouped, row, url);
        JustItself(row);
      }
    }
  }

  lemma AllStillHeard(rows: seq<Record>, grouped: seq<Entry>, after: seq<Entry>, row: Record)
    requires forall i :: 0 <= i < |rows| ==> Heard(grouped, rows[i])
    requires forall other: Record :: Heard(grouped, other) ==> Heard(after, other)
    requires Heard(after, row)
    ensures forall i :: 0 <= i < |rows + [row]| ==> Heard(after, (rows + [row])[i])
  {
    hide Heard;
    forall i | 0 <= i < |rows + [row]|
      ensures Heard(after, (rows + [row])[i])
    {
      if i < |rows| {
        assert Heard(grouped, rows[i]);
      }
    }
  }

  lemma SpeaksOneMore(e: Entry, rows: seq<Record>, first: nat, row: Record, url: nat)
    ensures SpeaksOf(e, rows + [row], first, url)
      <==> SpeaksOf(e, rows, first, url) || (url == first + |rows| && Same(e.record, row))
  {
  }

  lemma SpeaksStill(was: Entry, now: Entry, rows: seq<Record>, first: nat, row: Record, url: nat)
    requires Same(now.record, was.record) && (url in was.urls <==> SpeaksOf(was, rows, first, url))
    requires now.urls == was.urls + if Same(was.record, row) then [first + |rows|] else []
    ensures url in now.urls <==> SpeaksOf(now, rows + [row], first, url)
  {
    SpeaksOneMore(now, rows, first, row, url);
  }

  lemma JustItself(row: Record)
    ensures Same(row, row)
  {
  }

  /** What one row does to the entries of the others. */
  lemma {:induction false} OneMoreIsHeard(grouped: seq<Entry>, row: Record, url: nat)
    requires FoldOne(grouped, row, url).Some?
    requires forall j, k :: 0 <= j < k < |grouped| ==> !Same(grouped[j].record, grouped[k].record)
    ensures var after := FoldOne(grouped, row, url).value;
      && |grouped| <= |after| && Heard(after, row)
      && (forall j, k :: 0 <= j < k < |after| ==> !Same(after[j].record, after[k].record))
      && (forall k :: 0 <= k < |grouped| ==>
            && Same(after[k].record, grouped[k].record)
            && after[k].urls == grouped[k].urls + if Same(grouped[k].record, row) then [url] else [])
      && (|after| > |grouped| ==> |after| == |grouped| + 1 && after[|grouped|] == Entry(row, [url]) && Place(grouped, row) == |grouped|)
  {
    var after, p := FoldOne(grouped, row, url).value, Place(grouped, row);
    forall k | 0 <= k < |grouped|
      ensures Same(after[k].record, grouped[k].record)
      ensures after[k].urls == grouped[k].urls + if Same(grouped[k].record, row) then [url] else []
    {
      assert p < k ==> !Same(grouped[p].record, grouped[k].record);
    }
    SamePlace(grouped, after, row);
  }

  lemma OthersAreHeard(grouped: seq<Entry>, row: Record, url: nat, other: Record)
    requires FoldOne(grouped, row, url).Some? && Heard(grouped, other)
    requires forall k :: 0 <= k < |grouped| ==> Same(FoldOne(grouped, row, url).value[k].record, grouped[k].record)
    ensures Heard(FoldOne(grouped, row, url).value, other)
  {
    SamePlace(grouped, FoldOne(grouped, row, url).value, other);
  }

  /** A record's place does not move as the fold goes on. */
  lemma {:induction false} SamePlace(grouped: seq<Entry>, after: seq<Entry>, row: Record)
    requires |grouped| <= |after|
    requires forall k :: 0 <= k < |grouped| ==> Same(after[k].record, grouped[k].record)
    ensures Place(grouped, row) < |grouped| ==> Place(after, row) == Place(grouped, row)
    ensures Place(grouped, row) == |grouped| < |after| && Same(after[|grouped|].record, row) ==> Place(after, row) == |grouped|
  {
    if grouped != [] {
      SamePlace(grouped[1..], after[1..], row);
    }
  }

  lemma {:induction false} NoneSpokeYet(rows: seq<Record>, first: nat, grouped: seq<Entry>, row: Record, url: nat)
    requires Filed(rows, first, grouped) && Place(grouped, row) == |grouped|
    ensures !SpeaksOf(Entry(row, [first + |rows|]), rows, first, url)
  {
    assert first <= url < first + |rows| ==> Heard(grouped, rows[url - first]);
  }

  // --------------------------------------------------------------------- admission

  predicate HasPending(grouped: seq<Entry>) {
    exists i :: 0 <= i < |grouped| && grouped[i].record.status == Pending
  }

  predicate HasKey(grouped: seq<Entry>, key: string) {
    exists i :: 0 <= i < |grouped| && grouped[i].record.key == key
  }

  predicate HasSuccess(grouped: seq<Entry>, key: string) {
    exists i :: 0 <= i < |grouped| && grouped[i].record.key == key && grouped[i].record.status == Succeeded
  }

  /** What history already counts for a key; a count that is not known stops the work. */
  function Historical(history: History, key: string): Option<nat> {
    if key in history then history[key].attempts else Some(0)
  }

  /** The greatest attempt of a key, history included. */
  function Latest(grouped: seq<Entry>, key: string, historical: nat): (n: int)
    ensures n >= historical
    ensures forall i :: 0 <= i < |grouped| && grouped[i].record.key == key ==> grouped[i].record.attempt <= n
    ensures n == historical || exists i :: 0 <= i < |grouped| && grouped[i].record.key == key && grouped[i].record.attempt == n
  {
    if grouped == [] then historical
    else
      var rest := grouped[..|grouped| - 1];
      var last := grouped[|grouped| - 1].record;
      var n := Latest(rest, key, historical);
      assert forall i :: 0 <= i < |rest| ==> grouped[i] == rest[i];
      if last.key == key && last.attempt > n then last.attempt else n
  }

  /** A new intent may be appended. */
  predicate MayBegin(base: Base, grouped: seq<Entry>, record: Record, historical: nat) {
    && !HasSuccess(grouped, record.key)
    && (record.key in base.history && !HasKey(grouped, record.key) ==> base.history[record.key].lastStatus == Failed)
    && !base.inflight && !HasPending(grouped)
    && record.attempt == Latest(grouped, record.key, historical) + 1
    && record.attempt <= base.retryLimit
  }

  /** The checks of `journal` on a record, before anything is appended. */
  predicate Admitted(base: Base, rows: seq<Record>, record: Record) {
    var (grouped, historical) := (Fold(rows, base.first), Historical(base.history, record.key));
    && grouped.Some? && historical.Some? && Fold(rows + [record], base.first).Some?
    && (record.status == Pending && Place(grouped.value, record) == |grouped.value| ==>
          MayBegin(base, grouped.value, record, historical.value))
  }

  type Outcome = P.Outcome

  /** `journal`: an exact record already there is reused, never doubled; otherwise it
      is appended, and may land or not. `authorized` stands for owner, lease and
      authorization. */
  function Journaled(base: Base, rows: seq<Record>, record: Record, authorized: bool, outcome: Outcome): seq<Record> {
    if authorized && Admitted(base, rows, record) && record !in rows && !outcome.Vanished? then rows + [record] else rows
  }

  // ---------------------------------------------------------------------- projection

  /** Stable by attempt: after every entry of the same or an earlier attempt. */
  function Insert(order: seq<Entry>, e: Entry): (r: seq<Entry>) {
    if order == [] || order[|order| - 1].record.attempt <= e.record.attempt then order + [e]
    else Insert(order[..|order| - 1], e) + [order[|order| - 1]]
  }

  function ByAttempt(grouped: seq<Entry>): seq<Entry> {
    if grouped == [] then [] else Insert(ByAttempt(grouped[..|grouped| - 1]), grouped[|grouped| - 1])
  }

  function NewUrls(urls: seq<nat>, known: seq<nat>): seq<nat> {
    if urls == [] then []
    else NewUrls(urls[..|urls| - 1], known) + if urls[|urls| - 1] in known then [] else [urls[|urls| - 1]]
  }

  /** One observed attempt onto the history it must continue. */
  function ProjectOne(history: History, e: Entry): Option<History> {
    var key := e.record.key;
    if key in history && (history[key].attempts.None? || history[key].lastStatus != Failed) then None
    else
      var (count, urls) := if key in history then (history[key].attempts.value, history[key].urls) else (0, []);
      if e.record.attempt != count + 1 then None
      else Some(history[key := HistoryRow(Some(count + 1), e.record.status, e.record.evidence, urls + NewUrls(e.urls, urls))])
  }

  function ProjectAll(history: History, order: seq<Entry>): Option<History> {
    if order == [] then Some(history)
    else
      var before := ProjectAll(history, order[..|order| - 1]);
      if before.None? then None else ProjectOne(before.value, order[|order| - 1])
  }

  /** `_project_history` */
  function Projected(history: History, grouped: seq<Entry>): Option<History> {
    ProjectAll(history, ByAttempt(grouped))
  }

  method ProjectHistory(history: History, grouped: seq<Entry>) returns (projected: Option<History>)
    ensures projected == Projected(history, grouped)
  {
    hide ProjectOne;
    var order := ByAttempt(grouped);
    var now := history;
    for i := 0 to |order|
      invariant ProjectAll(history, order[..i]) == Some(now)
    {
      assert order[..i + 1][..i] == order[..i];
      var next := ProjectOne(now, order[i]);
      if next.None? {
        RefusalsStay(history, order, i + 1, |order|);
        return None;
      }
      now := next.value;
    }
    assert order[..|order|] == order;
    return Some(now);
  }

  lemma {:induction false} RefusalsStay(history: History, order: seq<Entry>, upTo: nat, n: nat)
    requires upTo <= n <= |order| && ProjectAll(history, order[..upTo]).None?
    ensures ProjectAll(history, order[..n]).None? && (n == |order| ==> ProjectAll(history, order).None?)
  {
    assert order[..|order|] == order;
    if upTo < n {
      RefusalsStay(history, order, upTo, n - 1);
      assert order[..n][..n - 1] == order[..n - 1];
    }
  }

  // ---------------------------------------------------------------- the invariant

  /** Two entries of one key: attempts differ, and the earlier one failed. */
  predicate Ordered(a: Record, b: Record) {
    a.key == b.key ==>
      && a.attempt != b.attempt
      && (a.attempt < b.attempt ==> a.status == Failed) && (b.attempt < a.attempt ==> b.status == Failed)
  }

  /** An attempt continues history, or the attempt before it. */
  ghost predicate Continues(base: Base, grouped: seq<Entry>, e: Record) {
    && Historical(base.history, e.key).Some?
    && var h := Historical(base.history, e.key).value;
    && h < e.attempt <= base.retryLimit
    && (e.attempt == h + 1 || HasAttempt(grouped, e.key, e.attempt - 1))
    && (e.key in base.history ==> base.history[e.key].lastStatus == Failed)
  }

  predicate HasAttempt(grouped: seq<Entry>, key: string, attempt: int) {
    exists i :: 0 <= i < |grouped| && grouped[i].record.key == key && grouped[i].record.attempt == attempt
  }

  /** Attempts run on from history one by one within the limit, all but a key's last
      have failed, and at most one operation is unresolved. */
  ghost predicate Orderly(base: Base, grouped: seq<Entry>) {
    && (forall i :: 0 <= i < |grouped| ==> Continues(base, grouped, grouped[i].record))
    && (forall i, j :: 0 <= i < j < |grouped| ==> Ordered(grouped[i].record, grouped[j].record))
    && (forall i, j :: 0 <= i < j < |grouped| ==> !(grouped[i].record.status == Pending && grouped[j].record.status == Pending))
    && (base.inflight ==> grouped == [])
  }

  ghost predicate Sound(base: Base, rows: seq<Record>) {
    Fold(rows, base.first).Some? && Orderly(base, Fold(rows, base.first).value)
  }

  /** A new intent keeps the journal orderly. */
  lemma {:induction false} BeginKeeps(base: Base, grouped: seq<Entry>, record: Record, url: nat, historical: nat)
    requires Orderly(base, grouped) && Historical(base.history, record.key) == Some(historical)
    requires record.status == Pending && Place(grouped, record) == |grouped| && MayBegin(base, grouped, record, historical)
    ensures Orderly(base, grouped + [Entry(record, [url])])
  {
    var after := grouped + [Entry(record, [url])];
    assert forall i :: 0 <= i < |grouped| ==> after[i] == grouped[i];
    forall i | 0 <= i < |after|
      ensures Continues(base, after, after[i].record)
    {
      if i < |grouped| {
        MoreAttempts(grouped, after, grouped[i].record.key, grouped[i].record.attempt - 1);
        assert Continues(base, grouped, grouped[i].record);
      } else {
        MoreAttempts(grouped, after, record.key, record.attempt - 1);
        BeginContinues(base, grouped, record, historical);
      }
    }
    forall i | 0 <= i < |grouped|
      ensures Ordered(grouped[i].record, record)
    {
      EarlierHasFailed(grouped, record, i);
    }
  }

  lemma MoreAttempts(grouped: seq<Entry>, after: seq<Entry>, key: string, attempt: int)
    requires |grouped| <= |after|
    requires forall i :: 0 <= i < |grouped| ==> Same(after[i].record, grouped[i].record)
    ensures HasAttempt(grouped, key, attempt) ==> HasAttempt(after, key, attempt)
  {
    if HasAttempt(grouped, key, attempt) {
      var i :| 0 <= i < |grouped| && grouped[i].record.key == key && grouped[i].record.attempt == attempt;
      assert Same(after[i].record, grouped[i].record);
    }
  }

  lemma BeginContinues(base: Base, grouped: seq<Entry>, record: Record, historical: nat)
    requires Orderly(base, grouped) && Historical(base.history, record.key) == Some(historical)
    requires MayBegin(base, grouped, record, historical)
    ensures Continues(base, grouped, record)
  {
    if HasKey(grouped, record.key) {
      var i :| 0 <= i < |grouped| && grouped[i].record.key == record.key;
      assert Continues(base, grouped, grouped[i].record);
    }
  }

  lemma EarlierHasFailed(grouped: seq<Entry>, record: Record, i: nat)
    requires i < |grouped| && !HasSuccess(grouped, record.key) && !HasPending(grouped)
    requires forall k :: 0 <= k < |grouped| && grouped[k].record.key == record.key ==> grouped[k].record.attempt < record.attempt
    ensures Ordered(grouped[i].record, record)
  {
  }

  /** A result, or another row of a record already folded, keeps the journal orderly. */
  lemma ResolveKeeps(base: Base, grouped: seq<Entry>, i: nat, e: Entry)
    requires Orderly(base, grouped) && i < |grouped| && Same(grouped[i].record, e.record)
    requires e.record == grouped[i].record || (grouped[i].record.status == Pending && e.record.status != Pending)
    ensures Orderly(base, grouped[i := e])
  {
    var after := grouped[i := e];
    forall k | 0 <= k < |after|
      ensures Continues(base, after, after[k].record)
    {
      assert Continues(base, grouped, grouped[k].record);
      MoreAttempts(grouped, after, grouped[k].record.key, grouped[k].record.attempt - 1);
    }
    forall j, k | 0 <= j < k < |after|
      ensures Ordered(after[j].record, after[k].record)
    {
      assert Ordered(grouped[j].record, grouped[k].record);
    }
  }

  /** Whatever a call of `journal` does to the log, the journal stays orderly. */
  lemma JournalKeepsOrder(base: Base, rows: seq<Record>, record: Record, authorized: bool, outcome: Outcome)
    requires Sound(base, rows)
    ensures Sound(base, Journaled(base, rows, record, authorized, outcome))
  {
    hide Orderly, MayBegin;
    var after := Journaled(base, rows, record, authorized, outcome);
    if after != rows {
      assert after[..|rows|] == rows;
      var grouped := Fold(rows, base.first).value;
      var i := Place(grouped, record);
      if i == |grouped| {
        BeginKeeps(base, grouped, record, base.first + |rows|, Historical(base.history, record.key).value);
      } else {
        ResolveKeeps(base, grouped, i, Fold(after, base.first).value[i]);
      }
    }
  }

  // ------------------------------------------------------- what projection accepts

  ghost predicate Rising(order: seq<Entry>) {
    forall i, j :: 0 <= i < j < |order| ==> order[i].record.attempt <= order[j].record.attempt
  }

  /** The same entries, by rising attempt. */
  ghost predicate Arranged(grouped: seq<Entry>, order: seq<Entry>) {
    && Rising(order)
    && (forall e :: e in order <==> e in grouped)
    && (forall i, j :: 0 <= i < j < |order| ==> Ordered(order[i].record, order[j].record))
  }

  lemma {:induction false} InsertSplits(order: seq<Entry>, e: Entry) returns (p: nat)
    requires Rising(order)
    ensures p <= |order| && Insert(order, e) == order[..p] + [e] + order[p..]
    ensures forall i :: 0 <= i < p ==> order[i].record.attempt <= e.record.attempt
    ensures forall i :: p <= i < |order| ==> e.record.attempt < order[i].record.attempt
  {
    if order == [] || order[|order| - 1].record.attempt <= e.record.attempt {
      p := |order|;
    } else {
      var rest := order[..|order| - 1];
      p := InsertSplits(rest, e);
      SpliceGrows(order, e, p);
    }
  }

  lemma SpliceGrows(order: seq<Entry>, e: Entry, p: nat)
    requires order != [] && p < |order|
    ensures var rest := order[..|order| - 1];
      rest[..p] + [e] + rest[p..] + [order[|order| - 1]] == order[..p] + [e] + order[p..]
  {
  }

  lemma {:induction false} SortingArranges(grouped: seq<Entry>)
    requires forall i, j :: 0 <= i < j < |grouped| ==> Ordered(grouped[i].record, grouped[j].record)
    ensures Arranged(grouped, ByAttempt(grouped))
  {
    if grouped != [] {
      hide Ordered, Insert;
      var (rest, e) := (grouped[..|grouped| - 1], grouped[|grouped| - 1]);
      SortingArranges(rest);
      var order := ByAttempt(rest);
      var p := InsertSplits(order, e);
      forall k | 0 <= k < |order|
        ensures Ordered(order[k].record, e.record)
      {
        assert order[k] in rest;
      }
      Spliced(order, e, p);
      assert grouped == rest + [e];
    }
  }

  lemma Spliced(order: seq<Entry>, e: Entry, p: nat)
    requires Rising(order) && p <= |order|
    requires forall i :: 0 <= i < p ==> order[i].record.attempt <= e.record.attempt
    requires forall i :: p <= i < |order| ==> e.record.attempt < order[i].record.attempt
    requires forall i, j :: 0 <= i < j < |order| ==> Ordered(order[i].record, order[j].record)
    requires forall i :: 0 <= i < |order| ==> Ordered(order[i].record, e.record)
    ensures var r := order[..p] + [e] + order[p..];
      && Rising(r) && (forall x :: x in r <==> x == e || x in order)
      && (forall i, j :: 0 <= i < j < |r| ==> Ordered(r[i].record, r[j].record))
  {
    hide Ordered;
    var r := order[..p] + [e] + order[p..];
    assert order == order[..p] + order[p..];
    forall i, j | 0 <= i < j < |r|
      ensures r[i].record.attempt <= r[j].record.attempt && Ordered(r[i].record, r[j].record)
    {
      OrderedBothWays(order, e);
      if i < p {
        assert j > p ==> r[j] == order[j - 1];
      } else if i > p {
        assert r[i] == order[i - 1] && r[j] == order[j - 1];
      } else {
        assert r[j] == order[j - 1];
      }
    }
  }

  lemma OrderedBothWays(order: seq<Entry>, e: Entry)
    requires forall i :: 0 <= i < |order| ==> Ordered(order[i].record, e.record)
    ensures forall i :: 0 <= i < |order| ==> Ordered(e.record, order[i].record)
  {
  }

  /** The last of a key among the first `n`. */
  ghost predicate LastOf(order: seq<Entry>, n: nat, key: string, i: nat) {
    i < n <= |order| && order[i].record.key == key && forall k :: i < k < n ==> order[k].record.key != key
  }

  predicate Appears(order: seq<Entry>, n: nat, key: string)
    requires n <= |order|
  {
    exists i :: 0 <= i < n && order[i].record.key == key
  }

  /** A key's row after the first `n`: history's own, or its last entry's. */
  ghost predicate RowAfter(history: History, order: seq<Entry>, n: nat, now: History, key: string)
    requires n <= |order|
  {
    if Appears(order, n, key) then
      forall i: nat :: LastOf(order, n, key, i) ==> key in now && TellsOf(now[key], order[i].record)
    else (key in now <==> key in history) && (key in now ==> now[key] == history[key])
  }

  ghost predicate RowsAfter(history: History, order: seq<Entry>, n: nat, now: History)
    requires n <= |order|
  {
    forall key :: RowAfter(history, order, n, now, key)
  }

  predicate TellsOf(row: HistoryRow, record: Record) {
    row.attempts.Some? && row.attempts.value == record.attempt && row.lastStatus == record.status && row.evidence == record.evidence
  }

  lemma {:induction false} FindLast(order: seq<Entry>, n: nat, key: string) returns (i: nat)
    requires n <= |order| && Appears(order, n, key)
    ensures LastOf(order, n, key, i)
  {
    if order[n - 1].record.key == key {
      i := n - 1;
    } else {
      i := FindLast(order, n - 1, key);
    }
  }

  /** An orderly entry continues exactly where the ones before it left its key. */
  lemma EntryContinues(base: Base, grouped: seq<Entry>, order: seq<Entry>, n: nat, now: History)
    requires Orderly(base, grouped) && Arranged(grouped, order) && n < |order|
    requires RowAfter(base.history, order, n, now, order[n].record.key)
    ensures ProjectOne(now, order[n]).Some?
  {
    hide Orderly;
    var e := order[n].record;
    EntryIsContinued(base, grouped, order, n);
    if e.attempt == Historical(base.history, e.key).value + 1 {
      FirstHasNoneBefore(base, grouped, order, n);
    } else {
      var i := OneBefore(base, grouped, order, n);
    }
  }

  lemma FirstHasNoneBefore(base: Base, grouped: seq<Entry>, order: seq<Entry>, n: nat)
    requires Orderly(base, grouped) && Arranged(grouped, order) && n < |order|
    requires var e := order[n].record;
      Historical(base.history, e.key).Some? && e.attempt == Historical(base.history, e.key).value + 1
    ensures !Appears(order, n, order[n].record.key)
  {
    hide Orderly;
    forall i | 0 <= i < n
      ensures order[i].record.key != order[n].record.key
    {
      EntryIsContinued(base, grouped, order, i);
      assert Ordered(order[i].record, order[n].record);
    }
  }

  /** A later attempt has the one before it right before it among its key's. */
  lemma OneBefore(base: Base, grouped: seq<Entry>, order: seq<Entry>, n: nat) returns (i: nat)
    requires Orderly(base, grouped) && Arranged(grouped, order) && n < |order|
    requires Continues(base, grouped, order[n].record)
    requires var e := order[n].record; e.attempt != Historical(base.history, e.key).value + 1
    ensures LastOf(order, n, order[n].record.key, i) && Appears(order, n, order[n].record.key)
    ensures order[i].record.attempt == order[n].record.attempt - 1 && order[i].record.status == Failed
  {
    hide Orderly;
    var e := order[n].record;
    var q := FindAttempt(grouped, order, e.key, e.attempt - 1);
    assert q < n;
    i := FindLast(order, n, e.key);
    assert q <= i;
    assert Ordered(order[i].record, e);
  }

  lemma EntryIsContinued(base: Base, grouped: seq<Entry>, order: seq<Entry>, n: nat)
    requires Orderly(base, grouped) && Arranged(grouped, order) && n < |order|
    ensures Continues(base, grouped, order[n].record)
  {
    assert order[n] in grouped;
  }

  lemma FindAttempt(grouped: seq<Entry>, order: seq<Entry>, key: string, attempt: int) returns (q: nat)
    requires Arranged(grouped, order) && HasAttempt(grouped, key, attempt)
    ensures q < |order| && order[q].record.key == key && order[q].record.attempt == attempt
  {
    var i :| 0 <= i < |grouped| && grouped[i].record.key == key && grouped[i].record.attempt == attempt;
    assert grouped[i] in order;
    q :| 0 <= q < |order| && order[q] == grouped[i];
  }

  lemma OneRowMoves(now: History, e: Entry)
    requires ProjectOne(now, e).Some?
    ensures var next := ProjectOne(now, e).value;
      && next.Keys == now.Keys + {e.record.key} && TellsOf(next[e.record.key], e.record)
      && forall key :: key in now && key != e.record.key ==> next[key] == now[key]
  {
  }

  lemma RowsMoveOn(history: History, order: seq<Entry>, n: nat, now: History, key: string)
    requires n < |order| && RowAfter(history, order, n, now, key) && ProjectOne(now, order[n]).Some?
    ensures RowAfter(history, order, n + 1, ProjectOne(now, order[n]).value, key)
  {
    hide ProjectOne, TellsOf;
    OneRowMoves(now, order[n]);
    var m := n + 1;
    if order[n].record.key == key {
      assert forall i: nat :: LastOf(order, m, key, i) ==> i == n;
    } else {
      AppearsOrNot(order, n, key);
      forall i: nat | LastOf(order, m, key, i)
        ensures LastOf(order, n, key, i)
      {
      }
    }
  }

  lemma AppearsOrNot(order: seq<Entry>, n: nat, key: string)
    requires n < |order|
    ensures Appears(order, n + 1, key) <==> Appears(order, n, key) || order[n].record.key == key
  {
  }

  lemma {:induction false} ProjectionGoesThrough(base: Base, grouped: seq<Entry>, order: seq<Entry>, n: nat)
    requires Orderly(base, grouped) && Arranged(grouped, order) && n <= |order|
    ensures ProjectAll(base.history, order[..n]).Some?
    ensures RowsAfter(base.history, order, n, ProjectAll(base.history, order[..n]).value)
  {
    hide Orderly, Arranged, ProjectOne;
    if n > 0 {
      hide RowAfter;
      ProjectionGoesThrough(base, grouped, order, n - 1);
      assert order[..n][..n - 1] == order[..n - 1];
      var now := ProjectAll(base.history, order[..n - 1]).value;
      EntryContinues(base, grouped, order, n - 1, now);
      var next := ProjectOne(now, order[n - 1]).value;
      forall key
        ensures RowAfter(base.history, order, n, next, key)
      {
        RowsMoveOn(base.history, order, n - 1, now, key);
      }
    }
  }

  /** Every log `journal` can build projects, and each key's row then tells of its last
      attempt; the keys it did not touch are as they were. */
  lemma {:induction false} EveryOrderlyLogProjects(base: Base, rows: seq<Record>)
    requires Sound(base, rows)
    ensures var grouped := Fold(rows, base.first).value;
      && Projected(base.history, grouped).Some?
      && Tells(base, grouped, Projected(base.history, grouped).value)
  {
    hide Orderly, Arranged, ProjectAll, RowAfter;
    var grouped := Fold(rows, base.first).value;
    ArrangedAll(base, grouped);
    var order := ByAttempt(grouped);
    ProjectionGoesThrough(base, grouped, order, |order|);
    assert order[..|order|] == order;
    var now := Projected(base.history, grouped).value;
    forall key
      ensures ProjectedRow(base, grouped, now, key)
    {
      RowIsTheLatest(base, grouped, order, now, key);
    }
  }

  lemma {:induction false} ArrangedAll(base: Base, grouped: seq<Entry>)
    requires Orderly(base, grouped)
    ensures Arranged(grouped, ByAttempt(grouped))
  {
    SortingArranges(grouped);
  }

  ghost predicate Tells(base: Base, grouped: seq<Entry>, now: History) {
    forall key :: ProjectedRow(base, grouped, now, key)
  }

  ghost predicate ProjectedRow(base: Base, grouped: seq<Entry>, now: History, key: string) {
    if HasKey(grouped, key) then
      exists i :: 0 <= i < |grouped| && IsLatest(grouped, i, key) && key in now && TellsOf(now[key], grouped[i].record)
    else (key in now <==> key in base.history) && (key in now ==> now[key] == base.history[key])
  }

  predicate IsLatest(grouped: seq<Entry>, i: nat, key: string)
    requires i < |grouped|
  {
    && grouped[i].record.key == key
    && forall k :: 0 <= k < |grouped| && grouped[k].record.key == key ==> grouped[k].record.attempt <= grouped[i].record.attempt
  }

  lemma {:induction false} FindLatest(grouped: seq<Entry>, n: nat, key: string) returns (i: nat)
    requires n <= |grouped| && exists k :: 0 <= k < n && grouped[k].record.key == key
    ensures i < n && grouped[i].record.key == key
    ensures forall k :: 0 <= k < n && grouped[k].record.key == key ==> grouped[k].record.attempt <= grouped[i].record.attempt
  {
    var last := grouped[n - 1].record;
    if exists k :: 0 <= k < n - 1 && grouped[k].record.key == key {
      i := FindLatest(grouped, n - 1, key);
      if last.key == key && last.attempt > grouped[i].record.attempt {
        i := n - 1;
      }
    } else {
      i := n - 1;
    }
  }

  lemma RowIsTheLatest(base: Base, grouped: seq<Entry>, order: seq<Entry>, now: History, key: string)
    requires Arranged(grouped, order) && RowAfter(base.history, order, |order|, now, key)
    ensures ProjectedRow(base, grouped, now, key)
  {
    if HasKey(grouped, key) {
      var i := FindLatest(grouped, |grouped|, key);
      assert IsLatest(grouped, i, key);
      assert grouped[i] in order;
      var q :| 0 <= q < |order| && order[q] == grouped[i];
      LatestIsLast(grouped, order, key, i, q);
    } else {
      KeysAgree(grouped, order, key);
    }
  }

  lemma KeysAgree(grouped: seq<Entry>, order: seq<Entry>, key: string)
    requires Arranged(grouped, order)
    ensures Appears(order, |order|, key) ==> HasKey(grouped, key)
  {
    if Appears(order, |order|, key) {
      var q :| 0 <= q < |order| && order[q].record.key == key;
      assert order[q] in grouped;
    }
  }

  lemma LatestIsLast(grouped: seq<Entry>, order: seq<Entry>, key: string, i: nat, q: nat)
    requires Arranged(grouped, order) && i < |grouped| && IsLatest(grouped, i, key) && q < |order| && order[q] == grouped[i]
    ensures LastOf(order, |order|, key, q)
  {
    forall k | q < k < |order|
      ensures order[k].record.key != key
    {
      assert order[k] in grouped && Ordered(order[q].record, order[k].record);
    }
  }

  // ------------------------------------------------------ history along a lineage

  /** No row disappears, no count falls, no provenance is lost, and only a row whose
      last attempt failed is ever written again. */
  ghost predicate OnlyGrows(before: History, after: History) {
    forall key :: key in before ==> key in after && RowGrows(before[key], after[key])
  }

  ghost predicate RowGrows(before: HistoryRow, after: HistoryRow) {
    && (before.lastStatus != Failed || before.attempts.None? ==> after == before)
    && (before.attempts.Some? ==> after.attempts.Some? && before.attempts.value <= after.attempts.value)
    && before.urls <= after.urls
  }

  lemma GrowsTwice(a: History, b: History, c: History)
    requires OnlyGrows(a, b) && OnlyGrows(b, c)
    ensures OnlyGrows(a, c)
  {
    forall key | key in a
      ensures key in c && RowGrows(a[key], c[key])
    {
      assert RowGrows(a[key], b[key]) && RowGrows(b[key], c[key]);
      PrefixTwice(a[key].urls, b[key].urls, c[key].urls);
    }
  }

  lemma PrefixTwice(a: seq<nat>, b: seq<nat>, c: seq<nat>)
    requires a <= b && b <= c
    ensures a <= c
  {
    assert forall i :: 0 <= i < |a| ==> a[i] == b[i] && b[i] == c[i];
  }

  lemma {:induction false} ProjectionOnlyGrows(history: History, order: seq<Entry>)
    requires ProjectAll(history, order).Some?
    ensures OnlyGrows(history, ProjectAll(history, order).value)
  {
    if order != [] {
      hide OnlyGrows, ProjectOne;
      ProjectionOnlyGrows(history, order[..|order| - 1]);
      var before := ProjectAll(history, order[..|order| - 1]).value;
      OneOnlyGrows(before, order[|order| - 1]);
      GrowsTwice(history, before, ProjectAll(history, order).value);
    }
  }

  lemma OneOnlyGrows(history: History, e: Entry)
    requires ProjectOne(history, e).Some?
    ensures OnlyGrows(history, ProjectOne(history, e).value)
  {
    hide NewUrls;
  }

  /** One of the entries is of this key and was spoken of by this row. */
  ghost predicate Spoken(order: seq<Entry>, key: string, url: nat) {
    exists i :: 0 <= i < |order| && order[i].record.key == key && url in order[i].urls
  }

  predicate InHistory(history: History, key: string, url: nat) {
    key in history && url in history[key].urls
  }

  lemma {:induction false} NewUrlsAreAll(urls: seq<nat>, known: seq<nat>)
    ensures forall url :: url in known || url in NewUrls(urls, known) <==> url in known || url in urls
  {
    if urls != [] {
      NewUrlsAreAll(urls[..|urls| - 1], known);
      assert urls == urls[..|urls| - 1] + [urls[|urls| - 1]];
    }
  }

  lemma OneConsumes(history: History, e: Entry)
    requires ProjectOne(history, e).Some?
    ensures var now := ProjectOne(history, e).value;
      && now.Keys == history.Keys + {e.record.key}
      && forall key: string, url: nat :: InHistory(now, key, url) <==> InHistory(history, key, url) || (key == e.record.key && url in e.urls)
  {
    hide NewUrls;
    var known := if e.record.key in history then history[e.record.key].urls else [];
    NewUrlsAreAll(e.urls, known);
    var now := ProjectOne(history, e).value;
    forall key, url
      ensures InHistory(now, key, url) <==> InHistory(history, key, url) || (key == e.record.key && url in e.urls)
    {
      assert url in known + NewUrls(e.urls, known) <==> url in known || url in NewUrls(e.urls, known);
    }
  }

  /** A key's provenance after projection: what it was, and every row that spoke of
      one of its attempts. */
  lemma {:induction false} ProjectionConsumes(history: History, order: seq<Entry>)
    requires ProjectAll(history, order).Some?
    ensures var now := ProjectAll(history, order).value;
      forall key: string, url: nat :: InHistory(now, key, url) <==> InHistory(history, key, url) || Spoken(order, key, url)
  {
    if order != [] {
      hide ProjectOne, InHistory;
      var (rest, last) := (order[..|order| - 1], order[|order| - 1]);
      ProjectionConsumes(history, rest);
      OneConsumes(ProjectAll(history, rest).value, last);
      forall key, url
        ensures Spoken(order, key, url) <==> Spoken(rest, key, url) || (key == last.record.key && url in last.urls)
      {
        SpokenSplits(order, key, url);
      }
    }
  }

  lemma SpokenSplits(order: seq<Entry>, key: string, url: nat)
    requires order != []
    ensures var (rest, last) := (order[..|order| - 1], order[|order| - 1]);
      Spoken(order, key, url) <==> Spoken(rest, key, url) || (key == last.record.key && url in last.urls)
  {
    var rest := order[..|order| - 1];
    if Spoken(rest, key, url) {
      var i :| 0 <= i < |rest| && rest[i].record.key == key && url in rest[i].urls;
      assert order[i] == rest[i];
    }
    if Spoken(order, key, url) {
      var i :| 0 <= i < |order| && order[i].record.key == key && url in order[i].urls;
      assert i < |rest| ==> order[i] == rest[i];
    }
  }

  /** The row of this URL is one of these rows, and of this key. */
  predicate RowOf(rows: seq<Record>, first: nat, key: string, url: nat) {
    first <= url < first + |rows| && rows[url - first].key == key
  }

  /** The folded entries, in whatever order, speak with exactly the rows. */
  lemma {:induction false} SpokenAreRows(rows: seq<Record>, first: nat, order: seq<Entry>, key: string, url: nat)
    requires Fold(rows, first).Some? && Arranged(Fold(rows, first).value, order)
    ensures Spoken(order, key, url) <==> RowOf(rows, first, key, url)
  {
    hide Fold;
    var grouped := Fold(rows, first).value;
    EveryRowIsFiled(rows, first);
    if Spoken(order, key, url) {
      var i :| 0 <= i < |order| && order[i].record.key == key && url in order[i].urls;
      assert order[i] in grouped;
      var k :| 0 <= k < |grouped| && grouped[k] == order[i];
      assert SpeaksOf(grouped[k], rows, first, url);
    }
    if RowOf(rows, first, key, url) {
      var row := rows[url - first];
      assert Heard(grouped, row);
      var k := Place(grouped, row);
      assert SpeaksOf(grouped[k], rows, first, url);
      assert grouped[k] in order;
      var i :| 0 <= i < |order| && order[i] == grouped[k];
    }
  }

  // ------------------------------------------------------------------- whole runs

  datatype Campaign = Campaign(base: Base, rows: seq<Record>)

  /** A journal call with the fate of its append, or a checkpoint: the rows its own
      publication takes on the log, the journal rows its state says it consumed, and
      what the caller sets in the new state. */
  datatype Event =
    | Write(record: Record, authorized: bool, outcome: Outcome)
    | Commit(published: nat, consumed: seq<nat>, inflight: bool, retryLimit: int)

  predicate OmitsNone(consumed: seq<nat>, grouped: seq<Entry>) {
    forall k :: 0 <= k < |grouped| ==> AllIn(grouped[k].urls, consumed)
  }

  predicate AllIn(urls: seq<nat>, consumed: seq<nat>) {
    forall url :: url in urls ==> url in consumed
  }

  /** Nothing unresolved is committed over, and no journal row left out. */
  predicate MayCommit(s: Campaign, consumed: seq<nat>) {
    var grouped := Fold(s.rows, s.base.first);
    !s.base.inflight && grouped.Some? && !HasPending(grouped.value) && OmitsNone(consumed, grouped.value)
  }

  function Next(s: Campaign, e: Event): Campaign {
    match e
    case Write(record, authorized, outcome) => s.(rows := Journaled(s.base, s.rows, record, authorized, outcome))
    case Commit(published, consumed, inflight, retryLimit) =>
      if !MayCommit(s, consumed) then s
      else
        var history := Projected(s.base.history, Fold(s.rows, s.base.first).value);
        if history.None? then s
        else Campaign(Base(history.value, inflight, retryLimit, consumed, s.base.first + |s.rows| + published), [])
  }

  function After(s: Campaign, events: seq<Event>): Campaign {
    if events == [] then s else Next(After(s, events[..|events| - 1]), events[|events| - 1])
  }

  /** In every run of intents, results and checkpoints, with lost appends and lost
      replies and retries, the journal stays orderly and history only grows. */
  lemma {:induction false} EveryRunIsOrderly(base: Base, events: seq<Event>)
    ensures var s := After(Campaign(base, []), events);
      Sound(s.base, s.rows) && OnlyGrows(base.history, s.base.history)
    ensures events != [] ==>
      var n := |events| - 1;
      After(Campaign(base, []), events) == Next(After(Campaign(base, []), events[..n]), events[n])
  {
    hide Sound, OnlyGrows, Next;
    if events == [] {
      EmptyIsSound(base);
      GrowsNotAtAll(base.history);
    } else {
      EveryRunIsOrderly(base, events[..|events| - 1]);
      var s, e := After(Campaign(base, []), events[..|events| - 1]), events[|events| - 1];
      StepIsOrderly(s, e);
      GrowsTwice(base.history, s.base.history, Next(s, e).base.history);
    }
  }

  lemma EmptyIsSound(base: Base)
    ensures Sound(base, [])
  {
  }

  lemma GrowsNotAtAll(history: History)
    ensures OnlyGrows(history, history)
  {
  }

  lemma StepIsOrderly(s: Campaign, e: Event)
    requires Sound(s.base, s.rows)
    ensures var t := Next(s, e); Sound(t.base, t.rows) && OnlyGrows(s.base.history, t.base.history)
  {
    hide Sound, OnlyGrows, Journaled, ProjectAll, ByAttempt, Fold;
    GrowsNotAtAll(s.base.history);
    match e
    case Write(record, authorized, outcome) => JournalKeepsOrder(s.base, s.rows, record, authorized, outcome);
    case Commit(_, consumed, _, _) =>
      if MayCommit(s, consumed) && Projected(s.base.history, Fold(s.rows, s.base.first).value).Some? {
        EmptyIsSound(Next(s, e).base);
        ProjectionOnlyGrows(s.base.history, ByAttempt(Fold(s.rows, s.base.first).value));
      }
  }

  /** The history speaks only of rows already on the log. */
  ghost predicate KnowsThePast(history: History, first: nat) {
    forall key: string, url: nat :: InHistory(history, key, url) ==> url < first
  }

  /** Along every run the history speaks only of rows before the boundary, so no row
      after it is there already. */
  lemma {:induction false} EveryRunKnowsThePast(base: Base, events: seq<Event>)
    requires KnowsThePast(base.history, base.first)
    ensures var s := After(Campaign(base, []), events); KnowsThePast(s.base.history, s.base.first)
  {
    if events != [] {
      hide KnowsThePast, Journaled, Fold;
      EveryRunKnowsThePast(base, events[..|events| - 1]);
      EveryRunIsOrderly(base, events[..|events| - 1]);
      var s, e := After(Campaign(base, []), events[..|events| - 1]), events[|events| - 1];
      if e.Commit? && Next(s, e) != s {
        CommittedProvenance(s, e);
        StillThePast(s, Next(s, e));
      }
    }
  }

  lemma StillThePast(s: Campaign, t: Campaign)
    requires KnowsThePast(s.base.history, s.base.first) && Provenance(s, t) && s.base.first + |s.rows| <= t.base.first
    ensures KnowsThePast(t.base.history, t.base.first)
  {
    forall key: string, url: nat | InHistory(t.base.history, key, url)
      ensures url < t.base.first
    {
      assert Accounted(s, t, key, url);
    }
  }

  /** A key's provenance is what it was and the rows of that key since. */
  ghost predicate Provenance(s: Campaign, t: Campaign) {
    forall key: string, url: nat :: Accounted(s, t, key, url)
  }

  ghost predicate Accounted(s: Campaign, t: Campaign, key: string, url: nat) {
    InHistory(t.base.history, key, url) <==> InHistory(s.base.history, key, url) || RowOf(s.rows, s.base.first, key, url)
  }

  lemma CommittedProvenance(s: Campaign, e: Event)
    requires Sound(s.base, s.rows) && e.Commit? && MayCommit(s, e.consumed)
    requires Projected(s.base.history, Fold(s.rows, s.base.first).value).Some?
    ensures Provenance(s, Next(s, e)) && s.base.first + |s.rows| <= Next(s, e).base.first
  {
    hide Fold, ProjectAll, InHistory, RowOf, Spoken;
    var order := ByAttempt(Fold(s.rows, s.base.first).value);
    SoundIsArranged(s.base, s.rows);
    ProjectionConsumes(s.base.history, order);
    forall key, url
      ensures Accounted(s, Next(s, e), key, url)
    {
      SpokenAreRows(s.rows, s.base.first, order, key, url);
    }
  }

  /** The state says it consumed every row since the boundary. */
  predicate ConsumesAll(consumed: seq<nat>, first: nat, n: nat) {
    forall url: nat :: first <= url < first + n ==> url in consumed
  }

  lemma {:induction false} OmitsNoneIsConsumesAll(rows: seq<Record>, first: nat, consumed: seq<nat>)
    requires Fold(rows, first).Some?
    ensures OmitsNone(consumed, Fold(rows, first).value) <==> ConsumesAll(consumed, first, |rows|)
  {
    hide Fold, Place;
    var grouped := Fold(rows, first).value;
    EveryRowIsFiled(rows, first);
    if OmitsNone(consumed, grouped) {
      forall url: nat | first <= url < first + |rows|
        ensures url in consumed
      {
        assert Heard(grouped, rows[url - first]);
        var k := Place(grouped, rows[url - first]);
        assert SpeaksOf(grouped[k], rows, first, url);
        assert AllIn(grouped[k].urls, consumed);
      }
    }
    if ConsumesAll(consumed, first, |rows|) {
      forall k | 0 <= k < |grouped|
        ensures AllIn(grouped[k].urls, consumed)
      {
        forall url | url in grouped[k].urls
          ensures url in consumed
        {
          assert SpeaksOf(grouped[k], rows, first, url);
        }
      }
    }
  }

  /** In every run a checkpoint commits exactly when nothing is unresolved and its
      state consumes every journal row since the boundary: its projection is never
      refused. Each of those rows is then in its own key's provenance, where it was
      not before, and each key's row tells of its last attempt. */
  lemma {:induction false} ResolvedLogsCommit(base: Base, events: seq<Event>, published: nat, consumed: seq<nat>, inflight: bool, retryLimit: int)
    requires KnowsThePast(base.history, base.first)
    ensures var s := After(Campaign(base, []), events);
      var t := Next(s, Commit(published, consumed, inflight, retryLimit));
      && Fold(s.rows, s.base.first).Some?
      && if !s.base.inflight && !HasPending(Fold(s.rows, s.base.first).value) && ConsumesAll(consumed, s.base.first, |s.rows|) then
           && t.rows == [] && t.base.first == s.base.first + |s.rows| + published
           && t.base.inflight == inflight && t.base.retryLimit == retryLimit && t.base.consumed == consumed
           && Tells(s.base, Fold(s.rows, s.base.first).value, t.base.history)
           && Provenance(s, t) && KnowsThePast(s.base.history, s.base.first)
         else t == s
  {
    var s := After(Campaign(base, []), events);
    var e := Commit(published, consumed, inflight, retryLimit);
    EveryRunIsOrderly(base, events);
    EveryRunKnowsThePast(base, events);
    hide OnlyGrows, After, Tells, ProjectAll, Fold, Orderly, KnowsThePast, Provenance, ByAttempt;
    EveryOrderlyLogProjects(s.base, s.rows);
    OmitsNoneIsConsumesAll(s.rows, s.base.first, consumed);
    if MayCommit(s, consumed) {
      CommittedProvenance(s, e);
    }
  }

  /** The list `checkpoint` draws up itself leaves no row out. */
  function DrawnUp(grouped: seq<Entry>): (consumed: seq<nat>) {
    if grouped == [] then [] else DrawnUp(grouped[..|grouped| - 1]) + grouped[|grouped| - 1].urls
  }

  lemma {:induction false} DrawnUpOmitsNone(grouped: seq<Entry>)
    ensures OmitsNone(DrawnUp(grouped), grouped)
  {
    if grouped != [] {
      var rest := grouped[..|grouped| - 1];
      DrawnUpOmitsNone(rest);
      forall k | 0 <= k < |grouped|
        ensures AllIn(grouped[k].urls, DrawnUp(grouped))
      {
        assert k < |rest| ==> AllIn(rest[k].urls, DrawnUp(rest)) && grouped[k] == rest[k];
      }
    }
  }

  lemma {:induction false} SoundIsArranged(base: Base, rows: seq<Record>)
    requires Sound(base, rows)
    ensures Fold(rows, base.first).Some? && Arranged(Fold(rows, base.first).value, ByAttempt(Fold(rows, base.first).value))
  {
    ArrangedAll(base, Fold(rows, base.first).value);
  }

  // -------------------------------------------------------------- intents, retried

  function PendingOf(grouped: seq<Entry>, key: string): (i: nat)
    ensures i <= |grouped|
    ensures i < |grouped| ==> grouped[i].record.key == key && grouped[i].record.status == Pending
    ensures forall k :: 0 <= k < i ==> !(grouped[k].record.key == key && grouped[k].record.status == Pending)
  {
    if grouped == [] || (grouped[0].record.key == key && grouped[0].record.status == Pending) then 0
    else 1 + PendingOf(grouped[1..], key)
  }

  /** The attempt `intent` asks for: the one still pending, or the next. */
  function IntentAttempt(grouped: seq<Entry>, key: string, historical: nat): int {
    var i := PendingOf(grouped, key);
    if i < |grouped| then grouped[i].record.attempt else Latest(grouped, key, historical) + 1
  }

  lemma {:induction false} FoldedFromRows(rows: seq<Record>, first: nat)
    requires Fold(rows, first).Some?
    ensures forall i :: 0 <= i < |Fold(rows, first).value| ==> Fold(rows, first).value[i].record in rows
  {
    if rows != [] {
      FoldedFromRows(rows[..|rows| - 1], first);
      assert rows == rows[..|rows| - 1] + [rows[|rows| - 1]];
    }
  }

  /** Asked again after its reply was lost, an intent finds its own pending record and
      appends nothing. */
  lemma {:induction false} IntentFindsItself(base: Base, rows: seq<Record>, i: nat, historical: nat, authorized: bool, outcome: Outcome)
    requires Sound(base, rows) && i < |Fold(rows, base.first).value| && Fold(rows, base.first).value[i].record.status == Pending
    ensures var (grouped, record) := (Fold(rows, base.first).value, Fold(rows, base.first).value[i].record);
      && record.attempt == IntentAttempt(grouped, record.key, historical)
      && Journaled(base, rows, record, authorized, outcome) == rows
  {
    var grouped := Fold(rows, base.first).value;
    var p := PendingOf(grouped, grouped[i].record.key);
    assert p == i;
    FoldedFromRows(rows, base.first);
  }

  // ------------------------------------------------- what is admitted, by the rows

  /** The row's attempt has its outcome on the log. */
  ghost predicate Resolved(rows: seq<Record>, row: Record) {
    exists j :: 0 <= j < |rows| && Same(rows[j], row) && rows[j].status != Pending
  }

  ghost predicate AllResolved(rows: seq<Record>) {
    forall i :: 0 <= i < |rows| && rows[i].status == Pending ==> Resolved(rows, rows[i])
  }

  ghost predicate HasRow(rows: seq<Record>, key: string, attempt: int) {
    exists i :: 0 <= i < |rows| && rows[i].key == key && rows[i].attempt == attempt
  }

  /** The attempt after the greatest there has been, in history or since. */
  ghost predicate IsNext(rows: seq<Record>, key: string, historical: nat, attempt: int) {
    && historical < attempt && (forall i :: 0 <= i < |rows| && rows[i].key == key ==> rows[i].attempt < attempt)
    && (attempt == historical + 1 || HasRow(rows, key, attempt - 1))
  }

  ghost predicate KeyIsOpen(base: Base, rows: seq<Record>, key: string) {
    && (forall i :: 0 <= i < |rows| && rows[i].key == key ==> rows[i].status != Succeeded)
    && (key in base.history && (forall i :: 0 <= i < |rows| ==> rows[i].key != key) ==>
          base.history[key].lastStatus == Failed)
  }

  /** What the folded entries say of the rows. */
  lemma {:induction false} EntriesAreRows(rows: seq<Record>, first: nat, key: string)
    requires Fold(rows, first).Some?
    ensures var grouped := Fold(rows, first).value;
      && (HasPending(grouped) <==> !AllResolved(rows))
      && (HasKey(grouped, key) <==> exists i :: 0 <= i < |rows| && rows[i].key == key)
      && (HasSuccess(grouped, key) <==> exists i :: 0 <= i < |rows| && rows[i].key == key && rows[i].status == Succeeded)
      && (forall attempt: int :: HasAttempt(grouped, key, attempt) <==> HasRow(rows, key, attempt))
  {
    hide Fold;
    var grouped := Fold(rows, first).value;
    forall i | 0 <= i < |rows|
      ensures IsSpoken(grouped, rows[i])
    {
      RowIsSpoken(rows, first, i);
    }
    forall k | 0 <= k < |grouped|
      ensures EntryStands(rows, grouped[k].record)
    {
      EntryIsARow(rows, first, k);
    }
    PendingIsUnresolved(grouped, rows);
    hide Place, Heard, Resolved, Same;
    if i :| 0 <= i < |rows| && rows[i].key == key {
      assert IsSpoken(grouped, rows[i]);
    }
    if i :| 0 <= i < |rows| && rows[i].key == key && rows[i].status == Succeeded {
      assert IsSpoken(grouped, rows[i]);
    }
    forall attempt: int
      ensures HasAttempt(grouped, key, attempt) <==> HasRow(rows, key, attempt)
    {
      if i :| 0 <= i < |rows| && rows[i].key == key && rows[i].attempt == attempt {
        assert IsSpoken(grouped, rows[i]);
      }
      if k :| 0 <= k < |grouped| && grouped[k].record.key == key && grouped[k].record.attempt == attempt {
        assert EntryStands(rows, grouped[k].record);
      }
    }
    if k :| 0 <= k < |grouped| && grouped[k].record.key == key {
      assert EntryStands(rows, grouped[k].record);
    }
    if k :| 0 <= k < |grouped| && grouped[k].record.key == key && grouped[k].record.status == Succeeded {
      assert EntryStands(rows, grouped[k].record);
    }
  }

  /** A row's attempt is among the entries, with the row's own status unless it was
      resolved since. */
  ghost predicate IsSpoken(grouped: seq<Entry>, row: Record) {
    exists k :: 0 <= k < |grouped| && grouped[k].record.key == row.key && grouped[k].record.attempt == row.attempt
      && grouped[k].record.payload == row.payload
      && (grouped[k].record == row || (row.status == Pending && grouped[k].record.status != Pending))
  }

  /** An entry's record is a row, and while it is pending no row resolves it. */
  ghost predicate EntryStands(rows: seq<Record>, record: Record) {
    && (exists i :: 0 <= i < |rows| && rows[i] == record)
    && (record.status == Pending ==> !Resolved(rows, record))
  }

  lemma {:induction false} RowIsSpoken(rows: seq<Record>, first: nat, i: nat)
    requires Fold(rows, first).Some? && i < |rows|
    ensures IsSpoken(Fold(rows, first).value, rows[i])
  {
    hide Fold;
    EveryRowIsFiled(rows, first);
    var grouped := Fold(rows, first).value;
    assert Heard(grouped, rows[i]);
    var k := Place(grouped, rows[i]);
    assert grouped[k].record.key == rows[i].key;
  }

  lemma {:induction false} EntryIsARow(rows: seq<Record>, first: nat, k: nat)
    requires Fold(rows, first).Some? && k < |Fold(rows, first).value|
    ensures EntryStands(rows, Fold(rows, first).value[k].record)
  {
    hide Fold;
    EveryRowIsFiled(rows, first);
    FoldedFromRows(rows, first);
    var grouped := Fold(rows, first).value;
    var record := grouped[k].record;
    if record.status == Pending && Resolved(rows, record) {
      var j :| 0 <= j < |rows| && Same(rows[j], record) && rows[j].status != Pending;
      assert Heard(grouped, rows[j]);
      PlaceIsTheOnly(grouped, rows[j], k);
    }
  }

  lemma {:induction false} PlaceIsTheOnly(grouped: seq<Entry>, row: Record, k: nat)
    requires k < |grouped| && Same(grouped[k].record, row)
    requires forall i, j :: 0 <= i < j < |grouped| ==> !Same(grouped[i].record, grouped[j].record)
    ensures Place(grouped, row) == k
  {
    var p := Place(grouped, row);
    assert p < k ==> !Same(grouped[p].record, grouped[k].record);
  }

  lemma PendingIsUnresolved(grouped: seq<Entry>, rows: seq<Record>)
    requires forall i :: 0 <= i < |rows| ==> IsSpoken(grouped, rows[i])
    requires forall k :: 0 <= k < |grouped| ==> EntryStands(rows, grouped[k].record)
    ensures HasPending(grouped) <==> !AllResolved(rows)
  {
    if k :| 0 <= k < |grouped| && grouped[k].record.status == Pending {
      assert EntryStands(rows, grouped[k].record);
    }
    if i :| 0 <= i < |rows| && rows[i].status == Pending && !Resolved(rows, rows[i]) {
      assert IsSpoken(grouped, rows[i]);
      forall k | 0 <= k < |grouped| && grouped[k].record.status != Pending
        ensures !Same(grouped[k].record, rows[i])
      {
        assert EntryStands(rows, grouped[k].record);
      }
    }
  }

  lemma {:induction false} NextIsAfterTheLatest(grouped: seq<Entry>, rows: seq<Record>, key: string, historical: nat, attempt: int)
    requires forall n: int :: HasAttempt(grouped, key, n) <==> HasRow(rows, key, n)
    ensures attempt == Latest(grouped, key, historical) + 1 <==> IsNext(rows, key, historical, attempt)
  {
    var n := Latest(grouped, key, historical);
    forall i | 0 <= i < |rows| && rows[i].key == key
      ensures rows[i].attempt <= n
    {
      assert HasRow(rows, key, rows[i].attempt);
    }
    assert n != historical ==> HasAttempt(grouped, key, n);
    if IsNext(rows, key, historical, attempt) {
      assert HasRow(rows, key, attempt - 1) <==> HasAttempt(grouped, key, attempt - 1);
      assert HasAttempt(grouped, key, n) ==> HasRow(rows, key, n);
    }
  }

  lemma {:induction false} NotThere(rows: seq<Record>, first: nat, record: Record)
    requires Fold(rows, first).Some? && forall i :: 0 <= i < |rows| ==> !Same(rows[i], record)
    ensures Place(Fold(rows, first).value, record) == |Fold(rows, first).value|
  {
    hide Fold;
    FoldedFromRows(rows, first);
  }

  /** A new attempt is admitted exactly when its count is known and nothing is in
      flight or unresolved, its key has not succeeded, the attempt is the next one and
      within the limit, the last one allowed included. */
  lemma IntentIsAdmittedExactlyWhen(base: Base, rows: seq<Record>, record: Record)
    requires Sound(base, rows) && record.status == Pending
    requires forall i :: 0 <= i < |rows| ==> !Same(rows[i], record)
    ensures Admitted(base, rows, record) <==>
      && (record.key in base.history ==> base.history[record.key].attempts.Some?)
      && !base.inflight && AllResolved(rows) && KeyIsOpen(base, rows, record.key)
      && IsNext(rows, record.key, if record.key in base.history then base.history[record.key].attempts.value else 0, record.attempt)
      && record.attempt <= base.retryLimit
  {
    hide Orderly, Fold, Latest, AllResolved, HasPending, IsNext;
    var grouped := Fold(rows, base.first).value;
    NotThere(rows, base.first, record);
    EntriesAreRows(rows, base.first, record.key);
    FoldsIntent(rows, base.first, record);
    if Historical(base.history, record.key).Some? {
      var historical := Historical(base.history, record.key).value;
      NextIsAfterTheLatest(grouped, rows, record.key, historical, record.attempt);
      NextIsPositive(rows, record.key, historical, record.attempt);
    }
  }

  lemma NextIsPositive(rows: seq<Record>, key: string, historical: nat, attempt: int)
    ensures IsNext(rows, key, historical, attempt) ==> attempt >= 1
  {
  }

  lemma {:induction false} FoldsIntent(rows: seq<Record>, first: nat, record: Record)
    requires Fold(rows, first).Some? && record.status == Pending
    requires Place(Fold(rows, first).value, record) == |Fold(rows, first).value|
    ensures Fold(rows + [record], first).Some? <==> record.attempt >= 1
  {
    assert (rows + [record])[..|rows|] == rows;
  }

  /** A result is admitted exactly when its evidence is there, its attempt is on the
      log under the same payload, and no other outcome of it is. */
  lemma ResultIsAdmittedExactlyWhen(base: Base, rows: seq<Record>, record: Record)
    requires Sound(base, rows) && record.status != Pending
    ensures Admitted(base, rows, record) <==>
      && record.evidence != []
      && (exists i :: 0 <= i < |rows| && Same(rows[i], record))
      && (forall i :: 0 <= i < |rows| && Same(rows[i], record) ==>
            rows[i].payload == record.payload && (rows[i].status != Pending ==> rows[i] == record))
  {
    hide Orderly, Fold, MayBegin;
    var grouped := Fold(rows, base.first).value;
    FoldsResult(rows, base.first, record);
    EveryRowIsFiled(rows, base.first);
    FoldedFromRows(rows, base.first);
    var p := Place(grouped, record);
    forall i | 0 <= i < |rows| && Same(rows[i], record)
      ensures Heard(grouped, rows[i]) && Place(grouped, rows[i]) == p
    {
      PlaceOfSame(grouped, rows[i], record);
    }
    if p < |grouped| {
      assert grouped[p].record in rows;
      SoundIsKnown(base, grouped, p);
    }
  }

  lemma SoundIsKnown(base: Base, grouped: seq<Entry>, k: nat)
    requires Orderly(base, grouped) && k < |grouped|
    ensures Historical(base.history, grouped[k].record.key).Some? && grouped[k].record.attempt >= 1
  {
    assert Continues(base, grouped, grouped[k].record);
  }

  lemma {:induction false} FoldsResult(rows: seq<Record>, first: nat, record: Record)
    requires Fold(rows, first).Some? && record.status != Pending
    ensures var grouped := Fold(rows, first).value;
      var p := Place(grouped, record);
      Fold(rows + [record], first).Some? <==>
        && record.attempt >= 1 && record.evidence != [] && p < |grouped| && grouped[p].record.payload == record.payload
        && (grouped[p].record == record || grouped[p].record.status == Pending)
  {
    assert (rows + [record])[..|rows|] == rows;
  }

  /** `intent` asks for the attempt its key has unresolved, or for the next one. */
  lemma {:induction false} IntentAsksFor(base: Base, rows: seq<Record>, key: string, historical: nat)
    requires Sound(base, rows) && Historical(base.history, key) == Some(historical)
    ensures var attempt := IntentAttempt(Fold(rows, base.first).value, key, historical);
      if exists i :: 0 <= i < |rows| && rows[i].key == key && rows[i].status == Pending && !Resolved(rows, rows[i])
      then exists i :: 0 <= i < |rows| && rows[i].key == key && rows[i].attempt == attempt
                       && rows[i].status == Pending && !Resolved(rows, rows[i])
      else IsNext(rows, key, historical, attempt)
  {
    hide Orderly, Fold, Latest, IsNext;
    var grouped := Fold(rows, base.first).value;
    EntriesAreRows(rows, base.first, key);
    var p := PendingOf(grouped, key);
    if p < |grouped| {
      EntryIsARow(rows, base.first, p);
      var i :| 0 <= i < |rows| && rows[i] == grouped[p].record;
    } else {
      forall i | 0 <= i < |rows| && rows[i].key == key && rows[i].status == Pending
        ensures Resolved(rows, rows[i])
      {
        ResolvedUnlessPending(rows, base.first, i);
      }
      NextIsAfterTheLatest(grouped, rows, key, historical, Latest(grouped, key, historical) + 1);
    }
  }

  lemma {:induction false} ResolvedUnlessPending(rows: seq<Record>, first: nat, i: nat)
    requires Fold(rows, first).Some? && i < |rows| && rows[i].status == Pending
    requires forall k :: 0 <= k < |Fold(rows, first).value| ==>
      !(Fold(rows, first).value[k].record.key == rows[i].key && Fold(rows, first).value[k].record.status == Pending)
    ensures Resolved(rows, rows[i])
  {
    hide Fold;
    RowIsSpoken(rows, first, i);
    var grouped := Fold(rows, first).value;
    var k :| 0 <= k < |grouped| && grouped[k].record.key == rows[i].key && grouped[k].record.attempt == rows[i].attempt
      && grouped[k].record.payload == rows[i].payload
      && (grouped[k].record == rows[i] || (rows[i].status == Pending && grouped[k].record.status != Pending));
    EntryIsARow(rows, first, k);
    var j :| 0 <= j < |rows| && rows[j] == grouped[k].record;
    assert Same(rows[j], rows[i]);
  }

  /** So with nothing else open, an intent within the limit is on the log after one
      answered call. */
  lemma {:induction false} FreshIntentGoesThrough(base: Base, rows: seq<Record>, key: string, payload: Payload, historical: nat)
    requires Sound(base, rows) && Historical(base.history, key) == Some(historical)
    requires !base.inflight && AllResolved(rows) && KeyIsOpen(base, rows, key)
    requires IntentAttempt(Fold(rows, base.first).value, key, historical) <= base.retryLimit
    ensures var asked := Record(key, IntentAttempt(Fold(rows, base.first).value, key, historical), Pending, [], payload);
      Journaled(base, rows, asked, true, P.Replied) == rows + [asked]
  {
    var asked := Record(key, IntentAttempt(Fold(rows, base.first).value, key, historical), Pending, [], payload);
    IntentAsksFor(base, rows, key, historical);
    hide Sound, Admitted, IntentAttempt, KeyIsOpen;
    IntentIsAdmittedExactlyWhen(base, rows, asked);
  }

  // ------------------------------------------------------------ on the comment log

  function Name(status: Status): string {
    match status
    case Pending => "pending"
    case Succeeded => "succeeded"
    case Failed => "failed"
  }

  /** A record's comment says what operation it is, and no two records share one. */
  ghost predicate Legible(kind: P.Text -> P.Kind, render: Record -> P.Text) {
    && (forall r :: kind(render(r)) == P.Operation(r.key, r.attempt, Name(r.status)))
    && (forall a, b :: render(a) == render(b) ==> a == b)
  }

  function Rendered(render: Record -> P.Text, rows: seq<Record>): (texts: seq<P.Text>)
    ensures |texts| == |rows| && forall i :: 0 <= i < |rows| ==> texts[i] == render(rows[i])
  {
    if rows == [] then [] else Rendered(render, rows[..|rows| - 1]) + [render(rows[|rows| - 1])]
  }

  /** What `append_once` is asked to append. */
  function ClaimOf(writer: string, render: Record -> P.Text, record: Record, boundary: nat): P.Claim {
    P.Claim(writer, None, P.OperationId(record.key, record.attempt, Name(record.status)), render(record), boundary)
  }

  /** An admitted record shares its operation, attempt and status only with itself. */
  lemma AdmittedIsTheOne(base: Base, rows: seq<Record>, record: Record)
    requires Admitted(base, rows, record)
    ensures forall i :: 0 <= i < |rows| && Same(rows[i], record) && rows[i].status == record.status ==> rows[i] == record
  {
    hide MayBegin, Fold;
    EveryRowIsFiled(rows, base.first);
    var grouped := Fold(rows, base.first).value;
    FoldsOnto(rows, record, base.first);
    forall i | 0 <= i < |rows| && Same(rows[i], record) && rows[i].status == record.status
      ensures rows[i] == record
    {
      assert Heard(grouped, rows[i]);
      PlaceOfSame(grouped, rows[i], record);
    }
  }

  lemma {:induction false} FoldsOnto(rows: seq<Record>, record: Record, first: nat)
    requires Fold(rows, first).Some? && Fold(rows + [record], first).Some?
    ensures FoldOne(Fold(rows, first).value, record, first + |rows|).Some?
  {
    assert (rows + [record])[..|rows|] == rows;
  }

  lemma {:induction false} PlaceOfSame(grouped: seq<Entry>, a: Record, b: Record)
    requires Same(a, b)
    ensures Place(grouped, a) == Place(grouped, b)
  {
    if grouped != [] {
      PlaceOfSame(grouped[1..], a, b);
    }
  }

  /** On the rendered log a row is of this record's identity exactly when it is the
      record's own attempt and status. */
  lemma {:induction false} RenderedRow(kind: P.Text -> P.Kind, render: Record -> P.Text, prefix: seq<P.Text>, rows: seq<Record>,
                    record: Record, writer: string, url: nat)
    requires Legible(kind, render) && prefix != [] && |prefix| <= url < |prefix| + |rows|
    ensures var log, claim := prefix + Rendered(render, rows), ClaimOf(writer, render, record, |prefix| - 1);
      && log[url] == render(rows[url - |prefix|])
      && P.Admits(kind(log[url]), claim.writer, claim.allow)
      && (P.Matches(kind(log[url]), claim.identity)
          <==> Same(rows[url - |prefix|], record) && rows[url - |prefix|].status == record.status)
  {
    var row := rows[url - |prefix|];
    assert kind(render(row)) == P.Operation(row.key, row.attempt, Name(row.status));
    NamesDiffer(row.status, record.status);
  }

  /** What a look at the rendered log finds of an admitted record: itself, or nothing. */
  lemma {:induction false} LookFindsItself(kind: P.Text -> P.Kind, render: Record -> P.Text, prefix: seq<P.Text>, rows: seq<Record>,
                        record: Record, writer: string)
    requires Legible(kind, render) && prefix != []
    requires forall i :: 0 <= i < |rows| && Same(rows[i], record) && rows[i].status == record.status ==> rows[i] == record
    ensures var look := P.Observe(kind, prefix + Rendered(render, rows), ClaimOf(writer, render, record, |prefix| - 1), true);
      && look.Ok? && (look.value == [] <==> record !in rows)
      && (forall url: nat :: url in look.value <==> OwnRow(prefix, rows, record, url))
  {
    var log, claim := prefix + Rendered(render, rows), ClaimOf(writer, render, record, |prefix| - 1);
    NothingInTheWay(kind, render, prefix, rows, record, writer);
    var urls := P.Found(kind, log, claim, |log|);
    forall url: nat
      ensures url in urls <==> OwnRow(prefix, rows, record, url)
      ensures url in urls ==> url < |log| && log[url] == claim.text
    {
      if |prefix| <= url < |log| {
        RenderedRow(kind, render, prefix, rows, record, writer, url);
      }
    }
    hide Legible, P.BoundaryHolds, P.Found, Rendered, OwnRow;
    NoneAmong(prefix, rows, record, urls);
    forall i | 0 <= i < |urls|
      ensures urls[i] < |log| && log[urls[i]] == claim.text
    {
      assert urls[i] in urls;
    }
  }

  lemma {:induction false} NothingInTheWay(kind: P.Text -> P.Kind, render: Record -> P.Text, prefix: seq<P.Text>, rows: seq<Record>,
                        record: Record, writer: string)
    requires Legible(kind, render) && prefix != []
    ensures P.BoundaryHolds(kind, prefix + Rendered(render, rows), ClaimOf(writer, render, record, |prefix| - 1))
  {
    var log, claim := prefix + Rendered(render, rows), ClaimOf(writer, render, record, |prefix| - 1);
    hide Legible, P.Admits, Rendered;
    forall u | claim.boundary < u < |log|
      ensures P.Admits(kind(log[u]), claim.writer, claim.allow)
    {
      RenderedRow(kind, render, prefix, rows, record, writer, u);
    }
  }

  /** The URL of a row that is this very record. */
  predicate OwnRow(prefix: seq<P.Text>, rows: seq<Record>, record: Record, url: nat) {
    |prefix| <= url < |prefix| + |rows| && rows[url - |prefix|] == record
  }

  lemma NoneAmong(prefix: seq<P.Text>, rows: seq<Record>, record: Record, urls: seq<nat>)
    requires forall url: nat :: url in urls <==> OwnRow(prefix, rows, record, url)
    ensures urls == [] <==> record !in rows
  {
    if record in rows {
      var i :| 0 <= i < |rows| && rows[i] == record;
      assert OwnRow(prefix, rows, record, |prefix| + i);
    }
    assert urls != [] ==> urls[0] in urls;
  }

  lemma NamesDiffer(a: Status, b: Status)
    ensures Name(a) == Name(b) <==> a == b
  {
    assert Name(Pending)[0] == 'p' && Name(Succeeded)[0] == 's' && Name(Failed)[0] == 'f';
  }

  /** A journal call is an `append_once` of the record's own identity: with no one
      else publishing meanwhile, the log it leaves and its success are those of the
      look, the append and the look again. */
  lemma {:induction false} JournaledIsAppendedOnce(kind: P.Text -> P.Kind, render: Record -> P.Text, prefix: seq<P.Text>, base: Base,
                                rows: seq<Record>, record: Record, writer: string, outcome: Outcome)
    requires Legible(kind, render) && prefix != [] && Admitted(base, rows, record)
    ensures var (log, r) := P.Tried(kind, prefix + Rendered(render, rows), ClaimOf(writer, render, record, |prefix| - 1),
                                    P.World([], true, [], outcome, [], true));
      && log == prefix + Rendered(render, Journaled(base, rows, record, true, outcome))
      && (r.Ok? <==> record in Journaled(base, rows, record, true, outcome))
  {
    hide Admitted, Legible, P.Observe, Rendered;
    var log := prefix + Rendered(render, rows);
    AdmittedIsTheOne(base, rows, record);
    LookFindsItself(kind, render, prefix, rows, record, writer);
    assert log + [] == log;
    if record !in rows {
      OneMoreRendered(render, prefix, rows, record);
      NewAmong(rows, record);
      assert log + [render(record)] + [] == log + [render(record)];
      LookFindsItself(kind, render, prefix, rows + [record], record, writer);
      assert OwnRow(prefix, rows + [record], record, |log|);
    }
  }

  lemma {:induction false} OneMoreRendered(render: Record -> P.Text, prefix: seq<P.Text>, rows: seq<Record>, record: Record)
    ensures prefix + Rendered(render, rows + [record]) == prefix + Rendered(render, rows) + [render(record)]
  {
    assert (rows + [record])[..|rows|] == rows;
  }

  lemma NewAmong(rows: seq<Record>, record: Record)
    requires forall i :: 0 <= i < |rows| && Same(rows[i], record) && rows[i].status == record.status ==> rows[i] == record
    ensures var after := rows + [record];
      forall i :: 0 <= i < |after| && Same(after[i], record) && after[i].status == record.status ==> after[i] == record
  {
  }

  class Journal {
    var rows: seq<Record>

    constructor ()
      ensures rows == []
    {
      rows := [];
    }

    /** `Publisher.journal`; `there` when the record is known to be on the log. */
    method Write(base: Base, record: Record, authorized: bool, outcome: Outcome) returns (there: bool)
      modifies this
      ensures rows == Journaled(base, old(rows), record, authorized, outcome)
      ensures there <==> authorized && Admitted(base, old(rows), record) && (record in old(rows) || !outcome.Vanished?)
    {
      hide FoldOne, Place, MayBegin;
      var grouped := FoldOperations(rows, base.first);
      var historical := Historical(base.history, record.key);
      if !authorized || grouped.None? || historical.None? {
        return false;
      }
      var proposed := FoldOperations(rows + [record], base.first);
      if proposed.None? {
        return false;
      }
      if record.status == Pending && Place(grouped.value, record) == |grouped.value| {
        if !MayBegin(base, grouped.value, record, historical.value) {
          return false;
        }
      }
      if record in rows {
        return true;
      }
      if !outcome.Vanished? {
        rows := rows + [record];
      }
      return !outcome.Vanished?;
    }

    /** `intent`: the attempt still pending asked for again, or the next one begun. */
    method Intent(base: Base, key: string, payload: Payload, authorized: bool, outcome: Outcome) returns (record: Option<Record>)
      modifies this
      ensures Fold(old(rows), base.first).Some? && Historical(base.history, key).Some? ==>
        var asked := Record(key, IntentAttempt(Fold(old(rows), base.first).value, key, Historical(base.history, key).value), Pending, [], payload);
        rows == Journaled(base, old(rows), asked, authorized, outcome) && (record.Some? ==> record.value == asked && asked in rows)
      ensures Fold(old(rows), base.first).None? || Historical(base.history, key).None? ==> rows == old(rows) && record.None?
    {
      hide Admitted, FoldOne;
      var grouped := FoldOperations(rows, base.first);
      var historical := Historical(base.history, key);
      if grouped.None? || historical.None? {
        return None;
      }
      var asked := Record(key, IntentAttempt(grouped.value, key, historical.value), Pending, [], payload);
      var there := Write(base, asked, authorized, outcome);
      return if there then Some(asked) else None;
    }

    /** `result`: the same identity, with what was observed. */
    method Result(base: Base, pending: Record, status: Status, evidence: seq<string>, authorized: bool, outcome: Outcome) returns (there: bool)
      modifies this
      ensures status == Pending || evidence == [] ==> rows == old(rows) && !there
      ensures status != Pending && evidence != [] ==>
        rows == Journaled(base, old(rows), pending.(status := status, evidence := evidence), authorized, outcome)
    {
      if status == Pending || evidence == [] {
        return false;
      }
      there := Write(base, pending.(status := status, evidence := evidence), authorized, outcome);
    }
  }
}
