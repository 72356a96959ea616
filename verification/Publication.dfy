/** Publishing onto the campaign's append-only comment log: look, append, look again,
    among other publishers and under lost replies. */
module Publication {
  import opened Wrappers

  type Byte = b: int | 0 <= b < 256

  /** A comment, as the bytes of its UTF-8 text. */
  type Text = seq<Byte>

  /** What a row's text says it is, once its marker and record are read. */
  datatype Kind =
    | Checkpoint(key: Option<string>)
    | Part(writer: string, key: Option<string>, index: int)
    | Operation(operationKey: string, attempt: int, status: string)
    | Other
    | Malformed

  /** The fields `append_once` searches by. */
  datatype Identity =
    | CheckpointId(key: string)
    | PartId(key: string, index: int)
    | OperationId(operationKey: string, attempt: int, status: string)

  predicate Matches(kind: Kind, identity: Identity) {
    match identity
    case CheckpointId(key) => kind == Checkpoint(Some(key))
    case PartId(key, index) => kind.Part? && kind.key == Some(key) && kind.index == index
    case OperationId(operationKey, attempt, status) => kind == Operation(operationKey, attempt, status)
  }

  /** One append: what it says, how it is recognised, after which row. */
  datatype Claim = Claim(writer: string, allow: Option<string>, identity: Identity, text: Text, boundary: nat)

  datatype Refusal = BoundaryRefused | DifferentBytes | Uncertain | NotReadBack | OtherPublicationPending

  // --------------------------------------------------------------------- looking

  /** A row after the boundary that this publication may stand beside. */
  predicate Admits(kind: Kind, writer: string, allow: Option<string>) {
    match kind
    case Checkpoint(key) => key == allow
    case Part(owner, key, _) => owner == writer && key == allow
    case Malformed => false
    case _ => true
  }

  predicate BoundaryHolds(kind: Text -> Kind, log: seq<Text>, claim: Claim) {
    && claim.boundary < |log|
    && forall i :: claim.boundary < i < |log| ==> Admits(kind(log[i]), claim.writer, claim.allow)
  }

  /** The rows in [boundary + 1, upTo) of this identity. */
  function Found(kind: Text -> Kind, log: seq<Text>, claim: Claim, upTo: nat): (urls: seq<nat>)
    requires upTo <= |log|
    ensures forall url: nat :: url in urls <==> claim.boundary < url < upTo && Matches(kind(log[url]), claim.identity)
    ensures forall i, j :: 0 <= i < j < |urls| ==> urls[i] < urls[j]
  {
    if upTo == 0 then []
    else
      var before := Found(kind, log, claim, upTo - 1);
      assert forall i :: 0 <= i < |before| ==> before[i] in before;
      assert forall url: nat :: url in before + [upTo - 1] <==> url in before || url == upTo - 1;
      if claim.boundary < upTo - 1 && Matches(kind(log[upTo - 1]), claim.identity) then before + [upTo - 1] else before
  }

  predicate SameBytes(log: seq<Text>, urls: seq<nat>, text: Text) {
    forall i :: 0 <= i < |urls| ==> urls[i] < |log| && log[urls[i]] == text
  }

  /** `observed`; `admitted` stands for the checks that read no publication: the
      sibling, the fold of operations, ownership and the clock. */
  function Observe(kind: Text -> Kind, log: seq<Text>, claim: Claim, admitted: bool): Result<seq<nat>, Refusal> {
    if !admitted || !BoundaryHolds(kind, log, claim) then Err(BoundaryRefused)
    else
      var urls := Found(kind, log, claim, |log|);
      if !SameBytes(log, urls, claim.text) then Err(DifferentBytes) else Ok(urls)
  }

  // ------------------------------------------------------ what stops a publisher

  /** A row a publication may not stand beside: another key's checkpoint, another
      writer's or another key's part, or one that cannot be read. */
  ghost predicate IsStranger(row: Kind, writer: string, allow: Option<string>) {
    || (row.Checkpoint? && row.key != allow)
    || (row.Part? && (row.writer != writer || row.key != allow))
    || row.Malformed?
  }

  ghost predicate HasStranger(kind: Text -> Kind, log: seq<Text>, claim: Claim) {
    exists u :: claim.boundary < u < |log| && IsStranger(kind(log[u]), claim.writer, claim.allow)
  }

  /** A row of this record's own identity, after the boundary. */
  ghost predicate IsOwn(kind: Text -> Kind, log: seq<Text>, claim: Claim, u: nat) {
    && claim.boundary < u < |log|
    && match claim.identity
       case CheckpointId(key) => kind(log[u]).Checkpoint? && kind(log[u]).key == Some(key)
       case PartId(key, index) => kind(log[u]).Part? && kind(log[u]).key == Some(key) && kind(log[u]).index == index
       case OperationId(operationKey, attempt, status) =>
         && kind(log[u]).Operation? && kind(log[u]).operationKey == operationKey
         && kind(log[u]).attempt == attempt && kind(log[u]).status == status
  }

  /** Exactly what a look answers: refused when the other checks refuse, the boundary
      is not on the log or a stranger stands after it; refused when a row of this
      identity has other bytes; else where this record stands, oldest first. */
  lemma LookAnswersExactly(kind: Text -> Kind, log: seq<Text>, claim: Claim, admitted: bool)
    ensures var look := Observe(kind, log, claim, admitted);
      && (look == Err(BoundaryRefused) <==> !admitted || claim.boundary >= |log| || HasStranger(kind, log, claim))
      && (look == Err(DifferentBytes) <==>
            && admitted && claim.boundary < |log| && !HasStranger(kind, log, claim)
            && exists u: nat :: IsOwn(kind, log, claim, u) && log[u] != claim.text)
      && (look.Err? ==> look.error == BoundaryRefused || look.error == DifferentBytes)
      && (look.Ok? ==>
            && (forall u: nat :: u in look.value <==> IsOwn(kind, log, claim, u))
            && (forall i, j :: 0 <= i < j < |look.value| ==> look.value[i] < look.value[j]))
  {
    StrangersStop(kind, log, claim);
    if BoundaryHolds(kind, log, claim) {
      var urls := Found(kind, log, claim, |log|);
      forall u: nat
        ensures u in urls <==> IsOwn(kind, log, claim, u)
      {
      }
      hide Found, BoundaryHolds, IsOwn;
      if !SameBytes(log, urls, claim.text) {
        var i :| 0 <= i < |urls| && !(urls[i] < |log| && log[urls[i]] == claim.text);
        assert urls[i] in urls;
        OwnIsThere(kind, log, claim, urls[i]);
      }
      if u: nat :| IsOwn(kind, log, claim, u) && log[u] != claim.text {
        assert u in urls;
        var i :| 0 <= i < |urls| && urls[i] == u;
      }
    }
  }

  lemma OwnIsThere(kind: Text -> Kind, log: seq<Text>, claim: Claim, u: nat)
    requires IsOwn(kind, log, claim, u)
    ensures claim.boundary < u < |log|
  {
  }

  lemma StrangersStop(kind: Text -> Kind, log: seq<Text>, claim: Claim)
    ensures BoundaryHolds(kind, log, claim) <==> claim.boundary < |log| && !HasStranger(kind, log, claim)
  {
    forall u | claim.boundary < u < |log|
      ensures Admits(kind(log[u]), claim.writer, claim.allow) <==> !IsStranger(kind(log[u]), claim.writer, claim.allow)
    {
    }
    hide Admits, IsStranger;
  }

  // ------------------------------------------------------------ one append, alone

  datatype Outcome = Replied | LandedReplyLost | Vanished

  /** What the world does meanwhile: rows of others, and the fate of the append. */
  datatype World = World(earlier: seq<Text>, firstAdmitted: bool, between: seq<Text>, outcome: Outcome,
                         later: seq<Text>, secondAdmitted: bool)

  function Sent(log: seq<Text>, text: Text, outcome: Outcome): seq<Text> {
    if outcome == Vanished then log else log + [text]
  }

  function Settled(look: Result<seq<nat>, Refusal>, outcome: Outcome, url: nat): Result<nat, Refusal> {
    if look.Err? then Err(look.error)
    else if outcome == Replied then if url in look.value then Ok(url) else Err(NotReadBack)
    else if look.value == [] then Err(Uncertain) else Ok(look.value[0])
  }

  /** `append_once`, under one world. */
  function Tried(kind: Text -> Kind, log: seq<Text>, claim: Claim, w: World): (seq<Text>, Result<nat, Refusal>) {
    var seen := log + w.earlier;
    var first := Observe(kind, seen, claim, w.firstAdmitted);
    if first.Err? then (seen, Err(first.error))
    else if first.value != [] then (seen, Ok(first.value[0]))
    else
      var sent := Sent(seen + w.between, claim.text, w.outcome);
      var after := sent + w.later;
      (after, Settled(Observe(kind, after, claim, w.secondAdmitted), w.outcome, |seen| + |w.between|))
  }

  /** The first checkpoint after the boundary. */
  ghost predicate FirstCheckpoint(kind: Text -> Kind, log: seq<Text>, boundary: nat, url: nat) {
    && boundary < url < |log| && kind(log[url]).Checkpoint?
    && forall i :: boundary < i < url ==> !kind(log[i]).Checkpoint?
  }

  /** The publication's own bytes are the first checkpoint after its boundary. */
  ghost predicate Committed(kind: Text -> Kind, log: seq<Text>, boundary: nat, text: Text) {
    exists url: nat :: FirstCheckpoint(kind, log, boundary, url) && log[url] == text
  }

  function FirstOf(kind: Text -> Kind, log: seq<Text>, boundary: nat, upTo: nat): (url: nat)
    requires boundary < upTo < |log| && kind(log[upTo]).Checkpoint?
    ensures FirstCheckpoint(kind, log, boundary, url) && url <= upTo
  {
    FirstFrom(kind, log, boundary, boundary + 1, upTo)
  }

  function FirstFrom(kind: Text -> Kind, log: seq<Text>, boundary: nat, from: nat, upTo: nat): (url: nat)
    requires boundary < from <= upTo < |log| && kind(log[upTo]).Checkpoint?
    requires forall i :: boundary < i < from ==> !kind(log[i]).Checkpoint?
    ensures FirstCheckpoint(kind, log, boundary, url) && url <= upTo
    decreases upTo - from
  {
    if kind(log[from]).Checkpoint? then from else FirstFrom(kind, log, boundary, from + 1, upTo)
  }

  /** A look that finds the publication finds it first: whatever checkpoint comes
      before it carries the same key, so the same bytes. */
  lemma LookCommits(kind: Text -> Kind, log: seq<Text>, claim: Claim, admitted: bool)
    requires claim.identity.CheckpointId? && claim.allow == Some(claim.identity.key)
    requires var look := Observe(kind, log, claim, admitted); look.Ok? && look.value != []
    ensures Committed(kind, log, claim.boundary, claim.text)
    ensures var url := Observe(kind, log, claim, admitted).value[0]; url < |log| && log[url] == claim.text
  {
    hide FirstCheckpoint;
    var urls := Observe(kind, log, claim, admitted).value;
    assert urls[0] in urls;
    var url := FirstOf(kind, log, claim.boundary, urls[0]);
    FirstIsAdmitted(kind, log, claim, url);
    assert url in urls;
    var i :| 0 <= i < |urls| && urls[i] == url;
  }

  lemma FirstIsAdmitted(kind: Text -> Kind, log: seq<Text>, claim: Claim, url: nat)
    requires BoundaryHolds(kind, log, claim) && FirstCheckpoint(kind, log, claim.boundary, url)
    ensures claim.boundary < url < |log| && kind(log[url]) == Checkpoint(claim.allow)
  {
    assert Admits(kind(log[url]), claim.writer, claim.allow);
  }

  /** Nothing appended later changes what came first. */
  lemma CommitmentsLast(kind: Text -> Kind, log: seq<Text>, more: seq<Text>, boundary: nat, text: Text)
    requires Committed(kind, log, boundary, text)
    ensures Committed(kind, log + more, boundary, text)
  {
    var url: nat :| FirstCheckpoint(kind, log, boundary, url) && log[url] == text;
    assert forall i :: 0 <= i < |log| ==> (log + more)[i] == log[i];
    assert FirstCheckpoint(kind, log + more, boundary, url);
  }

  /** A boundary has one first checkpoint. */
  lemma OneChild(kind: Text -> Kind, log: seq<Text>, boundary: nat, one: Text, other: Text)
    requires Committed(kind, log, boundary, one) && Committed(kind, log, boundary, other)
    ensures one == other
  {
    var a: nat :| FirstCheckpoint(kind, log, boundary, a) && log[a] == one;
    var b: nat :| FirstCheckpoint(kind, log, boundary, b) && log[b] == other;
  }

  /** A successful checkpoint publication committed its own bytes. */
  lemma TriedCommits(kind: Text -> Kind, log: seq<Text>, claim: Claim, w: World)
    requires PublishesCheckpoint(claim) && Tried(kind, log, claim, w).1.Ok?
    ensures Committed(kind, Tried(kind, log, claim, w).0, claim.boundary, claim.text)
    ensures log <= Tried(kind, log, claim, w).0
  {
    hide Committed, Observe;
    var seen := log + w.earlier;
    var first := Observe(kind, seen, claim, w.firstAdmitted);
    if first.value != [] {
      LookCommits(kind, seen, claim, w.firstAdmitted);
    } else {
      LookCommits(kind, Tried(kind, log, claim, w).0, claim, w.secondAdmitted);
    }
  }

  // ------------------------------------------------------------------ exactly once

  lemma {:induction false} FoundOnlyLooksBack(kind: Text -> Kind, log: seq<Text>, more: seq<Text>, claim: Claim, upTo: nat)
    requires upTo <= |log|
    ensures Found(kind, log + more, claim, upTo) == Found(kind, log, claim, upTo)
  {
    if upTo > 0 {
      FoundOnlyLooksBack(kind, log, more, claim, upTo - 1);
    }
  }

  function AllFound(kind: Text -> Kind, log: seq<Text>, claim: Claim): (urls: seq<nat>)
    ensures forall i :: 0 <= i < |urls| ==> urls[i] < |log|
  {
    var urls := Found(kind, log, claim, |log|);
    assert forall i :: 0 <= i < |urls| ==> urls[i] in urls;
    urls
  }

  lemma FoundAppended(kind: Text -> Kind, log: seq<Text>, text: Text, claim: Claim)
    ensures AllFound(kind, log + [text], claim)
         == AllFound(kind, log, claim) + if claim.boundary < |log| && Matches(kind(text), claim.identity) then [|log|] else []
  {
    FoundOnlyLooksBack(kind, log, [text], claim, |log|);
  }

  predicate Unlike(kind: Text -> Kind, rows: seq<Text>, identity: Identity) {
    forall i :: 0 <= i < |rows| ==> !Matches(kind(rows[i]), identity)
  }

  lemma {:induction false} FoundUnlike(kind: Text -> Kind, log: seq<Text>, more: seq<Text>, claim: Claim)
    requires Unlike(kind, more, claim.identity)
    ensures AllFound(kind, log + more, claim) == AllFound(kind, log, claim)
  {
    hide AllFound;
    if more == [] {
      assert log + more == log;
    } else {
      var rest := more[..|more| - 1];
      FoundUnlike(kind, log, rest, claim);
      FoundAppended(kind, log + rest, more[|rest|], claim);
      assert log + more == log + rest + [more[|rest|]];
    }
  }

  /** No row of anyone else carries this identity. */
  ghost predicate Foreigners(kind: Text -> Kind, w: World, identity: Identity) {
    Unlike(kind, w.earlier, identity) && Unlike(kind, w.between, identity) && Unlike(kind, w.later, identity)
  }

  /** Look before append: a record is never doubled, and once there it stays where
      it is; success means exactly one. */
  lemma TriedOnce(kind: Text -> Kind, log: seq<Text>, claim: Claim, w: World)
    requires claim.boundary < |log| && |AllFound(kind, log, claim)| <= 1
    requires Foreigners(kind, w, claim.identity)
    ensures var (after, r) := Tried(kind, log, claim, w);
      && log <= after && |AllFound(kind, after, claim)| <= 1
      && (AllFound(kind, log, claim) != [] ==> AllFound(kind, after, claim) == AllFound(kind, log, claim))
      && (r.Ok? ==> r.value < |after| && AllFound(kind, after, claim) == [r.value] && after[r.value] == claim.text)
  {
    hide AllFound, BoundaryHolds;
    var seen := log + w.earlier;
    var first := Observe(kind, seen, claim, w.firstAdmitted);
    FoundUnlike(kind, log, w.earlier, claim);
    ObserveIsFound(kind, seen, claim, w.firstAdmitted);
    if first.Ok? && first.value == [] {
      var before := seen + w.between;
      var sent := Sent(before, claim.text, w.outcome);
      FoundUnlike(kind, seen, w.between, claim);
      FoundAppended(kind, before, claim.text, claim);
      FoundUnlike(kind, sent, w.later, claim);
      ObserveIsFound(kind, sent + w.later, claim, w.secondAdmitted);
    }
  }

  lemma ObserveIsFound(kind: Text -> Kind, log: seq<Text>, claim: Claim, admitted: bool)
    ensures var look := Observe(kind, log, claim, admitted);
      look.Ok? ==>
        look.value == AllFound(kind, log, claim)
          && forall i :: 0 <= i < |look.value| ==> look.value[i] < |log| && log[look.value[i]] == claim.text
  {
  }

  /** Publishing one record leaves every other identity's rows as they were. */
  lemma TriedLeavesOthers(kind: Text -> Kind, log: seq<Text>, claim: Claim, w: World, other: Claim)
    requires !Matches(kind(claim.text), other.identity) && Foreigners(kind, w, other.identity)
    ensures AllFound(kind, Tried(kind, log, claim, w).0, other) == AllFound(kind, log, other)
  {
    hide AllFound, Observe, Matches;
    var seen := log + w.earlier;
    FoundUnlike(kind, log, w.earlier, other);
    FoundUnlike(kind, seen, w.between, other);
    FoundAppended(kind, seen + w.between, claim.text, other);
    FoundUnlike(kind, Sent(seen + w.between, claim.text, w.outcome), w.later, other);
  }

  // ----------------------------------------------------------------- in place

  /** The log as the publisher meets it. */
  class CommentLog {
    var rows: seq<Text>

    constructor (rows: seq<Text>)
      ensures this.rows == rows
    {
      this.rows := rows;
    }

    /** The publication checks of `boundary`. */
    method CheckBoundary(kind: Text -> Kind, claim: Claim) returns (holds: bool)
      ensures holds == BoundaryHolds(kind, rows, claim)
      ensures holds ==> claim.boundary < |rows|
    {
      hide Admits;
      if claim.boundary >= |rows| {
        return false;
      }
      for i := claim.boundary + 1 to |rows|
        invariant forall k :: claim.boundary < k < i ==> Admits(kind(rows[k]), claim.writer, claim.allow)
      {
        if !Admits(kind(rows[i]), claim.writer, claim.allow) {
          return false;
        }
      }
      return true;
    }

    /** `observed`: the boundary first, then every record of this identity, the first
        with other bytes ending it. */
    method Observed(kind: Text -> Kind, claim: Claim, admitted: bool) returns (r: Result<seq<nat>, Refusal>)
      ensures r == Observe(kind, rows, claim, admitted)
    {
      hide Matches, BoundaryHolds, Found;
      var holds := CheckBoundary(kind, claim);
      if !admitted || !holds {
        return Err(BoundaryRefused);
      }
      var found: seq<nat> := [];
      NoneYet(kind, rows, claim, claim.boundary + 1);
      for i := claim.boundary + 1 to |rows|
        invariant found == Found(kind, rows, claim, i)
        invariant SameBytes(rows, found, claim.text)
      {
        FoundOneMore(kind, rows, claim, i);
        if Matches(kind(rows[i]), claim.identity) {
          if rows[i] != claim.text {
            AnotherText(kind, rows, claim, i);
            return Err(DifferentBytes);
          }
          found := found + [i];
        }
      }
      return Ok(found);
    }

    method AppendOnce(kind: Text -> Kind, claim: Claim, w: World) returns (r: Result<nat, Refusal>)
      modifies this
      ensures (rows, r) == Tried(kind, old(rows), claim, w)
    {
      hide Observe;
      rows := rows + w.earlier;
      var found := Observed(kind, claim, w.firstAdmitted);
      if found.Err? {
        return Err(found.error);
      }
      if found.value != [] {
        return Ok(found.value[0]);
      }
      rows := rows + w.between;
      var url := |rows|;
      if w.outcome != Vanished {
        rows := rows + [claim.text];
      }
      rows := rows + w.later;
      found := Observed(kind, claim, w.secondAdmitted);
      if found.Err? {
        return Err(found.error);
      }
      if w.outcome != Replied {
        return if found.value == [] then Err(Uncertain) else Ok(found.value[0]);
      }
      return if url in found.value then Ok(url) else Err(NotReadBack);
    }
  }

  lemma {:induction false} NoneYet(kind: Text -> Kind, log: seq<Text>, claim: Claim, upTo: nat)
    requires upTo <= |log| && upTo <= claim.boundary + 1
    ensures Found(kind, log, claim, upTo) == []
  {
    if upTo > 0 {
      NoneYet(kind, log, claim, upTo - 1);
    }
  }

  lemma FoundOneMore(kind: Text -> Kind, log: seq<Text>, claim: Claim, i: nat)
    requires claim.boundary < i < |log|
    ensures Found(kind, log, claim, i + 1)
         == Found(kind, log, claim, i) + if Matches(kind(log[i]), claim.identity) then [i] else []
  {
  }

  lemma {:induction false} AnotherText(kind: Text -> Kind, log: seq<Text>, claim: Claim, i: nat)
    requires claim.boundary < i < |log| && Matches(kind(log[i]), claim.identity) && log[i] != claim.text
    ensures !SameBytes(log, Found(kind, log, claim, |log|), claim.text)
  {
    assert i in Found(kind, log, claim, |log|);
  }

  // ------------------------------------------------------- many publishers at once

  datatype Phase = Starting | Clear | Landed(url: nat) | Lost | Done(url: nat) | Failed

  datatype Publisher = Publisher(claim: Claim, phase: Phase)

  datatype System = System(log: seq<Text>, publishers: seq<Publisher>)

  /** A row of anyone else, or one small step of one publisher. */
  datatype Event = Foreign(text: Text) | Look(who: nat, admitted: bool) | Send(who: nat, outcome: Outcome)

  function Looked(kind: Text -> Kind, log: seq<Text>, p: Publisher, admitted: bool): Phase {
    var look := Observe(kind, log, p.claim, admitted);
    match p.phase
    case Starting =>
      if look.Err? then Failed else if look.value == [] then Clear else Done(look.value[0])
    case Landed(url) =>
      var r := Settled(look, Replied, url);
      if r.Err? then Failed else Done(r.value)
    case Lost =>
      var r := Settled(look, LandedReplyLost, 0);
      if r.Err? then Failed else Done(r.value)
    case _ => p.phase
  }

  /** One step; an event that does not apply changes nothing. */
  function Next(kind: Text -> Kind, s: System, e: Event): System {
    match e
    case Foreign(text) => s.(log := s.log + [text])
    case Look(who, admitted) =>
      if who >= |s.publishers| then s
      else
        var p := s.publishers[who];
        s.(publishers := s.publishers[who := p.(phase := Looked(kind, s.log, p, admitted))])
    case Send(who, outcome) =>
      if who >= |s.publishers| || s.publishers[who].phase != Clear then s
      else
        var p := s.publishers[who];
        System(Sent(s.log, p.claim.text, outcome),
               s.publishers[who := p.(phase := if outcome == Replied then Landed(|s.log|) else Lost)])
  }

  function After(kind: Text -> Kind, s: System, events: seq<Event>): System {
    if events == [] then s else Next(kind, After(kind, s, events[..|events| - 1]), events[|events| - 1])
  }

  /** A checkpoint publication allows exactly its own key. */
  predicate PublishesCheckpoint(claim: Claim) {
    claim.identity.CheckpointId? && claim.allow == Some(claim.identity.key)
  }

  /** Whoever has returned successfully committed the first child of its boundary. */
  ghost predicate Truthful(kind: Text -> Kind, log: seq<Text>, p: Publisher) {
    PublishesCheckpoint(p.claim) && p.phase.Done? ==> Committed(kind, log, p.claim.boundary, p.claim.text)
  }

  ghost predicate AllTruthful(kind: Text -> Kind, s: System) {
    forall i :: 0 <= i < |s.publishers| ==> Truthful(kind, s.log, s.publishers[i])
  }

  lemma LookIsTruthful(kind: Text -> Kind, log: seq<Text>, p: Publisher, admitted: bool)
    requires Truthful(kind, log, p)
    ensures Truthful(kind, log, p.(phase := Looked(kind, log, p, admitted)))
  {
    hide Committed, Observe;
    var look := Observe(kind, log, p.claim, admitted);
    if PublishesCheckpoint(p.claim) && look.Ok? && look.value != [] {
      LookCommits(kind, log, p.claim, admitted);
    }
  }

  lemma StepIsTruthful(kind: Text -> Kind, s: System, e: Event)
    requires AllTruthful(kind, s)
    ensures AllTruthful(kind, Next(kind, s, e))
  {
    hide Committed, Looked;
    var t := Next(kind, s, e);
    forall i | 0 <= i < |t.publishers|
      ensures Truthful(kind, t.log, t.publishers[i])
    {
      var p := s.publishers[i];
      assert Truthful(kind, s.log, p);
      if PublishesCheckpoint(p.claim) && p.phase.Done? {
        if t.log != s.log {
          CommitmentsLast(kind, s.log, t.log[|s.log|..], p.claim.boundary, p.claim.text);
          assert s.log + t.log[|s.log|..] == t.log;
        }
      }
      if e.Look? && e.who == i {
        LookIsTruthful(kind, s.log, p, e.admitted);
      }
    }
  }

  lemma {:induction false} EveryReachableStateIsTruthful(kind: Text -> Kind, s: System, events: seq<Event>)
    requires forall i :: 0 <= i < |s.publishers| ==> s.publishers[i].phase == Starting
    ensures AllTruthful(kind, After(kind, s, events))
  {
    hide Truthful, Next;
    if events == [] {
      NobodyDoneYet(kind, s);
    } else {
      EveryReachableStateIsTruthful(kind, s, events[..|events| - 1]);
      StepIsTruthful(kind, After(kind, s, events[..|events| - 1]), events[|events| - 1]);
    }
  }

  lemma NobodyDoneYet(kind: Text -> Kind, s: System)
    requires forall i :: 0 <= i < |s.publishers| ==> s.publishers[i].phase == Starting
    ensures AllTruthful(kind, s)
  {
  }

  /** Two different children of one boundary never both succeed, whatever the
      interleaving, the lost appends and the lost replies. */
  lemma {:induction false} NoFork(kind: Text -> Kind, s: System, events: seq<Event>, i: nat, j: nat)
    requires forall k :: 0 <= k < |s.publishers| ==> s.publishers[k].phase == Starting
    requires var t := After(kind, s, events);
      && i < |t.publishers| && j < |t.publishers|
      && PublishesCheckpoint(t.publishers[i].claim) && PublishesCheckpoint(t.publishers[j].claim)
      && t.publishers[i].phase.Done? && t.publishers[j].phase.Done?
      && t.publishers[i].claim.boundary == t.publishers[j].claim.boundary
    ensures var t := After(kind, s, events);
      t.publishers[i].claim.text == t.publishers[j].claim.text
  {
    hide Committed, After;
    EveryReachableStateIsTruthful(kind, s, events);
    var t := After(kind, s, events);
    assert Truthful(kind, t.log, t.publishers[i]) && Truthful(kind, t.log, t.publishers[j]);
    OneChild(kind, t.log, t.publishers[i].claim.boundary, t.publishers[i].claim.text, t.publishers[j].claim.text);
  }

  /** Rows are only ever added. */
  lemma {:induction false} LogOnlyGrows(kind: Text -> Kind, s: System, events: seq<Event>)
    ensures s.log <= After(kind, s, events).log && |After(kind, s, events).publishers| == |s.publishers|
  {
    hide Looked;
    if events != [] {
      LogOnlyGrows(kind, s, events[..|events| - 1]);
    }
  }

  // --------------------------------------------------- the steps are append_once

  function Rows(texts: seq<Text>): (events: seq<Event>) {
    seq(|texts|, i requires 0 <= i < |texts| => Foreign(texts[i]))
  }

  /** One world, as the steps it is made of. */
  function StepsOf(who: nat, w: World): seq<Event> {
    Rows(w.earlier) + [Look(who, w.firstAdmitted)] + (Rows(w.between) + [Send(who, w.outcome)])
      + (Rows(w.later) + [Look(who, w.secondAdmitted)])
  }

  lemma {:induction false} AfterBoth(kind: Text -> Kind, s: System, one: seq<Event>, two: seq<Event>)
    ensures After(kind, s, one + two) == After(kind, After(kind, s, one), two)
  {
    hide Next;
    if two == [] {
      assert one + two == one;
    } else {
      var rest := two[..|two| - 1];
      AfterBoth(kind, s, one, rest);
      assert (one + two)[..|one + two| - 1] == one + rest;
      assert (one + two)[|one + two| - 1] == two[|rest|];
    }
  }

  lemma {:induction false} AfterRows(kind: Text -> Kind, s: System, texts: seq<Text>)
    ensures After(kind, s, Rows(texts)) == s.(log := s.log + texts)
  {
    if texts == [] {
      assert s.log + texts == s.log;
    } else {
      var rest := texts[..|texts| - 1];
      AfterRows(kind, s, rest);
      assert Rows(texts)[..|texts| - 1] == Rows(rest);
      assert s.log + rest + [texts[|rest|]] == s.log + texts;
    }
  }

  lemma {:induction false} AfterRowsAndOne(kind: Text -> Kind, s: System, texts: seq<Text>, e: Event)
    ensures After(kind, s, Rows(texts) + [e]) == Next(kind, s.(log := s.log + texts), e)
  {
    hide Next;
    var events := Rows(texts) + [e];
    AfterRows(kind, s, texts);
    assert events[..|events| - 1] == Rows(texts);
  }

  /** A publisher stepped through a world among others ends as `append_once` does:
      done at its URL, or failed; and with its log, once it got to send. */
  lemma {:induction false} StepsAreAppendOnce(kind: Text -> Kind, s: System, who: nat, w: World)
    requires who < |s.publishers| && s.publishers[who].phase == Starting
    ensures var p, t := s.publishers[who], After(kind, s, StepsOf(who, w));
      var (after, r) := Tried(kind, s.log, p.claim, w);
      && |t.publishers| == |s.publishers|
      && t.publishers[who] == p.(phase := if r.Ok? then Done(r.value) else Failed)
      && (forall k :: 0 <= k < |s.publishers| && k != who ==> t.publishers[k] == s.publishers[k])
      && after <= t.log
      && (Observe(kind, s.log + w.earlier, p.claim, w.firstAdmitted) == Ok([]) ==> t.log == after)
  {
    hide Observe, After;
    var one := Rows(w.earlier) + [Look(who, w.firstAdmitted)];
    var two := Rows(w.between) + [Send(who, w.outcome)];
    var three := Rows(w.later) + [Look(who, w.secondAdmitted)];
    AfterBoth(kind, s, one + two, three);
    AfterBoth(kind, s, one, two);
    AfterRowsAndOne(kind, s, w.earlier, Look(who, w.firstAdmitted));
    var first := After(kind, s, one);
    AfterRowsAndOne(kind, first, w.between, Send(who, w.outcome));
    var second := After(kind, first, two);
    AfterRowsAndOne(kind, second, w.later, Look(who, w.secondAdmitted));
  }
}
