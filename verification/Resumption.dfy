/** That publishing gets done: undisturbed, and however often it was interrupted
    before, an attempt finishes; beside a stranger it appends nothing of its own. */
module Resumption {
  import opened PartedPublication
  import opened Publication
  import opened Wrappers

  /** A row no publication minds: an operation, or no record of the campaign. */
  predicate IsPlain(row: Kind) {
    row.Operation? || row.Other?
  }

  ghost predicate AllPlain(kind: Text -> Kind, rows: seq<Text>) {
    forall i :: 0 <= i < |rows| ==> IsPlain(kind(rows[i]))
  }

  /** Part `i` first stands at `url`, with its own bytes. */
  ghost predicate FirstAt(log: seq<Text>, f: Frozen, i: nat, url: nat)
    requires i < |f.parts|
  {
    && f.boundary < url < |log| && log[url] == f.parts[i]
    && forall u :: f.boundary < u < url ==> log[u] != f.parts[i]
  }

  ghost predicate FirstsAt(log: seq<Text>, f: Frozen, urls: seq<nat>) {
    |urls| <= |f.parts| && forall i :: 0 <= i < |urls| ==> FirstAt(log, f, i, urls[i])
  }

  /** The record naming each part where it first stands. */
  ghost predicate IsRecord(log: seq<Text>, f: Frozen, text: Text) {
    exists urls: seq<nat> :: RecordOf(log, f, text, urls)
  }

  ghost predicate RecordOf(log: seq<Text>, f: Frozen, text: Text, urls: seq<nat>) {
    |urls| == |f.parts| && FirstsAt(log, f, urls) && text == f.final(urls)
  }

  /** After the boundary stand only plain rows, the publication's own parts, and its
      own record. */
  ghost predicate Undisturbed(kind: Text -> Kind, log: seq<Text>, f: Frozen) {
    f.boundary < |log| && forall u: nat :: f.boundary < u < |log| ==> Belongs(kind, log, f, log[u])
  }

  ghost predicate Belongs(kind: Text -> Kind, log: seq<Text>, f: Frozen, row: Text) {
    IsPlain(kind(row)) || row in f.parts || IsRecord(log, f, row)
  }

  /** Others add only plain rows meanwhile. */
  ghost predicate IsCalm(kind: Text -> Kind, w: World) {
    AllPlain(kind, w.earlier) && AllPlain(kind, w.between) && AllPlain(kind, w.later)
  }

  /** And nothing goes wrong but a lost reply: both looks are admitted, and what is
      appended lands. */
  ghost predicate IsSmooth(kind: Text -> Kind, w: World) {
    IsCalm(kind, w) && w.firstAdmitted && w.secondAdmitted && w.outcome != Vanished
  }

  // -------------------------------------------------------------- as the log grows

  lemma FirstStays(log: seq<Text>, after: seq<Text>, f: Frozen, i: nat, url: nat)
    requires i < |f.parts| && log <= after && FirstAt(log, f, i, url)
    ensures FirstAt(after, f, i, url)
  {
  }

  lemma FirstsStay(log: seq<Text>, after: seq<Text>, f: Frozen, urls: seq<nat>)
    requires log <= after && FirstsAt(log, f, urls)
    ensures FirstsAt(after, f, urls)
  {
    hide FirstAt;
    forall i | 0 <= i < |urls|
      ensures FirstAt(after, f, i, urls[i])
    {
      FirstStays(log, after, f, i, urls[i]);
    }
  }

  lemma RecordStays(log: seq<Text>, after: seq<Text>, f: Frozen, text: Text)
    requires log <= after && IsRecord(log, f, text)
    ensures IsRecord(after, f, text)
  {
    hide FirstsAt;
    var urls :| RecordOf(log, f, text, urls);
    FirstsStay(log, after, f, urls);
    assert RecordOf(after, f, text, urls);
  }

  /** A part has one first place. */
  lemma OneFirst(log: seq<Text>, f: Frozen, one: seq<nat>, other: seq<nat>)
    requires FirstsAt(log, f, one) && FirstsAt(log, f, other) && |one| == |other|
    ensures one == other
  {
    forall i | 0 <= i < |one|
      ensures one[i] == other[i]
    {
      assert FirstAt(log, f, i, one[i]) && FirstAt(log, f, i, other[i]);
    }
  }

  lemma StillUndisturbed(kind: Text -> Kind, log: seq<Text>, more: seq<Text>, f: Frozen)
    requires Undisturbed(kind, log, f)
    requires forall i :: 0 <= i < |more| ==> Belongs(kind, log, f, more[i])
    ensures Undisturbed(kind, log + more, f)
  {
    hide IsRecord, IsPlain;
    forall u: nat | f.boundary < u < |log + more|
      ensures Belongs(kind, log + more, f, (log + more)[u])
    {
      var row := (log + more)[u];
      assert row == if u < |log| then log[u] else more[u - |log|];
      assert Belongs(kind, log, f, row);
      if IsRecord(log, f, row) {
        RecordStays(log, log + more, f, row);
      }
    }
  }

  lemma PlainRowsBelong(kind: Text -> Kind, log: seq<Text>, more: seq<Text>, f: Frozen)
    requires Undisturbed(kind, log, f) && AllPlain(kind, more)
    ensures Undisturbed(kind, log + more, f)
  {
    hide Undisturbed, IsPlain, IsRecord;
    StillUndisturbed(kind, log, more, f);
  }

  // ------------------------------------------------------------------- the looks

  /** What a row that belongs can be. */
  lemma BelongsIs(kind: Text -> Kind, log: seq<Text>, f: Frozen, row: Text)
    requires WellKept(kind, f) && Belongs(kind, log, f, row)
    ensures kind(row).Part? ==> kind(row).writer == f.writer && kind(row).key == Some(f.key)
    ensures kind(row).Part? ==> 0 <= kind(row).index < |f.parts| && row == f.parts[kind(row).index]
    ensures kind(row).Checkpoint? ==> kind(row).key == Some(f.key) && IsRecord(log, f, row)
    ensures !kind(row).Malformed?
  {
    hide FirstsAt;
    if row in f.parts {
      var i :| 0 <= i < |f.parts| && f.parts[i] == row;
      assert kind(f.parts[i]) == Part(f.writer, Some(f.key), i);
    } else if IsRecord(log, f, row) {
      var urls :| RecordOf(log, f, row, urls);
      assert kind(f.final(urls)) == Checkpoint(Some(f.key));
    }
  }

  lemma NoStranger(kind: Text -> Kind, log: seq<Text>, f: Frozen, claim: Claim)
    requires WellKept(kind, f) && Undisturbed(kind, log, f)
    requires claim.writer == f.writer && claim.allow == Some(f.key) && claim.boundary == f.boundary
    ensures !HasStranger(kind, log, claim)
  {
    hide WellKept, Belongs;
    forall u: nat | f.boundary < u < |log|
      ensures !IsStranger(kind(log[u]), claim.writer, claim.allow)
    {
      assert Belongs(kind, log, f, log[u]);
      BelongsIs(kind, log, f, log[u]);
    }
  }

  /** An admitted look for a part finds it where it first stands, or nowhere. */
  lemma LookForPart(kind: Text -> Kind, log: seq<Text>, f: Frozen, i: nat)
    requires WellKept(kind, f) && Undisturbed(kind, log, f) && i < |f.parts|
    ensures var look := Observe(kind, log, PartClaim(f, i), true);
      && look.Ok?
      && (forall u: nat :: u in look.value <==> f.boundary < u < |log| && log[u] == f.parts[i])
      && (look.value != [] ==> FirstAt(log, f, i, look.value[0]))
  {
    var claim := PartClaim(f, i);
    NoStranger(kind, log, f, claim);
    LookAnswersExactly(kind, log, claim, true);
    assert kind(f.parts[i]) == Part(f.writer, Some(f.key), i);
    hide WellKept, Belongs, Observe, HasStranger;
    forall u: nat
      ensures IsOwn(kind, log, claim, u) <==> f.boundary < u < |log| && log[u] == f.parts[i]
    {
      if f.boundary < u < |log| {
        assert Belongs(kind, log, f, log[u]);
        BelongsIs(kind, log, f, log[u]);
      }
    }
    hide IsOwn, Undisturbed;
    var look := Observe(kind, log, claim, true);
    FoundFirst(log, f, i, look.value);
  }

  lemma FoundFirst(log: seq<Text>, f: Frozen, i: nat, urls: seq<nat>)
    requires i < |f.parts|
    requires forall u: nat :: u in urls <==> f.boundary < u < |log| && log[u] == f.parts[i]
    requires forall j, k :: 0 <= j < k < |urls| ==> urls[j] < urls[k]
    ensures urls != [] ==> FirstAt(log, f, i, urls[0])
  {
    if urls != [] {
      assert urls[0] in urls;
      HeadIsLeast(urls);
    }
  }

  lemma HeadIsLeast(urls: seq<nat>)
    requires urls != [] && forall j, k :: 0 <= j < k < |urls| ==> urls[j] < urls[k]
    ensures forall u :: u in urls ==> urls[0] <= u
  {
    forall u | u in urls
      ensures urls[0] <= u
    {
      var k :| 0 <= k < |urls| && urls[k] == u;
    }
  }

  /** An admitted look for the record, its parts being in place, finds that record or
      nothing. */
  lemma LookForRecord(kind: Text -> Kind, log: seq<Text>, f: Frozen, urls: seq<nat>)
    requires WellKept(kind, f) && Undisturbed(kind, log, f) && FirstsAt(log, f, urls) && |urls| == |f.parts|
    ensures var look := Observe(kind, log, FinalClaim(f, urls), true);
      look.Ok? && forall u: nat :: u in look.value <==> f.boundary < u < |log| && log[u] == f.final(urls)
  {
    var claim := FinalClaim(f, urls);
    NoStranger(kind, log, f, claim);
    LookAnswersExactly(kind, log, claim, true);
    assert kind(f.final(urls)) == Checkpoint(Some(f.key));
    hide WellKept, Belongs, Observe, HasStranger, FirstsAt;
    forall u: nat
      ensures IsOwn(kind, log, claim, u) <==> f.boundary < u < |log| && log[u] == f.final(urls)
    {
      if f.boundary < u < |log| && kind(log[u]).Checkpoint? {
        assert Belongs(kind, log, f, log[u]);
        BelongsIs(kind, log, f, log[u]);
        var other :| RecordOf(log, f, log[u], other);
        OneFirst(log, f, urls, other);
      }
    }
    hide IsOwn, Undisturbed;
  }

  // ----------------------------------------------------------------- the appends

  /** Where an append leaves the log, when what it appends belongs. */
  lemma AppendBelongs(kind: Text -> Kind, log: seq<Text>, f: Frozen, claim: Claim, w: World)
    requires Undisturbed(kind, log, f) && IsCalm(kind, w) && Belongs(kind, log, f, claim.text)
    ensures Undisturbed(kind, log + w.earlier, f)
    ensures Undisturbed(kind, Sent(log + w.earlier + w.between, claim.text, w.outcome) + w.later, f)
  {
    hide Undisturbed, AllPlain, Belongs, IsRecord;
    var (seen, before) := (log + w.earlier, log + w.earlier + w.between);
    PlainRowsBelong(kind, log, w.earlier, f);
    PlainRowsBelong(kind, seen, w.between, f);
    BelongsStill(kind, log, before, f, claim.text);
    StillUndisturbed(kind, before, [claim.text], f);
    PlainRowsBelong(kind, Sent(before, claim.text, w.outcome), w.later, f);
  }

  lemma BelongsStill(kind: Text -> Kind, log: seq<Text>, after: seq<Text>, f: Frozen, row: Text)
    requires Belongs(kind, log, f, row) && log <= after
    ensures Belongs(kind, after, f, row)
  {
    hide IsRecord;
    if IsRecord(log, f, row) {
      RecordStays(log, after, f, row);
    }
  }

  /** The look after an append that landed finds it, answered or not. */
  lemma TriedPart(kind: Text -> Kind, log: seq<Text>, f: Frozen, i: nat, w: World)
    requires WellKept(kind, f) && Undisturbed(kind, log, f) && IsCalm(kind, w) && i < |f.parts|
    ensures var (after, r) := Tried(kind, log, PartClaim(f, i), w);
      && Undisturbed(kind, after, f) && log <= after
      && (r.Ok? ==> FirstAt(after, f, i, r.value))
      && (IsSmooth(kind, w) ==> r.Ok?)
  {
    var (claim, seen) := (PartClaim(f, i), log + w.earlier);
    AppendBelongs(kind, log, f, claim, w);
    var after := Sent(seen + w.between, claim.text, w.outcome) + w.later;
    LookForPart(kind, seen, f, i);
    LookForPart(kind, after, f, i);
    PlainIsNoPart(kind, f, i, w.between);
    hide WellKept, Undisturbed, Observe, Belongs, IsPlain;
    var first := Observe(kind, seen, claim, w.firstAdmitted);
    NotAdmitted(kind, seen, claim);
    NotAdmitted(kind, after, claim);
    if first.Ok? && first.value == [] && w.outcome != Vanished {
      NewIsFirst(seen, w.between, f, i, w.later);
      assert after[|seen| + |w.between|] == f.parts[i];
    }
  }

  lemma NotAdmitted(kind: Text -> Kind, log: seq<Text>, claim: Claim)
    ensures Observe(kind, log, claim, false) == Err(BoundaryRefused)
  {
  }

  lemma PlainIsNoPart(kind: Text -> Kind, f: Frozen, i: nat, rows: seq<Text>)
    requires WellKept(kind, f) && AllPlain(kind, rows) && i < |f.parts|
    ensures f.parts[i] !in rows
  {
    assert kind(f.parts[i]) == Part(f.writer, Some(f.key), i);
  }

  lemma NewIsFirst(seen: seq<Text>, between: seq<Text>, f: Frozen, i: nat, later: seq<Text>)
    requires i < |f.parts| && f.boundary < |seen| && f.parts[i] !in between
    requires forall u :: f.boundary < u < |seen| ==> seen[u] != f.parts[i]
    ensures FirstAt(seen + between + [f.parts[i]] + later, f, i, |seen| + |between|)
  {
    var after := seen + between + [f.parts[i]] + later;
    forall u | f.boundary < u < |seen| + |between|
      ensures after[u] != f.parts[i]
    {
      assert after[u] == if u < |seen| then seen[u] else between[u - |seen|];
    }
  }

  lemma {:induction false} PartsFinish(kind: Text -> Kind, log: seq<Text>, f: Frozen, ws: seq<World>, urls: seq<nat>)
    requires WellKept(kind, f) && Undisturbed(kind, log, f) && FirstsAt(log, f, urls) && |ws| == |f.parts|
    requires forall i :: 0 <= i < |ws| ==> IsCalm(kind, ws[i])
    ensures var (after, r) := PartsTried(kind, log, f, ws, urls);
      && Undisturbed(kind, after, f) && log <= after
      && (r.Ok? ==> |r.value| == |f.parts| && FirstsAt(after, f, r.value))
      && ((forall i :: 0 <= i < |ws| ==> IsSmooth(kind, ws[i])) ==> r.Ok?)
    decreases |f.parts| - |urls|
  {
    hide WellKept, Undisturbed, FirstAt, Tried, IsCalm;
    if |urls| < |f.parts| {
      TriedPart(kind, log, f, |urls|, ws[|urls|]);
      var (after, r) := Tried(kind, log, PartClaim(f, |urls|), ws[|urls|]);
      if r.Ok? {
        FirstsStay(log, after, f, urls);
        PartsFinish(kind, after, f, ws, urls + [r.value]);
        PrefixOfPrefix(log, after, PartsTried(kind, after, f, ws, urls + [r.value]).0);
      }
    }
  }

  lemma TriedRecord(kind: Text -> Kind, log: seq<Text>, f: Frozen, urls: seq<nat>, w: World)
    requires WellKept(kind, f) && Undisturbed(kind, log, f) && IsCalm(kind, w)
    requires FirstsAt(log, f, urls) && |urls| == |f.parts|
    ensures var (after, r) := Tried(kind, log, FinalClaim(f, urls), w);
      && Undisturbed(kind, after, f) && log <= after
      && (IsSmooth(kind, w) ==> r.Ok?)
  {
    var (claim, seen) := (FinalClaim(f, urls), log + w.earlier);
    assert RecordOf(log, f, claim.text, urls);
    AppendBelongs(kind, log, f, claim, w);
    var after := Sent(seen + w.between, claim.text, w.outcome) + w.later;
    FirstsStay(log, seen, f, urls);
    FirstsStay(log, after, f, urls);
    LookForRecord(kind, seen, f, urls);
    LookForRecord(kind, after, f, urls);
    hide WellKept, Undisturbed, Observe, Belongs, IsPlain, FirstsAt;
    NotAdmitted(kind, seen, claim);
    BoundaryInside(kind, log, f);
    if w.outcome != Vanished {
      assert after[|seen| + |w.between|] == claim.text;
    }
  }

  lemma BoundaryInside(kind: Text -> Kind, log: seq<Text>, f: Frozen)
    requires Undisturbed(kind, log, f)
    ensures f.boundary < |log|
  {
  }

  // ------------------------------------------------------------- whole attempts

  ghost predicate CalmAttempt(kind: Text -> Kind, a: Attempt, f: Frozen) {
    |a.parts| == |f.parts| && IsCalm(kind, a.final) && forall i :: 0 <= i < |a.parts| ==> IsCalm(kind, a.parts[i])
  }

  ghost predicate SmoothAttempt(kind: Text -> Kind, a: Attempt, f: Frozen) {
    |a.parts| == |f.parts| && IsSmooth(kind, a.final) && forall i :: 0 <= i < |a.parts| ==> IsSmooth(kind, a.parts[i])
  }

  lemma AttemptFinishes(kind: Text -> Kind, log: seq<Text>, f: Frozen, a: Attempt)
    requires WellKept(kind, f) && Undisturbed(kind, log, f) && CalmAttempt(kind, a, f)
    ensures var (after, r) := Attempted(kind, log, f, a);
      Undisturbed(kind, after, f) && (SmoothAttempt(kind, a, f) ==> r.Ok?)
  {
    hide WellKept, Undisturbed, FirstAt, Tried, PartsTried, IsCalm, IsSmooth;
    PartsFinish(kind, log, f, a.parts, []);
    var (after, urls) := PartsTried(kind, log, f, a.parts, []);
    if urls.Ok? {
      TriedRecord(kind, after, f, urls.value, a.final);
    }
  }

  /** Undisturbed by other publishers, a publication that was refused, cut off or left
      without a reply any number of times finishes on its first smooth attempt. */
  lemma {:induction false} InterruptedPublicationFinishes(kind: Text -> Kind, log: seq<Text>, f: Frozen,
                                       attempts: seq<Attempt>, last: Attempt)
    requires WellKept(kind, f) && Undisturbed(kind, log, f)
    requires forall i :: 0 <= i < |attempts| ==> |attempts[i].parts| == |f.parts|
    requires forall i :: 0 <= i < |attempts| ==> CalmAttempt(kind, attempts[i], f)
    requires SmoothAttempt(kind, last, f)
    ensures Attempted(kind, Resumed(kind, log, f, attempts), f, last).1.Ok?
  {
    ResumedUndisturbed(kind, log, f, attempts);
    hide WellKept, Undisturbed, Attempted, Resumed;
    AttemptFinishes(kind, Resumed(kind, log, f, attempts), f, last);
  }

  lemma {:induction false} ResumedUndisturbed(kind: Text -> Kind, log: seq<Text>, f: Frozen, attempts: seq<Attempt>)
    requires WellKept(kind, f) && Undisturbed(kind, log, f)
    requires forall i :: 0 <= i < |attempts| ==> |attempts[i].parts| == |f.parts|
    requires forall i :: 0 <= i < |attempts| ==> CalmAttempt(kind, attempts[i], f)
    ensures Undisturbed(kind, Resumed(kind, log, f, attempts), f)
  {
    hide WellKept, Undisturbed, Attempted, IsCalm;
    if attempts != [] {
      var before := attempts[..|attempts| - 1];
      ResumedUndisturbed(kind, log, f, before);
      AttemptFinishes(kind, Resumed(kind, log, f, before), f, attempts[|attempts| - 1]);
    }
  }

  /** What the world does before the first look. */
  function FirstWorld(a: Attempt): World {
    if a.parts == [] then a.final else a.parts[0]
  }

  /** Beside a stranger after the boundary an attempt appends nothing of its own and is
      refused. */
  lemma StrangersRefuse(kind: Text -> Kind, log: seq<Text>, f: Frozen, a: Attempt, u: nat)
    requires |a.parts| == |f.parts|
    requires f.boundary < u < |log + FirstWorld(a).earlier|
    requires var row := kind((log + FirstWorld(a).earlier)[u]);
      || (row.Part? && (row.writer != f.writer || row.key != Some(f.key)))
      || (row.Checkpoint? && row.key != Some(f.key))
      || row.Malformed?
    ensures Attempted(kind, log, f, a) == (log + FirstWorld(a).earlier, Err(BoundaryRefused))
  {
    hide Observe;
    var w := FirstWorld(a);
    var claim := if a.parts == [] then FinalClaim(f, []) else PartClaim(f, 0);
    assert HasStranger(kind, log + w.earlier, claim);
    LookAnswersExactly(kind, log + w.earlier, claim, w.firstAdmitted);
    assert Tried(kind, log, claim, w) == (log + w.earlier, Err(BoundaryRefused));
  }
}
