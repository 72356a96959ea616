/** Publishing a frozen checkpoint: its parts, then the record that names them, from
    the beginning again after every interruption. */
module PartedPublication {
  import opened Publication
  import opened Wrappers

  /** What the frozen file fixes: the part bodies, and the final record as a function
      of where the parts are. A complete checkpoint has no parts. */
  datatype Frozen = Frozen(writer: string, key: string, boundary: nat, parts: seq<Text>, final: seq<nat> -> Text)

  function PartClaim(f: Frozen, i: nat): Claim
    requires i < |f.parts|
  {
    Claim(f.writer, Some(f.key), PartId(f.key, i), f.parts[i], f.boundary)
  }

  function FinalClaim(f: Frozen, urls: seq<nat>): Claim {
    Claim(f.writer, Some(f.key), CheckpointId(f.key), f.final(urls), f.boundary)
  }

  /** Each part is recognised as the part it is, and the final record as a checkpoint. */
  ghost predicate WellKept(kind: Text -> Kind, f: Frozen) {
    && (forall i :: 0 <= i < |f.parts| ==> kind(f.parts[i]) == Part(f.writer, Some(f.key), i))
    && (forall urls: seq<nat> :: kind(f.final(urls)) == Checkpoint(Some(f.key)))
  }

  /** The parts still to publish, from part `|urls|` on. */
  function PartsTried(kind: Text -> Kind, log: seq<Text>, f: Frozen, ws: seq<World>, urls: seq<nat>): (seq<Text>, Result<seq<nat>, Refusal>)
    requires |urls| <= |f.parts| && |ws| == |f.parts|
    decreases |f.parts| - |urls|
  {
    if |urls| == |f.parts| then (log, Ok(urls))
    else
      var (after, r) := Tried(kind, log, PartClaim(f, |urls|), ws[|urls|]);
      if r.Err? then (after, Err(r.error)) else PartsTried(kind, after, f, ws, urls + [r.value])
  }

  /** What the world does during one attempt: once for each part, once for the record. */
  datatype Attempt = Attempt(parts: seq<World>, final: World)

  /** `Publisher.checkpoint` up to its final readback. */
  function Attempted(kind: Text -> Kind, log: seq<Text>, f: Frozen, a: Attempt): (seq<Text>, Result<nat, Refusal>)
    requires |a.parts| == |f.parts|
  {
    var (after, urls) := PartsTried(kind, log, f, a.parts, []);
    if urls.Err? then (after, Err(urls.error)) else Tried(kind, after, FinalClaim(f, urls.value), a.final)
  }

  /** Nobody else publishes under this key. */
  ghost predicate AloneAt(kind: Text -> Kind, w: World, f: Frozen) {
    && Foreigners(kind, w, CheckpointId(f.key))
    && forall i: nat :: i < |f.parts| ==> Foreigners(kind, w, PartId(f.key, i))
  }

  ghost predicate Alone(kind: Text -> Kind, a: Attempt, f: Frozen) {
    |a.parts| == |f.parts| && AloneAt(kind, a.final, f) && forall i :: 0 <= i < |a.parts| ==> AloneAt(kind, a.parts[i], f)
  }

  /** No record of this publication is in the log twice. */
  ghost predicate NoneTwice(kind: Text -> Kind, log: seq<Text>, f: Frozen) {
    && f.boundary < |log|
    && |AllFound(kind, log, FinalClaim(f, []))| <= 1
    && forall i :: 0 <= i < |f.parts| ==> OnceAtMost(kind, log, f, i)
  }

  predicate OnceAtMost(kind: Text -> Kind, log: seq<Text>, f: Frozen, i: nat)
    requires i < |f.parts|
  {
    |AllFound(kind, log, PartClaim(f, i))| <= 1
  }

  /** Part `i` is in the log exactly once, at `url`. */
  ghost predicate PartIsAt(kind: Text -> Kind, log: seq<Text>, f: Frozen, i: nat, url: nat)
    requires i < |f.parts|
  {
    AllFound(kind, log, PartClaim(f, i)) == [url] && url < |log| && log[url] == f.parts[i]
  }

  ghost predicate InPlace(kind: Text -> Kind, log: seq<Text>, f: Frozen, urls: seq<nat>) {
    |urls| <= |f.parts| && forall i :: 0 <= i < |urls| ==> PartIsAt(kind, log, f, i, urls[i])
  }

  /** What one append leaves of the publication so far. */
  ghost predicate Keeps(kind: Text -> Kind, log: seq<Text>, after: seq<Text>, f: Frozen) {
    && log <= after && NoneTwice(kind, after, f)
    && forall i: nat, url: nat :: i < |f.parts| && PartIsAt(kind, log, f, i, url) ==> PartIsAt(kind, after, f, i, url)
  }

  lemma {:induction false} TextDoesNotMatter(kind: Text -> Kind, log: seq<Text>, claim: Claim, other: Claim, upTo: nat)
    requires upTo <= |log| && claim.identity == other.identity && claim.boundary == other.boundary
    ensures Found(kind, log, claim, upTo) == Found(kind, log, other, upTo)
  {
    if upTo > 0 {
      TextDoesNotMatter(kind, log, claim, other, upTo - 1);
    }
  }

  /** Appending one part keeps all the others, and success puts it in place. */
  lemma OnePart(kind: Text -> Kind, log: seq<Text>, f: Frozen, i: nat, w: World)
    requires WellKept(kind, f) && AloneAt(kind, w, f) && NoneTwice(kind, log, f) && i < |f.parts|
    ensures var (after, r) := Tried(kind, log, PartClaim(f, i), w);
      Keeps(kind, log, after, f) && (r.Ok? ==> PartIsAt(kind, after, f, i, r.value))
  {
    hide AllFound, Tried, Foreigners;
    var claim := PartClaim(f, i);
    var after := Tried(kind, log, claim, w).0;
    assert OnceAtMost(kind, log, f, i);
    TriedOnce(kind, log, claim, w);
    TriedLeavesOthers(kind, log, claim, w, FinalClaim(f, []));
    forall j: nat | j < |f.parts| && j != i
      ensures AllFound(kind, after, PartClaim(f, j)) == AllFound(kind, log, PartClaim(f, j))
    {
      TriedLeavesOthers(kind, log, claim, w, PartClaim(f, j));
    }
    KeepsBy(kind, log, after, f, i);
  }

  lemma KeepsBy(kind: Text -> Kind, log: seq<Text>, after: seq<Text>, f: Frozen, i: nat)
    requires NoneTwice(kind, log, f) && log <= after
    requires AllFound(kind, after, FinalClaim(f, [])) == AllFound(kind, log, FinalClaim(f, []))
    requires forall j: nat :: j < |f.parts| && j != i ==> AllFound(kind, after, PartClaim(f, j)) == AllFound(kind, log, PartClaim(f, j))
    requires i < |f.parts| ==>
      && |AllFound(kind, after, PartClaim(f, i))| <= 1
      && (AllFound(kind, log, PartClaim(f, i)) != [] ==> AllFound(kind, after, PartClaim(f, i)) == AllFound(kind, log, PartClaim(f, i)))
    ensures Keeps(kind, log, after, f)
  {
    hide AllFound;
    forall j | 0 <= j < |f.parts|
      ensures OnceAtMost(kind, after, f, j)
    {
      assert OnceAtMost(kind, log, f, j);
    }
  }

  /** Appending the final record keeps every part. */
  lemma FinalKeeps(kind: Text -> Kind, log: seq<Text>, f: Frozen, urls: seq<nat>, w: World)
    requires WellKept(kind, f) && AloneAt(kind, w, f) && NoneTwice(kind, log, f)
    ensures Keeps(kind, log, Tried(kind, log, FinalClaim(f, urls), w).0, f)
  {
    hide AllFound, Tried, Foreigners, Found;
    var claim := FinalClaim(f, urls);
    var after := Tried(kind, log, claim, w).0;
    SameRows(kind, log, claim, FinalClaim(f, []));
    TriedOnce(kind, log, claim, w);
    SameRows(kind, after, claim, FinalClaim(f, []));
    forall j: nat | j < |f.parts|
      ensures AllFound(kind, after, PartClaim(f, j)) == AllFound(kind, log, PartClaim(f, j))
    {
      TriedLeavesOthers(kind, log, claim, w, PartClaim(f, j));
    }
    forall j | 0 <= j < |f.parts|
      ensures OnceAtMost(kind, after, f, j)
    {
      assert OnceAtMost(kind, log, f, j);
    }
  }

  lemma SameRows(kind: Text -> Kind, log: seq<Text>, claim: Claim, other: Claim)
    requires claim.identity == other.identity && claim.boundary == other.boundary
    ensures AllFound(kind, log, claim) == AllFound(kind, log, other)
  {
    TextDoesNotMatter(kind, log, claim, other, |log|);
  }

  lemma KeepsTwice(kind: Text -> Kind, a: seq<Text>, b: seq<Text>, c: seq<Text>, f: Frozen)
    requires Keeps(kind, a, b, f) && Keeps(kind, b, c, f)
    ensures Keeps(kind, a, c, f)
  {
    hide PartIsAt, NoneTwice;
    assert a <= c by { PrefixOfPrefix(a, b, c); }
  }

  lemma PrefixOfPrefix(a: seq<Text>, b: seq<Text>, c: seq<Text>)
    requires a <= b && b <= c
    ensures a <= c
  {
    assert forall i :: 0 <= i < |a| ==> a[i] == b[i] && b[i] == c[i];
  }

  lemma {:induction false} PartsKept(kind: Text -> Kind, log: seq<Text>, f: Frozen, ws: seq<World>, urls: seq<nat>)
    requires WellKept(kind, f) && NoneTwice(kind, log, f) && InPlace(kind, log, f, urls) && |ws| == |f.parts|
    requires forall i :: 0 <= i < |ws| ==> AloneAt(kind, ws[i], f)
    ensures var (after, r) := PartsTried(kind, log, f, ws, urls);
      Keeps(kind, log, after, f) && (r.Ok? ==> |r.value| == |f.parts| && InPlace(kind, after, f, r.value))
    decreases |f.parts| - |urls|
  {
    hide PartIsAt, NoneTwice, Tried, AloneAt;
    if |urls| < |f.parts| {
      OnePart(kind, log, f, |urls|, ws[|urls|]);
      var (after, r) := Tried(kind, log, PartClaim(f, |urls|), ws[|urls|]);
      if r.Ok? {
        PartsKept(kind, after, f, ws, urls + [r.value]);
        KeepsTwice(kind, log, after, PartsTried(kind, after, f, ws, urls + [r.value]).0, f);
      }
    } else {
      KeepsItself(kind, log, f);
    }
  }

  lemma KeepsItself(kind: Text -> Kind, log: seq<Text>, f: Frozen)
    requires NoneTwice(kind, log, f)
    ensures Keeps(kind, log, log, f)
  {
  }

  /** One attempt, finished or interrupted anywhere, doubles nothing and moves nothing;
      a finished one has every part in place once and its record committed. */
  lemma AttemptKeeps(kind: Text -> Kind, log: seq<Text>, f: Frozen, a: Attempt)
    requires WellKept(kind, f) && NoneTwice(kind, log, f) && Alone(kind, a, f)
    ensures var (after, r) := Attempted(kind, log, f, a);
      Keeps(kind, log, after, f) && (r.Ok? ==> Finished(kind, after, f, r.value))
  {
    hide PartIsAt, NoneTwice, Tried, AloneAt, PartsTried, Committed, WellKept;
    PartsKept(kind, log, f, a.parts, []);
    var (after, urls) := PartsTried(kind, log, f, a.parts, []);
    if urls.Ok? {
      FinalKeeps(kind, after, f, urls.value, a.final);
      var (last, r) := Tried(kind, after, FinalClaim(f, urls.value), a.final);
      KeepsTwice(kind, log, after, last, f);
      if r.Ok? {
        FinalIsThere(kind, after, f, urls.value, a.final);
        assert InPlace(kind, last, f, urls.value);
        assert FinishedWith(kind, last, f, r.value, urls.value);
      }
    }
  }

  lemma FinalIsThere(kind: Text -> Kind, log: seq<Text>, f: Frozen, urls: seq<nat>, w: World)
    requires WellKept(kind, f) && AloneAt(kind, w, f) && NoneTwice(kind, log, f)
    ensures var (after, r) := Tried(kind, log, FinalClaim(f, urls), w);
      r.Ok? ==> Committed(kind, after, f.boundary, f.final(urls)) && r.value < |after| && after[r.value] == f.final(urls)
  {
    hide AllFound, Tried, Foreigners, Found, Committed;
    SameRows(kind, log, FinalClaim(f, urls), FinalClaim(f, []));
    TriedOnce(kind, log, FinalClaim(f, urls), w);
    if Tried(kind, log, FinalClaim(f, urls), w).1.Ok? {
      TriedCommits(kind, log, FinalClaim(f, urls), w);
    }
  }

  /** Every part once, and the record that names them the first child of the boundary. */
  ghost predicate Finished(kind: Text -> Kind, log: seq<Text>, f: Frozen, url: nat) {
    exists urls: seq<nat> :: FinishedWith(kind, log, f, url, urls)
  }

  ghost predicate FinishedWith(kind: Text -> Kind, log: seq<Text>, f: Frozen, url: nat, urls: seq<nat>) {
    && |urls| == |f.parts| && InPlace(kind, log, f, urls)
    && url < |log| && log[url] == f.final(urls) && Committed(kind, log, f.boundary, f.final(urls))
  }

  /** Different parts are different rows. */
  lemma UrlsAreDistinct(kind: Text -> Kind, log: seq<Text>, f: Frozen, urls: seq<nat>)
    requires WellKept(kind, f) && InPlace(kind, log, f, urls)
    ensures forall i, j :: 0 <= i < j < |urls| ==> urls[i] != urls[j]
  {
    hide AllFound;
    forall i: nat, j: nat | i < j < |urls|
      ensures urls[i] != urls[j]
    {
      assert PartIsAt(kind, log, f, i, urls[i]) && PartIsAt(kind, log, f, j, urls[j]);
      assert kind(f.parts[i]).index == i && kind(f.parts[j]).index == j;
    }
  }

  lemma FinishedIsInTheLog(kind: Text -> Kind, log: seq<Text>, f: Frozen, url: nat)
    requires Finished(kind, log, f, url)
    ensures url < |log|
  {
  }

  /** The log after attempt upon attempt from the same frozen file. */
  function Resumed(kind: Text -> Kind, log: seq<Text>, f: Frozen, attempts: seq<Attempt>): seq<Text>
    requires forall i :: 0 <= i < |attempts| ==> |attempts[i].parts| == |f.parts|
  {
    if attempts == [] then log
    else Attempted(kind, Resumed(kind, log, f, attempts[..|attempts| - 1]), f, attempts[|attempts| - 1]).0
  }

  /** Whatever anyone does meanwhile, an append only adds to the log. */
  lemma TriedGrows(kind: Text -> Kind, log: seq<Text>, claim: Claim, w: World)
    ensures log <= Tried(kind, log, claim, w).0
  {
    hide Observe;
  }

  lemma {:induction false} PartsGrow(kind: Text -> Kind, log: seq<Text>, f: Frozen, ws: seq<World>, urls: seq<nat>)
    requires |urls| <= |f.parts| && |ws| == |f.parts|
    ensures log <= PartsTried(kind, log, f, ws, urls).0
    decreases |f.parts| - |urls|
  {
    hide Tried;
    if |urls| < |f.parts| {
      TriedGrows(kind, log, PartClaim(f, |urls|), ws[|urls|]);
      var (after, r) := Tried(kind, log, PartClaim(f, |urls|), ws[|urls|]);
      if r.Ok? {
        PartsGrow(kind, after, f, ws, urls + [r.value]);
        PrefixOfPrefix(log, after, PartsTried(kind, after, f, ws, urls + [r.value]).0);
      }
    }
  }

  /** So do any number of attempts, among any other publishers. */
  lemma {:induction false} ResumedGrows(kind: Text -> Kind, log: seq<Text>, f: Frozen, attempts: seq<Attempt>)
    requires forall i :: 0 <= i < |attempts| ==> |attempts[i].parts| == |f.parts|
    ensures log <= Resumed(kind, log, f, attempts)
  {
    hide PartsTried, Tried;
    if attempts != [] {
      var (before, a) := (Resumed(kind, log, f, attempts[..|attempts| - 1]), attempts[|attempts| - 1]);
      ResumedGrows(kind, log, f, attempts[..|attempts| - 1]);
      PartsGrow(kind, before, f, a.parts, []);
      var (after, urls) := PartsTried(kind, before, f, a.parts, []);
      PrefixOfPrefix(log, before, after);
      if urls.Ok? {
        TriedGrows(kind, after, FinalClaim(f, urls.value), a.final);
        PrefixOfPrefix(log, after, Tried(kind, after, FinalClaim(f, urls.value), a.final).0);
      }
    }
  }

  /** However often a publication is interrupted and resumed, no part is ever in the
      log twice; the attempt that finishes leaves each exactly once. */
  lemma {:induction false} ResumingNeverDoubles(kind: Text -> Kind, log: seq<Text>, f: Frozen, attempts: seq<Attempt>)
    requires WellKept(kind, f) && NoneTwice(kind, log, f)
    requires forall i :: 0 <= i < |attempts| ==> |attempts[i].parts| == |f.parts|
    requires forall i :: 0 <= i < |attempts| ==> Alone(kind, attempts[i], f)
    ensures Keeps(kind, log, Resumed(kind, log, f, attempts), f)
    ensures attempts != [] ==>
      var r := Attempted(kind, Resumed(kind, log, f, attempts[..|attempts| - 1]), f, attempts[|attempts| - 1]).1;
      r.Ok? ==> Finished(kind, Resumed(kind, log, f, attempts), f, r.value)
  {
    hide NoneTwice, Attempted, Finished, Keeps, WellKept, Alone;
    if attempts == [] {
      KeepsItself(kind, log, f);
    } else {
      var before := attempts[..|attempts| - 1];
      ResumingNeverDoubles(kind, log, f, before);
      var halfway := Resumed(kind, log, f, before);
      StillOnce(kind, log, halfway, f);
      AttemptKeeps(kind, halfway, f, attempts[|attempts| - 1]);
      KeepsTwice(kind, log, halfway, Resumed(kind, log, f, attempts), f);
    }
  }

  lemma StillOnce(kind: Text -> Kind, log: seq<Text>, after: seq<Text>, f: Frozen)
    requires Keeps(kind, log, after, f)
    ensures NoneTwice(kind, after, f)
  {
  }

  /** The parts of a finished publication never move, so a later attempt that finishes
      publishes the same record. */
  lemma OneFinalRecord(kind: Text -> Kind, log: seq<Text>, after: seq<Text>, f: Frozen, a: nat, b: nat)
    requires Keeps(kind, log, after, f) && Finished(kind, log, f, a) && Finished(kind, after, f, b)
    ensures log[a] == after[b]
  {
    hide NoneTwice, Committed, AllFound;
    var one :| FinishedWith(kind, log, f, a, one);
    var other :| FinishedWith(kind, after, f, b, other);
    forall i | 0 <= i < |one|
      ensures one[i] == other[i]
    {
      assert PartIsAt(kind, log, f, i, one[i]) && PartIsAt(kind, after, f, i, other[i]);
      assert PartIsAt(kind, after, f, i, one[i]);
    }
    assert one == other;
  }

  /** `Publisher.checkpoint`, in place: each part in turn, then the record. */
  method Publish(comments: CommentLog, kind: Text -> Kind, f: Frozen, a: Attempt) returns (r: Result<nat, Refusal>)
    requires |a.parts| == |f.parts|
    modifies comments
    ensures (comments.rows, r) == Attempted(kind, old(comments.rows), f, a)
  {
    hide Tried;
    var urls: seq<nat> := [];
    while |urls| < |f.parts|
      invariant |urls| <= |f.parts|
      invariant PartsTried(kind, old(comments.rows), f, a.parts, []) == PartsTried(kind, comments.rows, f, a.parts, urls)
    {
      var url := comments.AppendOnce(kind, PartClaim(f, |urls|), a.parts[|urls|]);
      if url.Err? {
        return Err(url.error);
      }
      urls := urls + [url.value];
    }
    r := comments.AppendOnce(kind, FinalClaim(f, urls), a.final);
  }

  /** The module's `checkpoint`: what is being published is frozen before anything is
      appended, and until it commits no other request gets through. */
  class Coordinator<Request(==)> {
    var pending: Option<(Request, Frozen)>

    constructor ()
      ensures pending == None
    {
      pending := None;
    }

    /** What this request would publish: the frozen publication if there is one. */
    function Publishing(prepared: Option<Frozen>): Option<Frozen>
      reads this
    {
      if pending.Some? then Some(pending.value.1) else prepared
    }

    /** `prepared` is None when preparing refuses; `a` is what the world does. */
    method Checkpoint(comments: CommentLog, kind: Text -> Kind, request: Request, prepared: Option<Frozen>, a: Attempt)
      returns (r: Result<nat, Refusal>)
      requires Publishing(prepared).Some? ==> |a.parts| == |Publishing(prepared).value.parts|
      modifies this, comments
      ensures old(pending).Some? && old(pending).value.0 != request ==>
        r == Err(OtherPublicationPending) && pending == old(pending) && comments.rows == old(comments.rows)
      ensures old(pending).None? && prepared.None? ==>
        r == Err(BoundaryRefused) && pending == None && comments.rows == old(comments.rows)
      ensures old(pending).Some? && old(pending).value.0 == request ==>
        && (comments.rows, r) == Attempted(kind, old(comments.rows), old(pending).value.1, a)
        && pending == if r.Ok? then None else old(pending)
      ensures old(pending).None? && prepared.Some? ==>
        && (comments.rows, r) == Attempted(kind, old(comments.rows), prepared.value, a)
        && pending == if r.Ok? then None else Some((request, prepared.value))
    {
      hide Attempted;
      if pending.Some? && pending.value.0 != request {
        return Err(OtherPublicationPending);
      }
      if pending.None? {
        if prepared.None? {
          return Err(BoundaryRefused);
        }
        pending := Some((request, prepared.value));
      }
      r := Publish(comments, kind, pending.value.1, a);
      if r.Ok? {
        pending := None;
      }
    }
  }
}
