/** Campaign snapshots: one record, or immutable parts and the manifest that names
    them, and the strict reader of both. Canonical JSON, digests and base64 are
    parameters with their laws; a comment's URL is its place in the log. */
module Snapshot {
  import opened Json
  import opened PartedPublication
  import opened Publication
  import Resumption
  import opened Wrappers

  type Bytes = seq<Byte>

  datatype Marker = CheckpointMark | PartMark | OperationMark | NoMark

  datatype Codec = Codec(
    canonical: Json -> Bytes, parse: Bytes -> Option<Json>, digest: Bytes -> string,
    base64: Bytes -> string, unbase64: string -> Option<Bytes>,
    body: (Marker, Json) -> Text, marker: Text -> Marker, record: Text -> Option<Json>, size: Text -> nat)

  const SNAPSHOT_LIMIT := 24 * 1024
  const CHUNK_BYTES := 12 * 1024
  const ACTIVE_TASK_PARTITION_THRESHOLD := 50
  const FORMAT := "quantick-snapshot-parts:v1"
  const MANIFEST := "partition_manifest"

  ghost predicate RecordReadsBack(c: Codec, m: Marker, v: Json) {
    v.Obj? ==> c.marker(c.body(m, v)) == m && c.record(c.body(m, v)) == Some(v)
  }

  /** A record reads back from its body, a value from its canonical bytes, and bytes
      from their base64. */
  ghost predicate Lawful(c: Codec) {
    && (forall m: Marker, v: Json :: RecordReadsBack(c, m, v))
    && (forall v: Json :: v.Obj? ==> c.parse(c.canonical(v)) == Some(v) && c.canonical(v) != [])
    && (forall b: Bytes :: c.unbase64(c.base64(b)) == Some(b))
  }

  // ----------------------------------------------------------------- valid states

  const REQUIRED: set<Name> := {
    Schema, Campaign, Sequence, PublicationKey, Previous, CreatedAt, WriterName, Phase, BaseSha,
    Integration, Authorization, Lease, Project, Tasks, Inflight, Decisions, Metrics, RetryPolicy,
    NextAction, StopReason}

  /** What the manifest repeats of the state. */
  const REPEATED: set<Name> := {
    Schema, Campaign, Sequence, PublicationKey, Previous, CreatedAt, WriterName, Phase, Lease, Inflight}

  /** What a part repeats of the manifest. */
  const SHARED: set<Name> := {
    Schema, Format, Campaign, Sequence, PublicationKey, WriterName, SnapshotSha256}

  predicate TasksAreIdentified(tasks: seq<Json>) {
    && (forall i :: 0 <= i < |tasks| ==> Get(tasks[i], Key) != Null)
    && (forall i, j :: 0 <= i < j < |tasks| ==> Get(tasks[i], Key) != Get(tasks[j], Key))
  }

  /** `validate_state` */
  predicate Valid(state: Json) {
    && state.Obj? && REQUIRED <= state.fields.Keys
    && Get(state, Schema) == Num(1)
    && Get(state, Sequence).Num? && Get(state, Sequence).n >= 1
    && Get(state, Tasks).Arr? && TasksAreIdentified(Get(state, Tasks).items)
  }

  datatype StateProblem = BadSchema | BadSequence | BadTasks | BadTaskIdentities

  /** The checks in the code's own order: the keys are listed, looked through for a
      missing one, and counted against the set of them. */
  method ValidateState(state: Json) returns (problem: Option<StateProblem>)
    ensures problem.None? <==> Valid(state)
  {
    if !state.Obj? || !(REQUIRED <= state.fields.Keys) || Get(state, Schema) != Num(1) {
      return Some(BadSchema);
    }
    if !Get(state, Sequence).Num? || Get(state, Sequence).n < 1 {
      return Some(BadSequence);
    }
    if !Get(state, Tasks).Arr? {
      return Some(BadTasks);
    }
    var tasks := Get(state, Tasks).items;
    var identified := AreIdentified(tasks);
    return if identified then None else Some(BadTaskIdentities);
  }

  method AreIdentified(tasks: seq<Json>) returns (identified: bool)
    ensures identified <==> TasksAreIdentified(tasks)
  {
    var keys: seq<Json> := [];
    var named: set<Json> := {};
    for i := 0 to |tasks|
      invariant |keys| <= i
      invariant |keys| == i ==> forall j :: 0 <= j < i ==> keys[j] == Get(tasks[j], Key)
      invariant |keys| < i ==> exists j :: 0 <= j < i && Get(tasks[j], Key) == Null
      invariant named == SetOf(keys)
    {
      if tasks[i].Obj? {
        OneKeyMore(keys, Get(tasks[i], Key));
        named := named + {Get(tasks[i], Key)};
        keys := keys + [Get(tasks[i], Key)];
      }
    }
    DistinctExactlyWhen(keys);
    return |keys| == |tasks| && Null !in keys && |named| == |keys|;
  }

  ghost function SetOf(keys: seq<Json>): set<Json> {
    set key | key in keys
  }

  lemma OneKeyMore(keys: seq<Json>, key: Json)
    ensures SetOf(keys + [key]) == SetOf(keys) + {key}
  {
  }

  /** Keys are distinct exactly when the set of them is as large as the list. */
  lemma {:induction false} DistinctExactlyWhen(keys: seq<Json>)
    ensures |SetOf(keys)| <= |keys|
    ensures |SetOf(keys)| == |keys| <==> forall i, j :: 0 <= i < j < |keys| ==> keys[i] != keys[j]
  {
    if keys != [] {
      var (before, last) := (keys[..|keys| - 1], keys[|keys| - 1]);
      DistinctExactlyWhen(before);
      OneKeyMore(before, last);
      assert before + [last] == keys;
      if last in before {
        var i :| 0 <= i < |before| && before[i] == last;
        assert keys[i] == keys[|keys| - 1];
      }
    }
  }

  function Active(tasks: seq<Json>): nat {
    if tasks == [] then 0
    else Active(tasks[1..]) + if Get(tasks[0], TaskState) != Str("done") then 1 else 0
  }

  /** The places of the tasks not done. */
  ghost function ActivePlaces(tasks: seq<Json>): set<nat> {
    set i: nat | i < |tasks| && Get(tasks[i], TaskState) != Str("done")
  }

  lemma {:induction false} ActiveCounts(tasks: seq<Json>)
    ensures Active(tasks) == |ActivePlaces(tasks)|
  {
    if tasks == [] {
      assert ActivePlaces(tasks) == {};
    } else {
      var rest := tasks[1..];
      ActiveCounts(rest);
      var moved := set i | i in ActivePlaces(rest) :: i + 1;
      MovedAreAsMany(ActivePlaces(rest), moved);
      assert forall i: nat :: i + 1 < |tasks| ==> tasks[i + 1] == rest[i];
      if Get(tasks[0], TaskState) != Str("done") {
        assert ActivePlaces(tasks) == moved + {0} by { MovedPlaces(tasks, moved); }
      } else {
        assert ActivePlaces(tasks) == moved by { MovedPlaces(tasks, moved); }
      }
    }
  }

  lemma MovedPlaces(tasks: seq<Json>, moved: set<nat>)
    requires tasks != [] && moved == set i | i in ActivePlaces(tasks[1..]) :: i + 1
    ensures forall i: nat :: i > 0 ==> (i in ActivePlaces(tasks) <==> i in moved)
    ensures 0 !in moved
  {
    forall i: nat | i > 0
      ensures i in ActivePlaces(tasks) <==> i in moved
    {
      assert i < |tasks| ==> tasks[i] == tasks[1..][i - 1];
      assert i in moved <==> i - 1 in ActivePlaces(tasks[1..]);
    }
  }

  lemma {:induction false} MovedAreAsMany(places: set<nat>, moved: set<nat>)
    requires moved == set i | i in places :: i + 1
    ensures |moved| == |places|
    decreases places
  {
    if places != {} {
      var i :| i in places;
      var fewer := set j | j in places - {i} :: j + 1;
      MovedAreAsMany(places - {i}, fewer);
      assert moved == fewer + {i + 1} by {
        forall m: nat
          ensures m in moved <==> m in fewer + {i + 1}
        {
          assert m in moved <==> m > 0 && m - 1 in places;
          assert m in fewer <==> m > 0 && m - 1 in places - {i};
        }
      }
    }
  }

  // --------------------------------------------------------------------- encoding

  function Chunks(raw: Bytes): (chunks: seq<Bytes>)
    ensures raw != [] ==> chunks != []
  {
    if raw == [] then []
    else if |raw| <= CHUNK_BYTES then [raw]
    else [raw[..CHUNK_BYTES]] + Chunks(raw[CHUNK_BYTES..])
  }

  function Joined(chunks: seq<Bytes>): Bytes {
    if chunks == [] then [] else chunks[0] + Joined(chunks[1..])
  }

  lemma {:induction false} ChunksJoin(raw: Bytes)
    ensures Joined(Chunks(raw)) == raw
  {
    if |raw| > CHUNK_BYTES {
      ChunksJoin(raw[CHUNK_BYTES..]);
    } else if raw != [] {
      assert [raw][1..] == [];
      assert Joined([raw]) == raw + Joined([]);
    }
  }

  /** What is a part's own, and a manifest's own. */
  const PART_OWN: set<Name> := {Index, Count, ByteCount, Sha256, Encoding, Payload}
  const MANIFEST_OWN: set<Name> := {
    KindName, Format, SnapshotSha256, SnapshotBytes, PartCount, TaskCount, ActiveTaskCount, Parts}

  function PartField(c: Codec, state: Json, raw: Bytes, chunk: Bytes, index: nat, count: nat, name: Name): Json {
    match name
    case Schema => Num(1)
    case Format => Str(FORMAT)
    case SnapshotSha256 => Str(c.digest(raw))
    case Index => Num(index)
    case Count => Num(count)
    case ByteCount => Num(|chunk|)
    case Sha256 => Str(c.digest(chunk))
    case Encoding => Str("base64")
    case Payload => Str(c.base64(chunk))
    case _ => Get(state, name)
  }

  function PartOf(c: Codec, state: Json, raw: Bytes, chunk: Bytes, index: nat, count: nat): Json {
    Obj(map name | name in SHARED + PART_OWN :: PartField(c, state, raw, chunk, index, count, name))
  }

  function EntryOf(c: Codec, chunk: Bytes, index: nat, url: nat): Json {
    Obj(map[Index := Num(index), Url := Num(url), ByteCount := Num(|chunk|), Sha256 := Str(c.digest(chunk))])
  }

  function Entries(c: Codec, chunks: seq<Bytes>, urls: seq<nat>): (entries: seq<Json>)
    requires |urls| <= |chunks|
    ensures |entries| == |urls|
    ensures forall i :: 0 <= i < |urls| ==> entries[i] == EntryOf(c, chunks[i], i, urls[i])
  {
    seq(|urls|, i requires 0 <= i < |urls| => EntryOf(c, chunks[i], i, urls[i]))
  }

  function ManifestField(c: Codec, state: Json, raw: Bytes, count: nat, entries: seq<Json>, name: Name): Json
    requires Valid(state)
  {
    match name
    case KindName => Str(MANIFEST)
    case Format => Str(FORMAT)
    case SnapshotSha256 => Str(c.digest(raw))
    case SnapshotBytes => Num(|raw|)
    case PartCount => Num(count)
    case TaskCount => Num(|Get(state, Tasks).items|)
    case ActiveTaskCount => Num(Active(Get(state, Tasks).items))
    case Parts => Arr(entries)
    case _ => Get(state, name)
  }

  function ManifestOf(c: Codec, state: Json, raw: Bytes, count: nat, entries: seq<Json>): Json
    requires Valid(state)
  {
    Obj(map name | name in REPEATED + MANIFEST_OWN :: ManifestField(c, state, raw, count, entries, name))
  }

  /** A snapshot small enough in bytes and in active tasks is one record. */
  predicate IsComplete(c: Codec, state: Json)
    requires Valid(state)
  {
    && |c.canonical(state)| <= SNAPSHOT_LIMIT && c.size(c.body(CheckpointMark, state)) <= SNAPSHOT_LIMIT
    && Active(Get(state, Tasks).items) < ACTIVE_TASK_PARTITION_THRESHOLD
  }

  function PartTexts(c: Codec, state: Json, chunks: seq<Bytes>): (texts: seq<Text>)
    ensures |texts| == |chunks|
    ensures forall i :: 0 <= i < |chunks| ==>
      texts[i] == c.body(PartMark, PartOf(c, state, c.canonical(state), chunks[i], i, |chunks|))
  {
    seq(|chunks|, i requires 0 <= i < |chunks| =>
      c.body(PartMark, PartOf(c, state, c.canonical(state), chunks[i], i, |chunks|)))
  }

  function FinalText(c: Codec, state: Json, urls: seq<nat>): Text
    requires Valid(state)
  {
    var raw := c.canonical(state);
    var chunks := Chunks(raw);
    if IsComplete(c, state) || |urls| > |chunks| then c.body(CheckpointMark, state)
    else c.body(CheckpointMark, ManifestOf(c, state, raw, |chunks|, Entries(c, chunks, urls)))
  }

  // ---------------------------------------------------------------------- reading

  datatype Refused = BadRecord | BadState | BadManifest | BadPart(index: nat) | BadSnapshot

  /** `parse` of a row under a marker. */
  function RecordAt(c: Codec, log: seq<Text>, url: Json, marker: Marker): Option<Json> {
    if url.Num? && 0 <= url.n < |log| && c.marker(log[url.n]) == marker then
      var v := c.record(log[url.n]);
      if v.Some? && v.value.Obj? then v else None
    else None
  }

  predicate WithinLimit(c: Codec, log: seq<Text>, url: Json) {
    url.Num? && 0 <= url.n < |log| && c.size(log[url.n]) <= SNAPSHOT_LIMIT
  }

  predicate AgreesOn(names: set<Name>, a: Json, b: Json) {
    forall name :: name in names ==> Get(a, name) == Get(b, name)
  }

  predicate DistinctUrls(entries: seq<Json>) {
    forall i, j :: 0 <= i < j < |entries| ==> Get(entries[i], Url) != Get(entries[j], Url)
  }

  /** One part's bytes, if it is the part the manifest names at this place. */
  function ReadPart(c: Codec, log: seq<Text>, manifest: Json, entry: Json, index: nat, count: nat): Option<Bytes> {
    var url := Get(entry, Url);
    var part := RecordAt(c, log, url, PartMark);
    if Get(entry, Index) != Num(index) || !WithinLimit(c, log, url) || part.None? then None
    else if !AgreesOn(SHARED, part.value, manifest) || Get(part.value, Index) != Num(index)
            || Get(part.value, Count) != Num(count) || Get(part.value, Encoding) != Str("base64") then None
    else
      var payload := Get(part.value, Payload);
      var chunk := if payload.Str? then c.unbase64(payload.s) else None;
      if chunk.None? then None
      else if Get(part.value, Sha256) != Str(c.digest(chunk.value)) || Get(entry, Sha256) != Str(c.digest(chunk.value))
              || Get(part.value, ByteCount) != Num(|chunk.value|) || Get(entry, ByteCount) != Num(|chunk.value|) then None
      else chunk
  }

  function ReadParts(c: Codec, log: seq<Text>, manifest: Json, entries: seq<Json>, from: nat): Result<Bytes, Refused>
    requires from <= |entries|
    decreases |entries| - from
  {
    if from == |entries| then Ok([])
    else
      var chunk := ReadPart(c, log, manifest, entries[from], from, |entries|);
      if chunk.None? then Err(BadPart(from))
      else
        var rest := ReadParts(c, log, manifest, entries, from + 1);
        if rest.Err? then rest else Ok(chunk.value + rest.value)
  }

  /** `read_checkpoint`: a manifest is never returned as if it were the state. */
  function Read(c: Codec, log: seq<Text>, url: nat): Result<Json, Refused> {
    var obj := RecordAt(c, log, Num(url), CheckpointMark);
    if obj.None? then Err(BadRecord)
    else if Get(obj.value, KindName) != Str(MANIFEST) then
      if Valid(obj.value) then Ok(obj.value) else Err(BadState)
    else ReadManifest(c, log, obj.value)
  }

  function ReadManifest(c: Codec, log: seq<Text>, manifest: Json): Result<Json, Refused> {
    var parts := Get(manifest, Parts);
    if Get(manifest, Format) != Str(FORMAT) || Get(manifest, Schema) != Num(1)
       || c.size(c.body(CheckpointMark, manifest)) > SNAPSHOT_LIMIT then Err(BadManifest)
    else if !parts.Arr? || parts.items == [] || Get(manifest, PartCount) != Num(|parts.items|)
            || !DistinctUrls(parts.items) then Err(BadManifest)
    else
      var raw := ReadParts(c, log, manifest, parts.items, 0);
      if raw.Err? then Err(raw.error) else Reassembled(c, manifest, raw.value)
  }

  function Reassembled(c: Codec, manifest: Json, raw: Bytes): Result<Json, Refused> {
    if Get(manifest, SnapshotBytes) != Num(|raw|) || Get(manifest, SnapshotSha256) != Str(c.digest(raw)) then Err(BadSnapshot)
    else
      var state := c.parse(raw);
      if state.None? || !Valid(state.value) || c.canonical(state.value) != raw then Err(BadSnapshot)
      else
        var tasks := Get(state.value, Tasks).items;
        if AgreesOn(REPEATED, state.value, manifest) && Get(manifest, TaskCount) == Num(|tasks|)
           && Get(manifest, ActiveTaskCount) == Num(Active(tasks))
        then Ok(state.value) else Err(BadSnapshot)
  }

  // ------------------------------------------------- what the reader demands

  /** The entry names this row as the part at this place, and the part is whole: right
      in every field it shares with the manifest, its own place and number, and with
      the digest and length of these bytes, in the part and in the entry alike. */
  ghost predicate IsPart(c: Codec, log: seq<Text>, manifest: Json, entry: Json, index: nat, count: nat, chunk: Bytes) {
    && Get(entry, Index) == Num(index) && Get(entry, Url).Num? && 0 <= Get(entry, Url).n < |log|
    && var text := log[Get(entry, Url).n];
    && c.size(text) <= SNAPSHOT_LIMIT && c.marker(text) == PartMark && c.record(text).Some? && c.record(text).value.Obj?
    && var part := c.record(text).value;
    && (forall name :: name in SHARED ==> Get(part, name) == Get(manifest, name))
    && Get(part, Index) == Num(index) && Get(part, Count) == Num(count) && Get(part, Encoding) == Str("base64")
    && Get(part, Payload).Str? && c.unbase64(Get(part, Payload).s) == Some(chunk)
    && Get(part, Sha256) == Get(entry, Sha256) == Str(c.digest(chunk))
    && Get(part, ByteCount) == Get(entry, ByteCount) == Num(|chunk|)
  }

  lemma ReadPartExactly(c: Codec, log: seq<Text>, manifest: Json, entry: Json, index: nat, count: nat, chunk: Bytes)
    ensures ReadPart(c, log, manifest, entry, index, count) == Some(chunk)
      <==> IsPart(c, log, manifest, entry, index, count, chunk)
  {
    hide SHARED;
  }

  lemma {:induction false} ReadPartsExactly(c: Codec, log: seq<Text>, manifest: Json, entries: seq<Json>, from: nat, chunks: seq<Bytes>)
    requires from <= |entries| == |chunks|
    requires forall i :: from <= i < |entries| ==> IsPart(c, log, manifest, entries[i], i, |entries|, chunks[i])
    ensures ReadParts(c, log, manifest, entries, from) == Ok(Joined(chunks[from..]))
    decreases |entries| - from
  {
    hide IsPart, ReadPart;
    if from < |entries| {
      ReadPartExactly(c, log, manifest, entries[from], from, |entries|, chunks[from]);
      ReadPartsExactly(c, log, manifest, entries, from + 1, chunks);
      assert chunks[from..][1..] == chunks[from + 1..];
    }
  }

  lemma {:induction false} PartsWereRead(c: Codec, log: seq<Text>, manifest: Json, entries: seq<Json>, from: nat)
    returns (chunks: seq<Bytes>)
    requires from <= |entries| && ReadParts(c, log, manifest, entries, from).Ok?
    ensures |chunks| == |entries| - from && ReadParts(c, log, manifest, entries, from) == Ok(Joined(chunks))
    ensures forall i :: 0 <= i < |chunks| ==> IsPart(c, log, manifest, entries[from + i], from + i, |entries|, chunks[i])
    decreases |entries| - from
  {
    hide IsPart, ReadPart;
    chunks := [];
    if from < |entries| {
      var chunk := ReadPart(c, log, manifest, entries[from], from, |entries|).value;
      ReadPartExactly(c, log, manifest, entries[from], from, |entries|, chunk);
      var rest := PartsWereRead(c, log, manifest, entries, from + 1);
      chunks := [chunk] + rest;
      assert chunks[1..] == rest;
    }
  }

  /** What a manifest stands for: distinct rows, each the part it names, whose bytes
      join to the canonical form of this very state, and nothing said of the state
      that is not so. */
  ghost predicate StandsFor(c: Codec, log: seq<Text>, manifest: Json, state: Json, chunks: seq<Bytes>) {
    && Get(manifest, Format) == Str(FORMAT) && Get(manifest, Schema) == Num(1)
    && c.size(c.body(CheckpointMark, manifest)) <= SNAPSHOT_LIMIT
    && Get(manifest, Parts).Arr?
    && var entries := Get(manifest, Parts).items;
    && entries != [] && |chunks| == |entries| && Get(manifest, PartCount) == Num(|entries|) && DistinctUrls(entries)
    && (forall i :: 0 <= i < |entries| ==> IsPart(c, log, manifest, entries[i], i, |entries|, chunks[i]))
    && var raw := Joined(chunks);
    && Get(manifest, SnapshotBytes) == Num(|raw|) && Get(manifest, SnapshotSha256) == Str(c.digest(raw))
    && Valid(state) && c.parse(raw) == Some(state) && c.canonical(state) == raw
    && (forall name :: name in REPEATED ==> Get(state, name) == Get(manifest, name))
    && Get(manifest, TaskCount) == Num(|Get(state, Tasks).items|)
    && Get(manifest, ActiveTaskCount) == Num(|ActivePlaces(Get(state, Tasks).items)|)
  }

  /** The reader answers with a state exactly when its row is a record of that state,
      under a kind of its own, or a manifest that stands for it. */
  lemma ReadsExactlyWhatStands(c: Codec, log: seq<Text>, url: nat, state: Json)
    ensures Read(c, log, url) == Ok(state) <==>
      && url < |log| && c.marker(log[url]) == CheckpointMark && c.record(log[url]).Some? && c.record(log[url]).value.Obj?
      && var obj := c.record(log[url]).value;
         if Get(obj, KindName) != Str(MANIFEST) then obj == state && Valid(state)
         else exists chunks: seq<Bytes> :: StandsFor(c, log, obj, state, chunks)
  {
    hide Valid, ReadManifest, StandsFor, Get;
    if RecordAt(c, log, Num(url), CheckpointMark).Some? {
      ManifestReadsExactly(c, log, RecordAt(c, log, Num(url), CheckpointMark).value, state);
    }
  }

  lemma ManifestReadsExactly(c: Codec, log: seq<Text>, manifest: Json, state: Json)
    ensures ReadManifest(c, log, manifest) == Ok(state) <==>
      exists chunks: seq<Bytes> :: StandsFor(c, log, manifest, state, chunks)
  {
    hide Valid, IsPart, ReadParts, Active, ActivePlaces, REPEATED, DistinctUrls;
    if ReadManifest(c, log, manifest) == Ok(state) {
      var entries := Get(manifest, Parts).items;
      var chunks := PartsWereRead(c, log, manifest, entries, 0);
      ValidIsObject(state);
      ActiveCounts(Get(state, Tasks).items);
      assert StandsFor(c, log, manifest, state, chunks);
    }
    if chunks: seq<Bytes> :| StandsFor(c, log, manifest, state, chunks) {
      ReadPartsExactly(c, log, manifest, Get(manifest, Parts).items, 0, chunks);
      ValidIsObject(state);
      ActiveCounts(Get(state, Tasks).items);
      assert chunks[0..] == chunks;
    }
  }

  /** A manifest made for a state never reads as another, whatever stands at the rows
      it names, as long as no two byte strings share a digest. */
  lemma OnlyTheStateItWasMadeFor(c: Codec, log: seq<Text>, manifest: Json, made: Json, state: Json)
    requires Lawful(c) && forall a: Bytes, b: Bytes :: c.digest(a) == c.digest(b) ==> a == b
    requires Valid(made) && Get(manifest, SnapshotSha256) == Str(c.digest(c.canonical(made)))
    requires ReadManifest(c, log, manifest) == Ok(state)
    ensures state == made
  {
    ManifestReadsExactly(c, log, manifest, state);
    var chunks :| StandsFor(c, log, manifest, state, chunks);
    hide Valid, IsPart, ReadManifest;
    CanonicalReadsBack(c, made);
  }

  // ------------------------------------------------------------- reading back

  lemma BodyReadsBack(c: Codec, log: seq<Text>, url: nat, m: Marker, v: Json)
    requires Lawful(c) && v.Obj? && url < |log| && log[url] == c.body(m, v)
    ensures RecordAt(c, log, Num(url), m) == Some(v)
  {
    assert RecordReadsBack(c, m, v);
  }

  /** A complete record of a state without a format of its own reads back exactly
      when its kind is not the manifest's. */
  lemma CompleteReadsBack(c: Codec, log: seq<Text>, url: nat, state: Json)
    requires Lawful(c) && Valid(state) && url < |log| && log[url] == c.body(CheckpointMark, state)
    ensures Get(state, KindName) != Str(MANIFEST) ==> Read(c, log, url) == Ok(state)
    ensures Get(state, Format) != Str(FORMAT) ==>
      (Read(c, log, url) == Ok(state) <==> Get(state, KindName) != Str(MANIFEST))
  {
    hide Lawful, Valid, ReadParts, Reassembled;
    assert state.Obj? by { ValidIsObject(state); }
    BodyReadsBack(c, log, url, CheckpointMark, state);
  }

  /** The least state that says it is a manifest. */
  function ManifestByName(): Json {
    Obj(map name | name in REQUIRED + {KindName} ::
      match name {
        case Schema => Num(1)
        case Sequence => Num(1)
        case Tasks => Arr([])
        case KindName => Str(MANIFEST)
        case _ => Null
      })
  }

  lemma ManifestByNameIsValid()
    ensures Valid(ManifestByName())
  {
  }

  lemma ManifestByNameSays()
    ensures Get(ManifestByName(), KindName) == Str(MANIFEST) && Get(ManifestByName(), Format) == Null
  {
  }

  /** It is a valid state, and its complete record is refused. */
  lemma AManifestByNameIsRefused(c: Codec)
    requires Lawful(c)
    ensures Valid(ManifestByName())
    ensures Read(c, [c.body(CheckpointMark, ManifestByName())], 0) == Err(BadManifest)
  {
    hide Lawful, ReadParts, Reassembled, Valid, Get;
    ManifestByNameIsValid();
    ManifestByNameSays();
    var state := ManifestByName();
    hide ManifestByName;
    BodyReadsBack(c, [c.body(CheckpointMark, state)], 0, CheckpointMark, state);
  }

  lemma ValidIsObject(state: Json)
    requires Valid(state)
    ensures state.Obj? && Get(state, Tasks).Arr? && Get(state, Schema) == Num(1)
  {
  }

  /** Every part of the snapshot is in the log where `urls` says, within the bound. */
  ghost predicate PartsAreThere(c: Codec, log: seq<Text>, state: Json, urls: seq<nat>) {
    var raw := c.canonical(state);
    var chunks := Chunks(raw);
    |urls| == |chunks| && forall i :: 0 <= i < |urls| ==> PartIsThere(c, log, state, urls, i)
  }

  ghost predicate PartIsThere(c: Codec, log: seq<Text>, state: Json, urls: seq<nat>, i: nat)
    requires i < |urls| == |Chunks(c.canonical(state))|
  {
    var raw := c.canonical(state);
    && urls[i] < |log| && c.size(log[urls[i]]) <= SNAPSHOT_LIMIT
    && log[urls[i]] == c.body(PartMark, PartOf(c, state, raw, Chunks(raw)[i], i, |urls|))
  }

  lemma PartHas(c: Codec, state: Json, raw: Bytes, chunk: Bytes, index: nat, count: nat, name: Name)
    requires name in SHARED || name in PART_OWN
    ensures Get(PartOf(c, state, raw, chunk, index, count), name) == PartField(c, state, raw, chunk, index, count, name)
  {
  }

  lemma PartFields(c: Codec, state: Json, raw: Bytes, chunk: Bytes, index: nat, count: nat)
    ensures var part := PartOf(c, state, raw, chunk, index, count);
      && Get(part, Index) == Num(index) && Get(part, Count) == Num(count) && Get(part, Encoding) == Str("base64")
      && Get(part, ByteCount) == Num(|chunk|) && Get(part, Sha256) == Str(c.digest(chunk))
      && Get(part, Payload) == Str(c.base64(chunk))
  {
    hide PartOf, Get;
    PartHas(c, state, raw, chunk, index, count, Index);
    PartHas(c, state, raw, chunk, index, count, Count);
    PartHas(c, state, raw, chunk, index, count, Encoding);
    PartHas(c, state, raw, chunk, index, count, ByteCount);
    PartHas(c, state, raw, chunk, index, count, Sha256);
    PartHas(c, state, raw, chunk, index, count, Payload);
  }

  lemma PartShares(c: Codec, state: Json, raw: Bytes, chunk: Bytes, index: nat, count: nat, entries: seq<Json>)
    requires Valid(state)
    ensures AgreesOn(SHARED, PartOf(c, state, raw, chunk, index, count), ManifestOf(c, state, raw, count, entries))
  {
    ValidIsObject(state);
    hide Valid;
    var part, manifest := PartOf(c, state, raw, chunk, index, count), ManifestOf(c, state, raw, count, entries);
    forall name | name in SHARED
      ensures Get(part, name) == Get(manifest, name)
    {
      assert Get(part, name) == PartField(c, state, raw, chunk, index, count, name);
      assert name in REPEATED + MANIFEST_OWN;
      assert Get(manifest, name) == ManifestField(c, state, raw, count, entries, name);
    }
  }

  lemma ManifestHas(c: Codec, state: Json, raw: Bytes, count: nat, entries: seq<Json>, name: Name)
    requires Valid(state) && InManifest(name)
    ensures Get(ManifestOf(c, state, raw, count, entries), name) == ManifestField(c, state, raw, count, entries, name)
  {
    hide Valid, Active;
    InManifestIs(name);
  }

  predicate InManifest(name: Name) {
    match name
    case Schema | Campaign | Sequence | PublicationKey | Previous | CreatedAt | WriterName | Phase | Lease | Inflight => true
    case KindName | Format | SnapshotSha256 | SnapshotBytes | PartCount | TaskCount | ActiveTaskCount | Parts => true
    case _ => false
  }

  lemma InManifestIs(name: Name)
    ensures InManifest(name) <==> name in REPEATED || name in MANIFEST_OWN
  {
  }

  lemma ManifestFields(c: Codec, state: Json, raw: Bytes, count: nat, entries: seq<Json>)
    requires Valid(state)
    ensures var manifest := ManifestOf(c, state, raw, count, entries);
      && Get(manifest, KindName) == Str(MANIFEST) && Get(manifest, Format) == Str(FORMAT) && Get(manifest, Schema) == Num(1)
      && Get(manifest, Parts) == Arr(entries) && Get(manifest, PartCount) == Num(count)
      && Get(manifest, SnapshotBytes) == Num(|raw|) && Get(manifest, SnapshotSha256) == Str(c.digest(raw))
      && Get(manifest, TaskCount) == Num(|Get(state, Tasks).items|)
      && Get(manifest, ActiveTaskCount) == Num(Active(Get(state, Tasks).items))
  {
    ValidIsObject(state);
    hide Valid, Active, ManifestOf, Get, ManifestField;
    FieldValues(c, state, raw, count, entries);
    MeasureValues(c, state, raw, count, entries);
    ManifestHas(c, state, raw, count, entries, KindName);
    ManifestHas(c, state, raw, count, entries, Format);
    ManifestHas(c, state, raw, count, entries, Schema);
    ManifestHas(c, state, raw, count, entries, Parts);
    ManifestHas(c, state, raw, count, entries, PartCount);
    ManifestHas(c, state, raw, count, entries, SnapshotBytes);
    ManifestHas(c, state, raw, count, entries, SnapshotSha256);
    ManifestHas(c, state, raw, count, entries, TaskCount);
    ManifestHas(c, state, raw, count, entries, ActiveTaskCount);
  }

  lemma FieldValues(c: Codec, state: Json, raw: Bytes, count: nat, entries: seq<Json>)
    requires Valid(state)
    ensures ManifestField(c, state, raw, count, entries, KindName) == Str(MANIFEST)
    ensures ManifestField(c, state, raw, count, entries, Format) == Str(FORMAT)
    ensures ManifestField(c, state, raw, count, entries, Schema) == Get(state, Schema)
    ensures ManifestField(c, state, raw, count, entries, Parts) == Arr(entries)
  {
    hide Valid, Active, Get;
  }

  lemma MeasureValues(c: Codec, state: Json, raw: Bytes, count: nat, entries: seq<Json>)
    requires Valid(state)
    ensures ManifestField(c, state, raw, count, entries, PartCount) == Num(count)
    ensures ManifestField(c, state, raw, count, entries, SnapshotBytes) == Num(|raw|)
    ensures ManifestField(c, state, raw, count, entries, SnapshotSha256) == Str(c.digest(raw))
    ensures ManifestField(c, state, raw, count, entries, TaskCount) == Num(|Get(state, Tasks).items|)
    ensures ManifestField(c, state, raw, count, entries, ActiveTaskCount) == Num(Active(Get(state, Tasks).items))
  {
    hide Valid, Active, Get;
  }

  lemma ManifestRepeats(c: Codec, state: Json, raw: Bytes, count: nat, entries: seq<Json>)
    requires Valid(state)
    ensures AgreesOn(REPEATED, state, ManifestOf(c, state, raw, count, entries))
  {
    hide Valid, Active, ManifestOf, Get;
    var manifest := ManifestOf(c, state, raw, count, entries);
    forall name | name in REPEATED
      ensures Get(state, name) == Get(manifest, name)
    {
      InManifestIs(name);
      ManifestHas(c, state, raw, count, entries, name);
    }
  }

  lemma PartReadsBack(c: Codec, log: seq<Text>, state: Json, urls: seq<nat>, i: nat)
    requires Lawful(c) && Valid(state) && i < |urls| == |Chunks(c.canonical(state))| && PartIsThere(c, log, state, urls, i)
    ensures var (raw, chunks) := (c.canonical(state), Chunks(c.canonical(state)));
      var entries := Entries(c, chunks, urls);
      ReadPart(c, log, ManifestOf(c, state, raw, |urls|, entries), entries[i], i, |urls|) == Some(chunks[i])
  {
    hide Valid, ManifestOf, PartOf, Lawful, AgreesOn, Chunks;
    var raw := c.canonical(state);
    var chunk := Chunks(raw)[i];
    var part := PartOf(c, state, raw, chunk, i, |urls|);
    PartIsObject(c, state, raw, chunk, i, |urls|);
    PartFields(c, state, raw, chunk, i, |urls|);
    PartShares(c, state, raw, chunk, i, |urls|, Entries(c, Chunks(raw), urls));
    BodyReadsBack(c, log, urls[i], PartMark, part);
    PayloadReadsBack(c, chunk);
  }

  lemma PartIsObject(c: Codec, state: Json, raw: Bytes, chunk: Bytes, index: nat, count: nat)
    ensures PartOf(c, state, raw, chunk, index, count).Obj?
  {
  }

  lemma PayloadReadsBack(c: Codec, chunk: Bytes)
    requires Lawful(c)
    ensures c.unbase64(c.base64(chunk)) == Some(chunk)
  {
  }

  lemma {:induction false} PartsReadBack(c: Codec, log: seq<Text>, state: Json, urls: seq<nat>, from: nat)
    requires Lawful(c) && Valid(state) && PartsAreThere(c, log, state, urls) && from <= |urls|
    ensures var (raw, chunks) := (c.canonical(state), Chunks(c.canonical(state)));
      var entries := Entries(c, chunks, urls);
      ReadParts(c, log, ManifestOf(c, state, raw, |urls|, entries), entries, from) == Ok(Joined(chunks[from..]))
    decreases |urls| - from
  {
    hide Valid, ManifestOf, Lawful, ReadPart, Chunks, PartIsThere;
    if from < |urls| {
      var chunks := Chunks(c.canonical(state));
      assert PartIsThere(c, log, state, urls, from);
      PartReadsBack(c, log, state, urls, from);
      PartsReadBack(c, log, state, urls, from + 1);
      assert chunks[from..][1..] == chunks[from + 1..];
    }
  }

  /** A snapshot published in parts reads back to the state it was cut from. */
  lemma ManifestReadsBack(c: Codec, log: seq<Text>, url: nat, state: Json, urls: seq<nat>)
    requires Lawful(c) && Valid(state) && !IsComplete(c, state) && PartsAreThere(c, log, state, urls)
    requires forall i, j :: 0 <= i < j < |urls| ==> urls[i] != urls[j]
    requires url < |log| && log[url] == FinalText(c, state, urls) && c.size(log[url]) <= SNAPSHOT_LIMIT
    ensures Read(c, log, url) == Ok(state)
  {
    hide Valid, ManifestOf, Lawful, Chunks, AgreesOn, ReadParts, Entries, IsComplete, PartIsThere, Active;
    var raw := c.canonical(state);
    var chunks := Chunks(raw);
    var entries := Entries(c, chunks, urls);
    var manifest := ManifestOf(c, state, raw, |urls|, entries);
    ManifestIsObject(c, state, raw, |urls|, entries);
    ManifestFields(c, state, raw, |urls|, entries);
    ManifestRepeats(c, state, raw, |urls|, entries);
    BodyReadsBack(c, log, url, CheckpointMark, manifest);
    EntriesAreDistinct(c, chunks, urls);
    PartsReadBack(c, log, state, urls, 0);
    ChunksJoin(raw);
    assert chunks[0..] == chunks;
    CanonicalReadsBack(c, state);
    ChunksOfSome(raw);
  }

  lemma ManifestIsObject(c: Codec, state: Json, raw: Bytes, count: nat, entries: seq<Json>)
    requires Valid(state)
    ensures ManifestOf(c, state, raw, count, entries).Obj?
  {
  }

  lemma CanonicalReadsBack(c: Codec, state: Json)
    requires Lawful(c) && Valid(state)
    ensures c.parse(c.canonical(state)) == Some(state) && c.canonical(state) != []
  {
    ValidIsObject(state);
  }

  lemma {:induction false} ChunksOfSome(raw: Bytes)
    requires raw != []
    ensures Chunks(raw) != []
  {
  }

  lemma EntriesAreDistinct(c: Codec, chunks: seq<Bytes>, urls: seq<nat>)
    requires |urls| == |chunks| && forall i, j :: 0 <= i < j < |urls| ==> urls[i] != urls[j]
    ensures DistinctUrls(Entries(c, chunks, urls)) && |Entries(c, chunks, urls)| == |urls|
  {
    hide Chunks;
    var entries := Entries(c, chunks, urls);
    forall i, j | 0 <= i < j < |entries|
      ensures Get(entries[i], Url) != Get(entries[j], Url)
    {
      assert Get(entries[i], Url) == Num(urls[i]) && Get(entries[j], Url) == Num(urls[j]);
    }
  }

  /** What reads at all reads the same however the log grows: until a new record
      lands, the old boundary is what it was. */
  lemma ReadingIsStable(c: Codec, log: seq<Text>, more: seq<Text>, url: nat)
    requires Read(c, log, url).Ok?
    ensures Read(c, log + more, url) == Read(c, log, url)
  {
    hide Valid, Reassembled, AgreesOn, ReadParts;
    var obj := RecordAt(c, log, Num(url), CheckpointMark);
    if Get(obj.value, KindName) == Str(MANIFEST) {
      PartsAreStable(c, log, more, obj.value, Get(obj.value, Parts).items, 0);
    }
  }

  lemma {:induction false} PartsAreStable(c: Codec, log: seq<Text>, more: seq<Text>, manifest: Json, entries: seq<Json>, from: nat)
    requires from <= |entries| && ReadParts(c, log, manifest, entries, from).Ok?
    ensures ReadParts(c, log + more, manifest, entries, from) == ReadParts(c, log, manifest, entries, from)
    decreases |entries| - from
  {
    if from < |entries| {
      PartIsStable(c, log, more, manifest, entries[from], from, |entries|);
      hide ReadPart;
      PartsAreStable(c, log, more, manifest, entries, from + 1);
    }
  }

  lemma PartIsStable(c: Codec, log: seq<Text>, more: seq<Text>, manifest: Json, entry: Json, index: nat, count: nat)
    requires ReadPart(c, log, manifest, entry, index, count).Some?
    ensures ReadPart(c, log + more, manifest, entry, index, count) == ReadPart(c, log, manifest, entry, index, count)
  {
    hide AgreesOn;
  }

  // ----------------------------------------------------- published, then read back

  function KeyOf(v: Json): Option<string> {
    if v.Str? then Some(v.s) else None
  }

  /** What the publishing protocol reads in a row. */
  function KindOf(c: Codec): Text -> Kind {
    text => KindOfText(c, text)
  }

  function KindOfText(c: Codec, text: Text): Kind {
    var record := c.record(text);
    if c.marker(text) == NoMark then Other
    else if record.None? || !record.value.Obj? then Malformed
    else if c.marker(text) == CheckpointMark then
      var key := Get(record.value, PublicationKey);
      if key.Str? || key.Null? then Checkpoint(KeyOf(key)) else Malformed
    else if c.marker(text) == PartMark then
      var (writer, key, index) := (Get(record.value, WriterName), Get(record.value, PublicationKey), Get(record.value, Index));
      if writer.Str? && (key.Str? || key.Null?) then Part(writer.s, KeyOf(key), if index.Num? then index.n else -1)
      else Malformed
    else Other
  }

  /** Which texts a publication may stand beside: any that is no record, and a record
      that can be read and is no checkpoint but its own key's and no part but its own
      writer's and key's. Those that are neither checkpoint nor part are plain. */
  lemma StandsBesideExactlyWhen(c: Codec, text: Text, writer: string, key: string)
    ensures var (kind, marker, record) := (KindOf(c)(text), c.marker(text), c.record(text));
      && (!IsStranger(kind, writer, Some(key)) <==>
            || marker == NoMark
            || (record.Some? && record.value.Obj?
                && (marker == CheckpointMark ==> Get(record.value, PublicationKey) == Str(key))
                && (marker == PartMark ==>
                      Get(record.value, PublicationKey) == Str(key) && Get(record.value, WriterName) == Str(writer))))
      && (Resumption.IsPlain(kind) <==>
            marker == NoMark || (marker == OperationMark && record.Some? && record.value.Obj?))
  {
    hide Get;
  }

  predicate Publishable(state: Json) {
    Valid(state) && Get(state, PublicationKey).Str? && Get(state, WriterName).Str?
  }

  /** The frozen publication of a state after a boundary. */
  function FrozenOf(c: Codec, state: Json, boundary: nat): Frozen
    requires Publishable(state)
  {
    Frozen(Get(state, WriterName).s, Get(state, PublicationKey).s, boundary,
           if IsComplete(c, state) then [] else PartTexts(c, state, Chunks(c.canonical(state))),
           urls => FinalText(c, state, urls))
  }

  /** A snapshot is one record exactly when its canonical bytes and its body fit in
      24 KiB and fewer than fifty of its tasks are not done; else it is cut into
      chunks of 12 KiB. */
  lemma PartitionedExactlyWhen(c: Codec, state: Json, boundary: nat)
    requires Lawful(c) && Publishable(state)
    ensures var (parts, raw) := (FrozenOf(c, state, boundary).parts, c.canonical(state));
      && (parts == [] <==>
            && |raw| <= 24 * 1024 && c.size(c.body(CheckpointMark, state)) <= 24 * 1024
            && |ActivePlaces(Get(state, Tasks).items)| < 50)
      && (parts != [] ==> |parts| == (|raw| + 12 * 1024 - 1) / (12 * 1024))
  {
    hide Lawful, Chunks, PartTexts, ActivePlaces, Active;
    ActiveCounts(Get(state, Tasks).items);
    CanonicalReadsBack(c, state);
    ChunksOfSome(c.canonical(state));
    ChunkCount(c.canonical(state));
  }

  lemma {:induction false} ChunkCount(raw: Bytes)
    ensures |Chunks(raw)| == (|raw| + CHUNK_BYTES - 1) / CHUNK_BYTES
  {
    if |raw| > CHUNK_BYTES {
      ChunkCount(raw[CHUNK_BYTES..]);
    }
  }

  lemma PartKind(c: Codec, state: Json, raw: Bytes, chunk: Bytes, index: nat, count: nat)
    requires Lawful(c) && Publishable(state)
    ensures KindOfText(c, c.body(PartMark, PartOf(c, state, raw, chunk, index, count)))
         == Part(Get(state, WriterName).s, Some(Get(state, PublicationKey).s), index)
  {
    hide Valid, Get, Lawful, PartOf;
    var part := PartOf(c, state, raw, chunk, index, count);
    PartIsObject(c, state, raw, chunk, index, count);
    PartHas(c, state, raw, chunk, index, count, WriterName);
    PartHas(c, state, raw, chunk, index, count, PublicationKey);
    PartHas(c, state, raw, chunk, index, count, Index);
    BodyIsTheRecord(c, PartMark, part);
  }

  lemma BodyIsTheRecord(c: Codec, m: Marker, v: Json)
    requires Lawful(c) && v.Obj?
    ensures c.marker(c.body(m, v)) == m && c.record(c.body(m, v)) == Some(v)
  {
    assert RecordReadsBack(c, m, v);
  }

  lemma CheckpointKind(c: Codec, v: Json, key: string)
    requires Lawful(c) && v.Obj? && Get(v, PublicationKey) == Str(key)
    ensures KindOfText(c, c.body(CheckpointMark, v)) == Checkpoint(Some(key))
  {
    hide Lawful;
    BodyIsTheRecord(c, CheckpointMark, v);
  }

  lemma FinalKind(c: Codec, state: Json, urls: seq<nat>)
    requires Lawful(c) && Publishable(state)
    ensures KindOfText(c, FinalText(c, state, urls)) == Checkpoint(Some(Get(state, PublicationKey).s))
  {
    hide Lawful, Valid, ManifestOf, Chunks, IsComplete, KindOfText, Get, Active;
    var (raw, key) := (c.canonical(state), Get(state, PublicationKey).s);
    var chunks := Chunks(raw);
    ValidIsObject(state);
    if IsComplete(c, state) || |urls| > |chunks| {
      CheckpointKind(c, state, key);
    } else {
      var entries := Entries(c, chunks, urls);
      ManifestHas(c, state, raw, |chunks|, entries, PublicationKey);
      ManifestIsObject(c, state, raw, |chunks|, entries);
      CheckpointKind(c, ManifestOf(c, state, raw, |chunks|, entries), key);
    }
  }

  /** The bodies of a snapshot are recognised for what they are. */
  lemma FrozenIsWellKept(c: Codec, state: Json, boundary: nat)
    requires Lawful(c) && Publishable(state)
    ensures WellKept(KindOf(c), FrozenOf(c, state, boundary))
  {
    hide Lawful, Valid, Chunks, IsComplete, KindOfText, FinalText, PartOf;
    var f := FrozenOf(c, state, boundary);
    forall i: nat | i < |f.parts|
      ensures KindOf(c)(f.parts[i]) == Part(f.writer, Some(f.key), i)
    {
      var raw := c.canonical(state);
      PartKind(c, state, raw, Chunks(raw)[i], i, |Chunks(raw)|);
    }
    forall urls: seq<nat>
      ensures KindOf(c)(f.final(urls)) == Checkpoint(Some(f.key))
    {
      FinalKind(c, state, urls);
    }
  }

  /** Every part within the bound its writer checks before appending it. */
  ghost predicate WithinBounds(c: Codec, f: Frozen) {
    forall i :: 0 <= i < |f.parts| ==> c.size(f.parts[i]) <= SNAPSHOT_LIMIT
  }

  /** A finished publication reads back as the state that was frozen: a complete one
      when its kind is not the manifest's, one in parts always. */
  lemma FinishedReadsBack(c: Codec, log: seq<Text>, state: Json, boundary: nat, url: nat)
    requires Lawful(c) && Publishable(state) && WithinBounds(c, FrozenOf(c, state, boundary))
    requires IsComplete(c, state) ==> Get(state, KindName) != Str(MANIFEST)
    requires Finished(KindOf(c), log, FrozenOf(c, state, boundary), url)
    requires url < |log| && c.size(log[url]) <= SNAPSHOT_LIMIT
    ensures Read(c, log, url) == Ok(state)
  {
    hide Lawful, Valid, Chunks, IsComplete, KindOfText, Read, PartOf, Committed, AllFound, PartOf, Get;
    var f := FrozenOf(c, state, boundary);
    var urls :| FinishedWith(KindOf(c), log, f, url, urls);
    if IsComplete(c, state) {
      CompleteReadsBack(c, log, url, state);
    } else {
      hide FinalText;
      assert PartsAreThere(c, log, state, urls) by {
        forall i | 0 <= i < |urls|
          ensures PartIsThere(c, log, state, urls, i)
        {
          assert PartIsAt(KindOf(c), log, f, i, urls[i]);
        }
      }
      FrozenIsWellKept(c, state, boundary);
      UrlsAreDistinct(KindOf(c), log, f, urls);
      ManifestReadsBack(c, log, url, state, urls);
    }
  }

  /** A record within the bound, which a publisher checks before appending it, reads
      back as the state. */
  ghost predicate ReadsBack(c: Codec, log: seq<Text>, url: nat, state: Json)
    requires url < |log|
  {
    c.size(log[url]) <= SNAPSHOT_LIMIT ==> Read(c, log, url) == Ok(state)
  }

  /** A publication of the state may be under way: nobody else uses its key, and a
      complete record's kind is its own. */
  ghost predicate UnderWay(c: Codec, log: seq<Text>, state: Json, f: Frozen, attempts: seq<Attempt>) {
    && Publishable(state) && f == FrozenOf(c, state, f.boundary) && WithinBounds(c, f)
    && (IsComplete(c, state) ==> Get(state, KindName) != Str(MANIFEST))
    && NoneTwice(KindOf(c), log, f)
    && (forall i :: 0 <= i < |attempts| ==> |attempts[i].parts| == |f.parts|)
    && (forall i :: 0 <= i < |attempts| ==> Alone(KindOf(c), attempts[i], f))
  }

  /** After the attempts, each part is in the log at most once, and when the last of
      them finished, what it published reads back as the state. */
  ghost predicate EndsWell(c: Codec, log: seq<Text>, state: Json, f: Frozen, attempts: seq<Attempt>)
    requires UnderWay(c, log, state, f, attempts) && attempts != []
  {
    var (before, last) := (Resumed(KindOf(c), log, f, attempts[..|attempts| - 1]), attempts[|attempts| - 1]);
    var (after, r) := Attempted(KindOf(c), before, f, last);
    NoneTwice(KindOf(c), after, f) && (r.Ok? ==> r.value < |after| && ReadsBack(c, after, r.value, state))
  }

  /** Interrupted at any append and resumed from the frozen state as often as it takes:
      each part is in the log once, and what finishes reads back as the state. */
  lemma InterruptedPublicationReadsBack(c: Codec, log: seq<Text>, state: Json, f: Frozen, attempts: seq<Attempt>)
    requires Lawful(c) && attempts != []
    ensures UnderWay(c, log, state, f, attempts) ==> EndsWell(c, log, state, f, attempts)
  {
    hide Lawful, Publishable, WithinBounds, IsComplete, KindOf, NoneTwice, Alone, Attempted, Read, FrozenOf, Finished, Get;
    if UnderWay(c, log, state, f, attempts) {
      FrozenIsWellKept(c, state, f.boundary);
      ResumingNeverDoubles(KindOf(c), log, f, attempts);
      var (after, r) := Attempted(KindOf(c), Resumed(KindOf(c), log, f, attempts[..|attempts| - 1]), f, attempts[|attempts| - 1]);
      assert after == Resumed(KindOf(c), log, f, attempts);
      StillOnce(KindOf(c), log, after, f);
      if r.Ok? {
        FinishedIsInTheLog(KindOf(c), after, f, r.value);
        if c.size(after[r.value]) <= SNAPSHOT_LIMIT {
          FinishedReadsBack(c, after, state, f.boundary, r.value);
        }
      }
    }
  }

  /** Undisturbed by other publishers, a state of any size, cut off and resumed any
      number of times, is published by its first smooth attempt and reads back. */
  lemma {:induction false} PublicationGetsDone(c: Codec, log: seq<Text>, state: Json, f: Frozen, attempts: seq<Attempt>, last: Attempt)
    requires Lawful(c) && UnderWay(c, log, state, f, attempts + [last])
    requires Resumption.Undisturbed(KindOf(c), log, f)
    requires forall i :: 0 <= i < |attempts| ==> Resumption.CalmAttempt(KindOf(c), attempts[i], f)
    requires Resumption.SmoothAttempt(KindOf(c), last, f)
    ensures (forall i :: 0 <= i < |attempts| ==> |attempts[i].parts| == |f.parts|) && |last.parts| == |f.parts|
    ensures var (after, r) := Attempted(KindOf(c), Resumed(KindOf(c), log, f, attempts), f, last);
      r.Ok? && r.value < |after| && ReadsBack(c, after, r.value, state)
  {
    assert (attempts + [last])[..|attempts|] == attempts;
    assert forall i :: 0 <= i < |attempts| ==> (attempts + [last])[i] == attempts[i];
    FrozenIsWellKept(c, state, f.boundary);
    InterruptedPublicationReadsBack(c, log, state, f, attempts + [last]);
    hide Lawful, Publishable, WithinBounds, IsComplete, KindOf, NoneTwice, Alone, Attempted, Read, FrozenOf, Get,
         Resumption.Undisturbed, Resumption.IsCalm, Resumption.IsSmooth;
    Resumption.InterruptedPublicationFinishes(KindOf(c), log, f, attempts, last);
  }

  /** Through any number of attempts at a publication, whoever else publishes, what
      read before reads as it did: the old boundary is what it was until a new record
      lands. */
  lemma {:induction false} OldBoundaryStillReads(c: Codec, kind: Text -> Kind, log: seq<Text>, f: Frozen, attempts: seq<Attempt>, earlier: nat)
    requires forall i :: 0 <= i < |attempts| ==> |attempts[i].parts| == |f.parts|
    ensures Read(c, log, earlier).Ok? ==> Read(c, Resumed(kind, log, f, attempts), earlier) == Read(c, log, earlier)
  {
    hide Read, Resumed;
    ResumedGrows(kind, log, f, attempts);
    var after := Resumed(kind, log, f, attempts);
    assert log + after[|log|..] == after;
    if Read(c, log, earlier).Ok? {
      ReadingIsStable(c, log, after[|log|..], earlier);
    }
  }
}
