/** JSON values as the campaign helper holds them. */
module Json {
  /** A field's name: those the helper knows by constructor, any other text by its
      place among the other texts, so that no text has two names. */
  datatype Name =
    | Schema | Campaign | Sequence | PublicationKey | Previous | CreatedAt | WriterName | Phase | BaseSha | Integration
    | Authorization | Lease | Project | Tasks | Inflight | Decisions | Metrics | RetryPolicy | NextAction | StopReason
    | KindName | Format | SnapshotSha256 | SnapshotBytes | PartCount | TaskCount | ActiveTaskCount | Parts
    | Index | Count | ByteCount | Sha256 | Encoding | Payload | Url | TaskState
    | Key | Signature | Id
    | Attempts | Batches | ObservedFailures | ReviewRepairBatches
    | Unlisted(place: nat)

  /** A finite double, by its bit pattern: canonical JSON allows no other float. */
  type Double = bits: nat | bits < 0x1_0000_0000_0000_0000 && bits / 0x10_0000_0000_0000 % 0x800 != 0x7ff

  datatype Json =
    | Null
    | Bool(b: bool)
    | Num(n: int)
    | Float(bits: Double)
    | Str(s: string)
    | Arr(items: seq<Json>)
    | Obj(fields: map<Name, Json>)

  /** `value.get(name)` on an object. */
  function Get(value: Json, name: Name): Json {
    if value.Obj? && name in value.fields then value.fields[name] else Null
  }
}
