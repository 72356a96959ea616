/** The laws a snapshot codec is asked for can all be met at once: here is one that
    meets them. Every value is written so that no other begins as it does. */
module LawfulCodec {
  import opened Json
  import opened Publication
  import opened Snapshot
  import opened Wrappers

  function Unary(n: nat): Bytes {
    if n == 0 then [0] else [1] + Unary(n - 1)
  }

  function OfInt(n: int): Bytes {
    Unary(if n < 0 then -2 * n - 1 else 2 * n)
  }

  function OfChars(s: string): Bytes {
    if s == "" then [] else Unary(s[0] as int) + OfChars(s[1..])
  }

  function OfString(s: string): Bytes {
    Unary(|s|) + OfChars(s)
  }

  /** A name's place in its own third of the list, or the length of that third. */
  function FirstThird(name: Name): nat {
    match name
    case Schema => 0
    case Campaign => 1
    case Sequence => 2
    case PublicationKey => 3
    case Previous => 4
    case CreatedAt => 5
    case WriterName => 6
    case Phase => 7
    case BaseSha => 8
    case Integration => 9
    case Authorization => 10
    case Lease => 11
    case Project => 12
    case Tasks => 13
    case Inflight => 14
    case _ => 15
  }

  function SecondThird(name: Name): nat {
    match name
    case Decisions => 0
    case Metrics => 1
    case RetryPolicy => 2
    case NextAction => 3
    case StopReason => 4
    case KindName => 5
    case Format => 6
    case SnapshotSha256 => 7
    case SnapshotBytes => 8
    case PartCount => 9
    case TaskCount => 10
    case ActiveTaskCount => 11
    case Parts => 12
    case Index => 13
    case Count => 14
    case _ => 15
  }

  function LastThird(name: Name): nat {
    match name
    case ByteCount => 0
    case Sha256 => 1
    case Encoding => 2
    case Payload => 3
    case Url => 4
    case TaskState => 5
    case Key => 6
    case Signature => 7
    case Id => 8
    case Attempts => 9
    case Batches => 10
    case ObservedFailures => 11
    case ReviewRepairBatches => 12
    case Unlisted(place) => 14 + place
    case _ => 13
  }

  function Place(name: Name): nat {
    if FirstThird(name) < 15 then FirstThird(name)
    else if SecondThird(name) < 15 then 15 + SecondThird(name)
    else 30 + LastThird(name)
  }

  ghost function OfValue(v: Json): Bytes
    decreases v, 1, 0
  {
    match v
    case Null => [0]
    case Bool(b) => [1, if b then 1 else 0]
    case Num(n) => [2] + OfInt(n)
    case Float(bits) => [3] + Unary(bits)
    case Str(s) => [4] + OfString(s)
    case Arr(items) => [5] + (Unary(|items|) + OfItems(v, 0))
    case Obj(fields) => [6] + (Unary(|fields.Keys|) + OfFields(v, fields.Keys))
  }

  ghost function OfItems(v: Json, from: nat): Bytes
    requires v.Arr? && from <= |v.items|
    decreases v, 0, |v.items| - from
  {
    if from == |v.items| then [] else OfValue(v.items[from]) + OfItems(v, from + 1)
  }

  ghost function OfFields(v: Json, names: set<Name>): Bytes
    requires v.Obj? && names <= v.fields.Keys
    decreases v, 0, |names|
  {
    if names == {} then []
    else
      var name :| name in names;
      Unary(Place(name)) + (OfValue(v.fields[name]) + OfFields(v, names - {name}))
  }

  lemma Regroup(a: Bytes, b: Bytes, c: Bytes)
    ensures (a + b) + c == a + (b + c)
  {
  }

  lemma {:induction false} UnaryIsPrefixFree(n: nat, m: nat, r: Bytes, s: Bytes)
    requires Unary(n) + r == Unary(m) + s
    ensures n == m && r == s
  {
    assert (Unary(n) + r)[0] == (Unary(m) + s)[0];
    assert (Unary(n) + r)[1..] == (if n == 0 then r else Unary(n - 1) + r);
    assert (Unary(m) + s)[1..] == (if m == 0 then s else Unary(m - 1) + s);
    if n > 0 && m > 0 {
      UnaryIsPrefixFree(n - 1, m - 1, r, s);
    }
  }

  lemma IntIsPrefixFree(n: int, m: int, r: Bytes, s: Bytes)
    requires OfInt(n) + r == OfInt(m) + s
    ensures n == m && r == s
  {
    hide Unary;
    UnaryIsPrefixFree(if n < 0 then -2 * n - 1 else 2 * n, if m < 0 then -2 * m - 1 else 2 * m, r, s);
  }

  lemma {:induction false} CharsArePrefixFree(a: string, b: string, r: Bytes, s: Bytes)
    requires |a| == |b| && OfChars(a) + r == OfChars(b) + s
    ensures a == b && r == s
  {
    if a == "" {
      assert [] + r == r && [] + s == s;
    } else {
      Regroup(Unary(a[0] as int), OfChars(a[1..]), r);
      Regroup(Unary(b[0] as int), OfChars(b[1..]), s);
      UnaryIsPrefixFree(a[0] as int, b[0] as int, OfChars(a[1..]) + r, OfChars(b[1..]) + s);
      CharsArePrefixFree(a[1..], b[1..], r, s);
      assert a == [a[0]] + a[1..] && b == [b[0]] + b[1..];
    }
  }

  lemma StringIsPrefixFree(a: string, b: string, r: Bytes, s: Bytes)
    requires OfString(a) + r == OfString(b) + s
    ensures a == b && r == s
  {
    Regroup(Unary(|a|), OfChars(a), r);
    Regroup(Unary(|b|), OfChars(b), s);
    UnaryIsPrefixFree(|a|, |b|, OfChars(a) + r, OfChars(b) + s);
    CharsArePrefixFree(a, b, r, s);
  }

  lemma FirstNames(a: Name, b: Name)
    requires FirstThird(a) == FirstThird(b) < 15
    ensures a == b
  {
  }

  lemma SecondNames(a: Name, b: Name)
    requires SecondThird(a) == SecondThird(b) < 15
    ensures a == b
  {
  }

  lemma LastNames(a: Name, b: Name)
    requires LastThird(a) == LastThird(b) != 13
    ensures a == b
  {
  }

  lemma EachInOneThird(a: Name)
    ensures FirstThird(a) < 15 || SecondThird(a) < 15 || LastThird(a) != 13
    ensures FirstThird(a) <= 15 && SecondThird(a) <= 15
  {
  }

  lemma PlaceNames(a: Name, b: Name)
    requires Place(a) == Place(b)
    ensures a == b
  {
    hide FirstThird, SecondThird, LastThird;
    EachInOneThird(a);
    EachInOneThird(b);
    if FirstThird(a) < 15 {
      FirstNames(a, b);
    } else if SecondThird(a) < 15 {
      SecondNames(a, b);
    } else {
      LastNames(a, b);
    }
  }

  /** What follows a value's tag. */
  ghost function Tail(v: Json): Bytes {
    OfValue(v)[1..]
  }

  lemma {:induction false} TagAndTail(v: Json)
    ensures OfValue(v) != [] && OfValue(v) == [OfValue(v)[0]] + Tail(v)
    ensures OfValue(v)[0] == match v { case Null => 0 case Bool(_) => 1 case Num(_) => 2 case Float(_) => 3 case Str(_) => 4 case Arr(_) => 5 case Obj(_) => 6 }
  {
  }

  lemma {:induction false} SameTag(v: Json, w: Json, r: Bytes, s: Bytes)
    requires OfValue(v) + r == OfValue(w) + s
    ensures OfValue(v)[0] == OfValue(w)[0] && Tail(v) + r == Tail(w) + s
  {
    hide OfValue, Tail;
    TagAndTail(v);
    TagAndTail(w);
    assert (OfValue(v) + r)[0] == OfValue(v)[0] && (OfValue(w) + s)[0] == OfValue(w)[0];
    assert (OfValue(v) + r)[1..] == Tail(v) + r && (OfValue(w) + s)[1..] == Tail(w) + s;
  }

  lemma {:induction false} ValueIsPrefixFree(v: Json, w: Json, r: Bytes, s: Bytes)
    requires OfValue(v) + r == OfValue(w) + s
    ensures v == w && r == s
    decreases v, 1, 0
  {
    SameTag(v, w, r, s);
    TagAndTail(v);
    TagAndTail(w);
    hide OfItems, OfFields, Unary, OfInt, OfString;
    match v
    case Null =>
      assert Tail(v) == [] && Tail(w) == [] && [] + r == r && [] + s == s;
    case Bool(b) =>
      assert (Tail(v) + r)[0] == (Tail(w) + s)[0];
      assert (Tail(v) + r)[1..] == r && (Tail(w) + s)[1..] == s;
    case Num(n) => IntIsPrefixFree(n, w.n, r, s);
    case Float(bits) => UnaryIsPrefixFree(bits, w.bits, r, s);
    case Str(text) => StringIsPrefixFree(text, w.s, r, s);
    case Arr(items) =>
      Regroup(Unary(|items|), OfItems(v, 0), r);
      Regroup(Unary(|w.items|), OfItems(w, 0), s);
      UnaryIsPrefixFree(|items|, |w.items|, OfItems(v, 0) + r, OfItems(w, 0) + s);
      ItemsArePrefixFree(v, w, 0, r, s);
    case Obj(fields) =>
      Regroup(Unary(|fields.Keys|), OfFields(v, fields.Keys), r);
      Regroup(Unary(|w.fields.Keys|), OfFields(w, w.fields.Keys), s);
      UnaryIsPrefixFree(|fields.Keys|, |w.fields.Keys|, OfFields(v, fields.Keys) + r, OfFields(w, w.fields.Keys) + s);
      FieldsArePrefixFree(v, w, fields.Keys, w.fields.Keys, r, s);
      assert fields == w.fields;
  }

  lemma {:induction false} ItemsArePrefixFree(v: Json, w: Json, from: nat, r: Bytes, s: Bytes)
    requires v.Arr? && w.Arr? && |v.items| == |w.items| && from <= |v.items|
    requires OfItems(v, from) + r == OfItems(w, from) + s
    ensures v.items[from..] == w.items[from..] && r == s
    decreases v, 0, |v.items| - from
  {
    hide OfValue;
    if from == |v.items| {
      assert [] + r == r && [] + s == s;
    } else {
      Regroup(OfValue(v.items[from]), OfItems(v, from + 1), r);
      Regroup(OfValue(w.items[from]), OfItems(w, from + 1), s);
      ValueIsPrefixFree(v.items[from], w.items[from], OfItems(v, from + 1) + r, OfItems(w, from + 1) + s);
      ItemsArePrefixFree(v, w, from + 1, r, s);
      assert v.items[from..] == [v.items[from]] + v.items[from + 1..];
      assert w.items[from..] == [w.items[from]] + w.items[from + 1..];
    }
  }

  lemma NextField(v: Json, names: set<Name>, r: Bytes) returns (name: Name)
    requires v.Obj? && names <= v.fields.Keys && names != {}
    ensures name in names
    ensures OfFields(v, names) + r == Unary(Place(name)) + (OfValue(v.fields[name]) + (OfFields(v, names - {name}) + r))
  {
    hide OfValue, Unary;
    name :| name in names && OfFields(v, names) == Unary(Place(name)) + (OfValue(v.fields[name]) + OfFields(v, names - {name}));
    var value, rest := OfValue(v.fields[name]), OfFields(v, names - {name});
    Regroup(Unary(Place(name)), value + rest, r);
    Regroup(value, rest, r);
  }

  lemma {:induction false} FieldsArePrefixFree(v: Json, w: Json, names: set<Name>, others: set<Name>, r: Bytes, s: Bytes)
    requires v.Obj? && w.Obj? && names <= v.fields.Keys && others <= w.fields.Keys && |names| == |others|
    requires OfFields(v, names) + r == OfFields(w, others) + s
    ensures names == others && r == s && forall name :: name in names ==> v.fields[name] == w.fields[name]
    decreases v, 0, |names|
  {
    hide OfFields, OfValue, Unary, Place;
    if names == {} {
      assert others == {};
      NoFields(v);
      NoFields(w);
      assert [] + r == r && [] + s == s;
    } else {
      var name := NextField(v, names, r);
      assert others != {};
      var other := NextField(w, others, s);
      var later, after := OfFields(v, names - {name}) + r, OfFields(w, others - {other}) + s;
      UnaryIsPrefixFree(Place(name), Place(other), OfValue(v.fields[name]) + later, OfValue(w.fields[other]) + after);
      PlaceNames(name, other);
      ValueIsPrefixFree(v.fields[name], w.fields[name], later, after);
      FieldsArePrefixFree(v, w, names - {name}, others - {name}, r, s);
      assert names == names - {name} + {name} && others == others - {name} + {name};
    }
  }

  lemma {:induction false} NoFields(v: Json)
    requires v.Obj?
    ensures OfFields(v, {}) == []
  {
  }

  // ------------------------------------------------------------------- the codec

  ghost function ToValue(b: Bytes): Option<Json> {
    if exists v :: OfValue(v) == b then
      var v :| OfValue(v) == b;
      Some(v)
    else None
  }

  function ToString(b: Bytes): string {
    seq(|b|, i requires 0 <= i < |b| => b[i] as char)
  }

  ghost function FromString(s: string): Option<Bytes> {
    if exists b :: ToString(b) == s then
      var b :| ToString(b) == s;
      Some(b)
    else None
  }

  function MarkerByte(m: Marker): Byte {
    match m case CheckpointMark => 1 case PartMark => 2 case OperationMark => 3 case NoMark => 0
  }

  function MarkerOf(text: Text): Marker {
    if text == [] then NoMark
    else match text[0] case 1 => CheckpointMark case 2 => PartMark case 3 => OperationMark case _ => NoMark
  }

  ghost function Written(): Codec {
    Codec(
      v => OfValue(v), b => ToValue(b), b => "", b => ToString(b), s => FromString(s),
      (m, v) => [MarkerByte(m)] + OfValue(v), text => MarkerOf(text),
      text => if text == [] then None else ToValue(text[1..]), text => |text|)
  }

  lemma {:induction false} ValueReadsBack(v: Json)
    ensures ToValue(OfValue(v)) == Some(v) && OfValue(v) != []
  {
    hide OfValue;
    TagAndTail(v);
    var w :| OfValue(w) == OfValue(v) && ToValue(OfValue(v)) == Some(w);
    ValueIsPrefixFree(v, w, [], []);
  }

  lemma StringReadsBack(b: Bytes)
    ensures FromString(ToString(b)) == Some(b)
  {
    var a :| ToString(a) == ToString(b) && FromString(ToString(b)) == Some(a);
    assert |ToString(a)| == |a| && |ToString(b)| == |b|;
    forall i | 0 <= i < |b|
      ensures a[i] == b[i]
    {
      assert ToString(a)[i] == a[i] as char && ToString(b)[i] == b[i] as char;
      assert a[i] as int == (a[i] as char) as int;
    }
    assert a == b;
  }

  /** So the laws hold of something, and what is proved from them is not empty. */
  lemma LawfulCodecExists()
    ensures Lawful(Written())
  {
    hide OfValue, ToValue, ToString, FromString;
    var c := Written();
    forall m: Marker, v: Json
      ensures RecordReadsBack(c, m, v)
    {
      ValueReadsBack(v);
      assert ([MarkerByte(m)] + OfValue(v))[1..] == OfValue(v);
    }
    forall v: Json
      ensures c.parse(c.canonical(v)) == Some(v) && c.canonical(v) != []
    {
      ValueReadsBack(v);
    }
    forall b: Bytes
      ensures c.unbase64(c.base64(b)) == Some(b)
    {
      StringReadsBack(b);
    }
  }
}
