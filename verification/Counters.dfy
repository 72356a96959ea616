/** The campaign's counters: what `counter_map` tracks in a snapshot, and what a
    successor must preserve. */
module Counters {
  import opened Json
  import opened Wrappers

  type Path = seq<Name>

  /** None is a count whose history is unknown. */
  type Tally = Option<int>

  const TRACKED: set<Name> := {Attempts, Batches, ObservedFailures, ReviewRepairBatches}
  const REPAIRS := ReviewRepairBatches

  /** How a list names its items: by key, signature or id, else by position. */
  function Identity(show: Json -> Name, item: Json, index: nat): Name {
    if item.Obj? && Key in item.fields then show(item.fields[Key])
    else if item.Obj? && Signature in item.fields then show(item.fields[Signature])
    else if item.Obj? && Id in item.fields then show(item.fields[Id])
    else show(Num(index))
  }

  const NAMING := [Key, Signature, Id]

  ghost predicate HasField(item: Json, name: Name) {
    item.Obj? && name in item.fields
  }

  /** An item goes by the first of its key, signature and id, and by its place when it
      has none of them. */
  lemma GoesByTheFirst(show: Json -> Name, item: Json, index: nat)
    ensures forall j :: 0 <= j < |NAMING| && HasField(item, NAMING[j]) && (forall i :: 0 <= i < j ==> !HasField(item, NAMING[i])) ==>
      Identity(show, item, index) == show(item.fields[NAMING[j]])
    ensures (forall j :: 0 <= j < |NAMING| ==> !HasField(item, NAMING[j])) ==> Identity(show, item, index) == show(Num(index))
  {
    assert NAMING[0] == Key && NAMING[1] == Signature && NAMING[2] == Id;
  }

  /** The count a path leads to: through an object by field, through a list by
      identity, the last item of that identity that has one. */
  function Lookup(show: Json -> Name, value: Json, path: Path, counted: bool): Option<Tally>
    decreases value
  {
    match value
    case Obj(fields) =>
      if path == [] || path[0] !in fields then None
      else if path[0] == REPAIRS && fields[path[0]] == Null then
        if |path| == 1 then Some(None) else None
      else Lookup(show, fields[path[0]], path[1..], counted || path[0] in TRACKED)
    case Arr(items) =>
      if path == [] then None else LookupItems(show, items, 0, path, counted)
    case Num(n) => if counted && path == [] then Some(Some(n)) else None
    case _ => None
  }

  function LookupItems(show: Json -> Name, items: seq<Json>, from: nat, path: Path, counted: bool): Option<Tally>
    requires path != []
    decreases items
  {
    if items == [] then None
    else
      var later := LookupItems(show, items[1..], from + 1, path, counted);
      if later.Some? then later
      else if Identity(show, items[0], from) == path[0] then Lookup(show, items[0], path[1..], counted)
      else None
  }

  predicate Beneath(p: Path, path: Path) {
    |path| <= |p| && p[..|path|] == path
  }

  function Under(show: Json -> Name, value: Json, path: Path, counted: bool, p: Path): Option<Tally> {
    if Beneath(p, path) then Lookup(show, value, p[|path|..], counted) else None
  }

  ghost predicate Maps(result: map<Path, Tally>, p: Path, found: Option<Tally>) {
    (p in result <==> found.Some?) && (p in result ==> result[p] == found.value)
  }

  lemma LongerIsBeneath(p: Path, path: Path, key: Name)
    ensures Beneath(p, path + [key]) <==> Beneath(p, path) && |p| > |path| && p[|path|] == key
    ensures Beneath(p, path + [key]) ==> p[|path|..][0] == key && p[|path|..][1..] == p[|path + [key]|..]
  {
    if Beneath(p, path + [key]) {
      assert p[..|path|] == (path + [key])[..|path|];
    }
    if Beneath(p, path) && |p| > |path| && p[|path|] == key {
      assert p[..|path| + 1] == path + [key];
    }
  }

  /** What a field adds: its own branch, and nothing to any other. */
  lemma FieldBranch(show: Json -> Name, fields: map<Name, Json>, path: Path, counted: bool, key: Name, p: Path)
    requires key in fields && !(key == REPAIRS && fields[key] == Null)
    ensures Beneath(p, path + [key]) ==>
      Under(show, fields[key], path + [key], counted || key in TRACKED, p) == Under(show, Obj(fields), path, counted, p)
  {
    LongerIsBeneath(p, path, key);
  }

  lemma UnknownBranch(show: Json -> Name, fields: map<Name, Json>, path: Path, counted: bool, p: Path)
    requires REPAIRS in fields && fields[REPAIRS] == Null && Beneath(p, path + [REPAIRS])
    ensures Under(show, Obj(fields), path, counted, p) == if p == path + [REPAIRS] then Some(None) else None
  {
    LongerIsBeneath(p, path, REPAIRS);
    assert |p| == |path| + 1 ==> p == path + [REPAIRS];
  }

  /** Beneath which of the keys done so far, if any. */
  ghost predicate Among(p: Path, path: Path, keys: set<Name>) {
    |p| > |path| && Beneath(p, path) && p[|path|] in keys
  }

  /** What an object holds beneath one field, and beneath some of them. */
  function InField(show: Json -> Name, fields: map<Name, Json>, path: Path, counted: bool, key: Name, p: Path): Option<Tally> {
    if Beneath(p, path + [key]) then Under(show, Obj(fields), path, counted, p) else None
  }

  ghost function InFields(show: Json -> Name, fields: map<Name, Json>, path: Path, counted: bool, keys: set<Name>, p: Path): Option<Tally> {
    if Among(p, path, keys) then Under(show, Obj(fields), path, counted, p) else None
  }

  /** `counter_map` */
  method CounterMap(show: Json -> Name, value: Json, path: Path, counted: bool) returns (result: map<Path, Tally>)
    ensures forall p :: Maps(result, p, Under(show, value, path, counted, p))
    decreases value, 1
  {
    hide Lookup, LookupItems;
    result := map[];
    match value {
      case Obj(fields) => result := ObjectMap(show, fields, path, counted);
      case Arr(items) => result := ListMap(show, items, path, counted);
      case Num(n) =>
        LeafLookup(show, value, counted);
        if counted {
          result := result[path := Some(n)];
        }
        assert forall p :: Beneath(p, path) && p[|path|..] == [] ==> p == path;
      case _ =>
        LeafLookup(show, value, counted);
    }
  }

  lemma LeafLookup(show: Json -> Name, value: Json, counted: bool)
    requires !value.Obj? && !value.Arr?
    ensures forall p :: Lookup(show, value, p, counted) == if value.Num? && counted && p == [] then Some(Some(value.n)) else None
  {
  }

  method ObjectMap(show: Json -> Name, fields: map<Name, Json>, path: Path, counted: bool) returns (result: map<Path, Tally>)
    ensures forall p :: Maps(result, p, Under(show, Obj(fields), path, counted, p))
    decreases Obj(fields), 0
  {
    hide Lookup, Under;
    result := map[];
    var left := fields.Keys;
    while left != {}
      invariant left <= fields.Keys
      invariant forall p :: Maps(result, p, InFields(show, fields, path, counted, fields.Keys - left, p))
      decreases |left|
    {
      var key :| key in left;
      var item := fields[key];
      var branch: map<Path, Tally>;
      if key == REPAIRS && item == Null {
        branch := map[path + [key] := None];
        UnknownBranches(show, fields, path, counted, branch);
      } else {
        var track := counted || key in TRACKED;
        branch := CounterMap(show, item, path + [key], track);
        FieldBranches(show, fields, path, counted, key, track, branch);
      }
      AddBranch(show, fields, path, counted, key, fields.Keys - left, result, branch);
      result := result + branch;
      assert fields.Keys - (left - {key}) == fields.Keys - left + {key};
      left := left - {key};
    }
    assert fields.Keys - left == fields.Keys;
    AllBranches(show, fields, path, counted);
  }

  lemma UnknownBranches(show: Json -> Name, fields: map<Name, Json>, path: Path, counted: bool, branch: map<Path, Tally>)
    requires REPAIRS in fields && fields[REPAIRS] == Null && branch == map[path + [REPAIRS] := None]
    ensures forall p :: Maps(branch, p, InField(show, fields, path, counted, REPAIRS, p))
  {
    hide Under;
    forall p
      ensures Maps(branch, p, InField(show, fields, path, counted, REPAIRS, p))
    {
      if Beneath(p, path + [REPAIRS]) {
        UnknownBranch(show, fields, path, counted, p);
      }
    }
  }

  lemma FieldBranches(show: Json -> Name, fields: map<Name, Json>, path: Path, counted: bool, key: Name, tracked: bool,
                      branch: map<Path, Tally>)
    requires key in fields && !(key == REPAIRS && fields[key] == Null) && tracked == (counted || key in TRACKED)
    requires forall p :: Maps(branch, p, Under(show, fields[key], path + [key], tracked, p))
    ensures forall p :: Maps(branch, p, InField(show, fields, path, counted, key, p))
  {
    hide Lookup, Maps;
    forall p
      ensures Maps(branch, p, InField(show, fields, path, counted, key, p))
    {
      assert Maps(branch, p, Under(show, fields[key], path + [key], tracked, p));
      FieldBranch(show, fields, path, counted, key, p);
      assert !Beneath(p, path + [key]) ==> Under(show, fields[key], path + [key], tracked, p) == None;
    }
  }

  lemma AddBranch(show: Json -> Name, fields: map<Name, Json>, path: Path, counted: bool, key: Name, done: set<Name>,
                  result: map<Path, Tally>, branch: map<Path, Tally>)
    requires forall p :: Maps(result, p, InFields(show, fields, path, counted, done, p))
    requires forall p :: Maps(branch, p, InField(show, fields, path, counted, key, p))
    ensures forall p :: Maps(result + branch, p, InFields(show, fields, path, counted, done + {key}, p))
  {
    hide Under;
    forall p
      ensures Maps(result + branch, p, InFields(show, fields, path, counted, done + {key}, p))
    {
      LongerIsBeneath(p, path, key);
      assert Maps(result, p, InFields(show, fields, path, counted, done, p));
      assert Maps(branch, p, InField(show, fields, path, counted, key, p));
    }
  }

  lemma AllBranches(show: Json -> Name, fields: map<Name, Json>, path: Path, counted: bool)
    ensures forall p :: InFields(show, fields, path, counted, fields.Keys, p) == Under(show, Obj(fields), path, counted, p)
  {
  }

  // ------------------------------------------------------------------------ lists

  lemma {:induction false} ItemsExtend(show: Json -> Name, items: seq<Json>, from: nat, item: Json, path: Path, counted: bool)
    requires path != []
    ensures LookupItems(show, items + [item], from, path, counted)
         == var last := if Identity(show, item, from + |items|) == path[0] then Lookup(show, item, path[1..], counted) else None;
            if last.Some? then last else LookupItems(show, items, from, path, counted)
  {
    hide Lookup, Identity;
    if items == [] {
      assert (items + [item])[1..] == [];
    } else {
      assert (items + [item])[1..] == items[1..] + [item];
      ItemsExtend(show, items[1..], from + 1, item, path, counted);
    }
  }

  method ListMap(show: Json -> Name, items: seq<Json>, path: Path, counted: bool) returns (result: map<Path, Tally>)
    ensures forall p :: Maps(result, p, Under(show, Arr(items), path, counted, p))
    decreases Arr(items), 0
  {
    hide Lookup, Under;
    result := map[];
    ListBegins(show, path, counted);
    for index := 0 to |items|
      invariant forall p :: Maps(result, p, Under(show, Arr(items[..index]), path, counted, p))
    {
      var identity := Identity(show, items[index], index);
      var branch := CounterMap(show, items[index], path + [identity], counted);
      AddItem(show, items, index, path, counted, items[..index + 1], result, branch);
      result := result + branch;
    }
    assert items[..|items|] == items;
  }

  lemma ListBegins(show: Json -> Name, path: Path, counted: bool)
    ensures forall p :: Maps(map[], p, Under(show, Arr([]), path, counted, p))
  {
  }

  lemma AddItem(show: Json -> Name, items: seq<Json>, index: nat, path: Path, counted: bool,
                through: seq<Json>, result: map<Path, Tally>, branch: map<Path, Tally>)
    requires index < |items| && through == items[..index + 1]
    requires forall p :: Maps(result, p, Under(show, Arr(items[..index]), path, counted, p))
    requires forall p :: Maps(branch, p, Under(show, items[index], path + [Identity(show, items[index], index)], counted, p))
    ensures forall p :: Maps(result + branch, p, Under(show, Arr(through), path, counted, p))
  {
    hide Under, Identity;
    var identity := Identity(show, items[index], index);
    forall p
      ensures Maps(result + branch, p, Under(show, Arr(through), path, counted, p))
    {
      ItemAdds(show, items, index, path, counted, p);
      assert Maps(result, p, Under(show, Arr(items[..index]), path, counted, p));
      assert Maps(branch, p, Under(show, items[index], path + [identity], counted, p));
    }
  }

  lemma ItemAdds(show: Json -> Name, items: seq<Json>, index: nat, path: Path, counted: bool, p: Path)
    requires index < |items|
    ensures var last := Under(show, items[index], path + [Identity(show, items[index], index)], counted, p);
      Under(show, Arr(items[..index + 1]), path, counted, p)
        == if last.Some? then last else Under(show, Arr(items[..index]), path, counted, p)
  {
    hide Identity, LookupItems;
    var identity := Identity(show, items[index], index);
    LongerIsBeneath(p, path, identity);
    assert items[..index + 1] == items[..index] + [items[index]];
    if Beneath(p, path) && |p| > |path| {
      assert p[|path|..] != [] && p[|path|..][0] == p[|path|];
      ItemsExtend(show, items[..index], 0, items[index], p[|path|..], counted);
    }
  }

  // -------------------------------------------------------------- preservation

  /** A count may only grow, and an unknown one stays unknown. */
  predicate Kept(was: Tally, now: Tally) {
    if was.None? then now.None? else now.Some? && was.value <= now.value
  }

  ghost predicate Preserves(show: Json -> Name, before: Json, after: Json) {
    forall p :: KeepsAt(show, before, after, p)
  }

  /** A count stays where it was and never falls, and an unknown one stays unknown. */
  ghost predicate KeepsAt(show: Json -> Name, before: Json, after: Json, p: Path) {
    var was := Lookup(show, before, p, false);
    var now := Lookup(show, after, p, false);
    was.Some? ==>
      && now.Some? && (was.value.None? <==> now.value.None?)
      && (was.value.Some? && now.value.Some? ==> was.value.value <= now.value.value)
  }

  datatype Problem = Removed(path: Path) | Decreased(path: Path)

  /** `preserve_counters` */
  method PreserveCounters(show: Json -> Name, before: Json, after: Json) returns (problem: Option<Problem>)
    ensures problem.None? <==> Preserves(show, before, after)
  {
    hide Lookup, KeepsAt, Maps, Kept, Under;
    var oldCounts := CounterMap(show, before, [], false);
    var newCounts := CounterMap(show, after, [], false);
    var left := oldCounts.Keys;
    CountsDecide(show, before, after, oldCounts, newCounts);
    while left != {}
      invariant left <= oldCounts.Keys
      invariant forall p :: p in oldCounts && p !in left ==> KeepsAt(show, before, after, p)
      decreases |left|
    {
      var path :| path in left;
      if path !in newCounts {
        assert !KeepsAt(show, before, after, path);
        return Some(Removed(path));
      }
      if !Kept(oldCounts[path], newCounts[path]) {
        assert !KeepsAt(show, before, after, path);
        return Some(Decreased(path));
      }
      left := left - {path};
    }
    return None;
  }

  lemma CountsDecide(show: Json -> Name, before: Json, after: Json, was: map<Path, Tally>, now: map<Path, Tally>)
    requires forall p :: Maps(was, p, Under(show, before, [], false, p))
    requires forall p :: Maps(now, p, Under(show, after, [], false, p))
    ensures forall p :: KeepsAt(show, before, after, p) <==> (p in was ==> p in now && Kept(was[p], now[p]))
  {
    hide Lookup;
    WholePaths(show, before, was);
    WholePaths(show, after, now);
    forall p
      ensures KeepsAt(show, before, after, p) <==> (p in was ==> p in now && Kept(was[p], now[p]))
    {
      assert Maps(was, p, Lookup(show, before, p, false)) && Maps(now, p, Lookup(show, after, p, false));
    }
  }

  lemma WholePaths(show: Json -> Name, value: Json, counts: map<Path, Tally>)
    requires forall p :: Maps(counts, p, Under(show, value, [], false, p))
    ensures forall p :: Maps(counts, p, Lookup(show, value, p, false))
  {
    hide Lookup;
    forall p
      ensures Maps(counts, p, Lookup(show, value, p, false))
    {
      assert p[..0] == [] && p[0..] == p;
      assert Maps(counts, p, Under(show, value, [], false, p));
    }
  }

  ghost predicate PreservesAlong(show: Json -> Name, chain: seq<Json>) {
    forall i :: 0 <= i < |chain| - 1 ==> PreservesStep(show, chain, i)
  }

  ghost predicate PreservesStep(show: Json -> Name, chain: seq<Json>, i: nat)
    requires i + 1 < |chain|
  {
    Preserves(show, chain[i], chain[i + 1])
  }

  /** Along a lineage no tracked count disappears or falls, and none unknown becomes known. */
  lemma {:induction false} CountersOnlyGrow(show: Json -> Name, chain: seq<Json>, i: nat, j: nat)
    requires i <= j < |chain| && PreservesAlong(show, chain)
    ensures Preserves(show, chain[i], chain[j])
    decreases j - i
  {
    hide Lookup;
    if i < j {
      CountersOnlyGrow(show, chain, i, j - 1);
      assert PreservesStep(show, chain, j - 1);
      forall p
        ensures KeepsAt(show, chain[i], chain[j], p)
      {
        assert KeepsAt(show, chain[i], chain[j - 1], p) && KeepsAt(show, chain[j - 1], chain[j], p);
      }
    }
  }
}
