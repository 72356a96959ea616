/** The binary scan that asserts the shipped bytes name no harness hook. */
module BoundaryNames {
  type Byte = int

  /** "QUANTICK_" */
  const PREFIX: seq<Byte> := [81, 85, 65, 78, 84, 73, 67, 75, 95]

  /** An upper-case letter, a digit or the underscore. */
  predicate IsNameByte(b: Byte) {
    65 <= b <= 90 || 48 <= b <= 57 || b == 95
  }

  predicate AllNameBytes(s: seq<Byte>) {
    forall k :: 0 <= k < |s| ==> IsNameByte(s[k])
  }

  predicate OccursAt(binary: seq<Byte>, word: seq<Byte>, i: nat) {
    i + |word| <= |binary| && binary[i..i + |word|] == word
  }

  /** What the per-name pattern asks: `word` here, with no name byte on either side. */
  predicate StandsAlone(binary: seq<Byte>, word: seq<Byte>, i: nat) {
    && OccursAt(binary, word, i)
    && (i == 0 || !IsNameByte(binary[i - 1]))
    && (i + |word| == |binary| || !IsNameByte(binary[i + |word|]))
  }

  /** The names the scan is about. */
  predicate IsHookName(word: seq<Byte>) {
    |PREFIX| <= |word| && word[..|PREFIX|] == PREFIX && AllNameBytes(word)
  }

  ghost predicate NoneIn(binary: seq<Byte>, word: seq<Byte>, from: nat, to: nat) {
    forall i: nat :: from <= i < to ==> !OccursAt(binary, word, i)
  }

  /** `bytes.find(PREFIX, from)` */
  method Find(binary: seq<Byte>, from: nat) returns (at: int)
    ensures at == -1 ==> NoneIn(binary, PREFIX, from, |binary|)
    ensures at != -1 ==> from <= at && OccursAt(binary, PREFIX, at) && NoneIn(binary, PREFIX, from, at)
  {
    var i := from;
    while i + |PREFIX| <= |binary|
      invariant from <= i && NoneIn(binary, PREFIX, from, i)
    {
      if binary[i..i + |PREFIX|] == PREFIX {
        return i;
      }
      i := i + 1;
    }
    return -1;
  }

  method RunEnd(binary: seq<Byte>, from: nat) returns (end: nat)
    requires from <= |binary|
    ensures from <= end <= |binary| && AllNameBytes(binary[from..end])
    ensures end == |binary| || !IsNameByte(binary[end])
  {
    end := from;
    while end < |binary| && IsNameByte(binary[end])
      invariant from <= end <= |binary| && AllNameBytes(binary[from..end])
    {
      assert binary[from..end + 1] == binary[from..end] + [binary[end]];
      end := end + 1;
    }
  }

  lemma RunBytes(binary: seq<Byte>, start: nat, end: nat)
    requires start <= end <= |binary| && AllNameBytes(binary[start..end])
    ensures forall k :: start <= k < end ==> IsNameByte(binary[k])
  {
    forall k | start <= k < end
      ensures IsNameByte(binary[k])
    {
      assert binary[start..end][k - start] == binary[k];
    }
  }

  /** A standing-alone name at `start` is the whole run that begins there. */
  lemma TheRunIsTheName(binary: seq<Byte>, word: seq<Byte>, start: nat, end: nat)
    requires start <= end <= |binary| && AllNameBytes(binary[start..end])
    requires end == |binary| || !IsNameByte(binary[end])
    requires AllNameBytes(word) && StandsAlone(binary, word, start)
    ensures word == binary[start..end]
  {
    var stop := start + |word|;
    RunBytes(binary, start, end);
    RunBytes(binary, start, stop);
    assert stop == end;
  }

  /** Inside a run every position has a name byte before it. */
  lemma InsideIsNotABoundary(binary: seq<Byte>, word: seq<Byte>, start: nat, end: nat, i: nat)
    requires start < i <= end <= |binary| && AllNameBytes(binary[start..end])
    ensures !StandsAlone(binary, word, i)
  {
    assert binary[start..end][i - 1 - start] == binary[i - 1];
  }

  lemma StartsWithPrefix(binary: seq<Byte>, word: seq<Byte>, i: nat)
    requires IsHookName(word) && OccursAt(binary, word, i)
    ensures OccursAt(binary, PREFIX, i)
  {
    assert word[..|PREFIX|] == binary[i..i + |PREFIX|];
  }

  /** Every hook name standing alone before `upTo` is found, and nothing else. */
  ghost predicate FoundUpTo(binary: seq<Byte>, found: set<seq<Byte>>, upTo: nat) {
    && (forall word :: word in found ==> IsHookName(word) && StandsSomewhere(binary, word))
    && (forall word, i: nat :: i < upTo && IsHookName(word) && StandsAlone(binary, word, i) ==> word in found)
  }

  ghost predicate StandsSomewhere(binary: seq<Byte>, word: seq<Byte>) {
    exists i: nat :: StandsAlone(binary, word, i)
  }

  lemma SkipsNothing(binary: seq<Byte>, found: set<seq<Byte>>, from: nat, to: nat)
    requires FoundUpTo(binary, found, from) && NoneIn(binary, PREFIX, from, to)
    ensures FoundUpTo(binary, found, to)
  {
    forall word, i: nat | i < to && IsHookName(word) && StandsAlone(binary, word, i)
      ensures word in found
    {
      StartsWithPrefix(binary, word, i);
    }
  }

  /** One maximal run: its head is recorded exactly at a boundary, its inside never. */
  lemma OneRun(binary: seq<Byte>, found: set<seq<Byte>>, start: nat, end: nat)
    requires FoundUpTo(binary, found, start) && OccursAt(binary, PREFIX, start)
    requires start + |PREFIX| <= end <= |binary| && AllNameBytes(binary[start + |PREFIX|..end])
    requires end == |binary| || !IsNameByte(binary[end])
    ensures var boundary := start == 0 || !IsNameByte(binary[start - 1]);
            FoundUpTo(binary, if boundary then found + {binary[start..end]} else found, end)
  {
    var boundary, name := start == 0 || !IsNameByte(binary[start - 1]), binary[start..end];
    WholeRun(binary, start, end);
    var now := if boundary then found + {name} else found;
    assert boundary ==> StandsAlone(binary, name, start);
    forall word, i: nat | i < end && IsHookName(word) && StandsAlone(binary, word, i)
      ensures word in now
    {
      if i == start {
        TheRunIsTheName(binary, word, start, end);
      } else if start < i {
        InsideIsNotABoundary(binary, word, start, end, i);
      }
    }
  }

  lemma WholeRun(binary: seq<Byte>, start: nat, end: nat)
    requires OccursAt(binary, PREFIX, start)
    requires start + |PREFIX| <= end <= |binary| && AllNameBytes(binary[start + |PREFIX|..end])
    ensures IsHookName(binary[start..end])
  {
    var name := binary[start..end];
    assert name[..|PREFIX|] == binary[start..start + |PREFIX|];
    assert AllNameBytes(PREFIX);
    assert name == PREFIX + binary[start + |PREFIX|..end];
  }

  /** The skip-ahead scan finds a name exactly when it stands alone somewhere. */
  method Scan(binary: seq<Byte>) returns (found: set<seq<Byte>>)
    ensures forall word :: word in found <==> IsHookName(word) && StandsSomewhere(binary, word)
  {
    hide IsHookName, AllNameBytes, IsNameByte, FoundUpTo;
    found := {};
    assert FoundUpTo(binary, found, 0) by { NothingYet(binary); }
    ghost var from: nat := 0;
    var start := Find(binary, 0);
    while start != -1
      invariant FoundUpTo(binary, found, from)
      invariant start == -1 ==> NoneIn(binary, PREFIX, from, |binary|)
      invariant start != -1 ==> from <= start && OccursAt(binary, PREFIX, start) && NoneIn(binary, PREFIX, from, start)
      decreases if start == -1 then -1 else |binary| - start
    {
      SkipsNothing(binary, found, from, start);
      var end := RunEnd(binary, start + |PREFIX|);
      OneRun(binary, found, start, end);
      if start == 0 || !IsNameByte(binary[start - 1]) {
        found := found + {binary[start..end]};
      }
      from := end;
      start := Find(binary, end);
    }
    SkipsNothing(binary, found, from, |binary|);
    AllOfThem(binary, found);
  }

  lemma NothingYet(binary: seq<Byte>)
    ensures FoundUpTo(binary, {}, 0)
  {
  }

  lemma AllOfThem(binary: seq<Byte>, found: set<seq<Byte>>)
    requires FoundUpTo(binary, found, |binary|)
    ensures forall word :: word in found <==> IsHookName(word) && StandsSomewhere(binary, word)
  {
  }
}
