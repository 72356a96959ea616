/** The Rust use-tree expander of the read-cost meter. */
module UseTree {
  import opened Wrappers

  datatype Token = Word(text: string) | SelfWord | As | Star | Open | Close | Comma | Semi | Colons

  type Path = seq<Token>

  /** What is left to read, and the paths found on the way. */
  datatype Reading = Reading(rest: seq<Token>, found: seq<Path>)

  /** A use statement's text ends before its semicolon. */
  ghost predicate NoSemi(tokens: seq<Token>) {
    Semi !in tokens
  }

  /** `node`: one tree, under `path`. */
  function Node(rest: seq<Token>, path: Path): (r: Reading)
    requires NoSemi(rest)
    ensures NoSemi(r.rest) && |r.rest| <= |rest|
    ensures |r.rest| == |rest| ==> rest == [] || rest[0] == Comma || rest[0] == Close
    decreases |rest|, 0
  {
    if rest == [] then Reading(rest, []) else
    var after := rest[1..];
    match rest[0] {
      case Comma => Reading(rest, [])
      case Close => Reading(rest, [])
      case Semi => Reading(rest, [])
      case As => Reading(if after == [] then [] else after[1..], [])
      case Star => Reading(after, [path])
      case Open => Items(after, path)
      case Colons => Node(after, path)
      case _ => Segment(rest, path)
    }
  }

  /** A segment at the head: `self` names the path so far, anything else extends it. */
  function Segment(rest: seq<Token>, path: Path): (r: Reading)
    requires NoSemi(rest) && rest != []
    ensures NoSemi(r.rest) && |r.rest| < |rest|
    decreases |rest| - 1, 1
  {
    var token, after := rest[0], rest[1..];
    if token == SelfWord && path != [] then
      var r := Node(after, path);
      Reading(r.rest, [path] + r.found)
    else if after == [] || after[0] != Colons then
      Reading(after, [path + [token]])
    else
      Node(after, path + [token])
  }

  /** `group` past its opening brace, to just past its closing one. */
  function Items(rest: seq<Token>, prefix: Path): (r: Reading)
    requires NoSemi(rest)
    ensures NoSemi(r.rest) && |r.rest| <= |rest|
    decreases |rest|, 1
  {
    if rest == [] then Reading(rest, [])
    else if rest[0] == Close then Reading(rest[1..], [])
    else
      var one := Node(rest, prefix);
      var more := Items(PastComma(one.rest), prefix);
      Reading(more.rest, one.found + more.found)
  }

  function PastComma(rest: seq<Token>): (r: seq<Token>)
    ensures NoSemi(rest) ==> NoSemi(r)
    ensures |r| <= |rest| && (rest != [] && rest[0] == Comma ==> |r| < |rest|)
  {
    if rest != [] && rest[0] == Comma then rest[1..] else rest
  }

  /** The expander itself: a cursor shared by two routines that call each other. */
  class Expander {
    const tokens: seq<Token>
    var position: nat
    var found: seq<Path>

    constructor (tokens: seq<Token>)
      ensures this.tokens == tokens && position == 0 && found == []
    {
      this.tokens, position, found := tokens, 0, [];
    }

    ghost predicate Valid()
      reads `position
    {
      position <= |tokens| && NoSemi(tokens)
    }

    ghost function Left(): (rest: seq<Token>)
      requires Valid()
      reads `position
      ensures NoSemi(rest)
    {
      tokens[position..]
    }

    method ReadGroup(prefix: Path)
      requires Valid() && Left() != [] && Left()[0] == Open
      modifies `position, `found
      ensures Valid()
      ensures Left() == Items(old(Left())[1..], prefix).rest
      ensures found == old(found) + Items(old(Left())[1..], prefix).found
      decreases |tokens| - position, 0
    {
      hide Node, Items;
      ghost var all := Items(Left()[1..], prefix);
      ghost var start := position;
      position := position + 1;
      while position < |tokens| && tokens[position] != Close
        invariant Valid() && start < position
        invariant all.rest == Items(Left(), prefix).rest
        invariant old(found) + all.found == found + Items(Left(), prefix).found
        decreases |tokens| - position
      {
        ghost var here, was := Left(), found;
        ItemsUnfolds(here, prefix);
        ReadNode(prefix);
        ghost var stopped := Left();
        if position < |tokens| && tokens[position] == Comma {
          position := position + 1;
        }
        assert Left() == PastComma(stopped);
        Reassociate(was, Node(here, prefix).found, Items(Left(), prefix).found);
      }
      ItemsEnd(Left(), prefix);
      if position < |tokens| && tokens[position] == Close {
        position := position + 1;
      }
    }

    method ReadNode(prefix: Path)
      requires Valid()
      modifies `position, `found
      ensures Valid()
      ensures Left() == Node(old(Left()), prefix).rest
      ensures found == old(found) + Node(old(Left()), prefix).found
      decreases |tokens| - position, 1
    {
      hide Node, Items, Segment, NoSemi;
      var path := prefix;
      if position < |tokens| && tokens[position] == Open {
        NodeAt(tokens, position, path);
        ReadGroup(path);
        return;
      }
      ghost var all := Node(Left(), prefix);
      ghost var start := position;
      while position < |tokens|
        invariant Valid() && start <= position
        invariant all.rest == Node(Left(), path).rest
        invariant old(found) + all.found == found + Node(Left(), path).found
        invariant position < |tokens| && tokens[position] == Open ==> start < position
        decreases |tokens| - position
      {
        var token := tokens[position];
        ghost var was := found;
        NodeAt(tokens, position, path);
        if token == Comma || token == Close || token == Semi {
          return;
        }
        if token == As {
          position := position + 1;
          if position < |tokens| {
            position := position + 1;
          }
          return;
        }
        if token == Star {
          position := position + 1;
          found := found + [path];
          return;
        }
        if token == Open {
          ReadGroup(path);
          return;
        }
        position := position + 1;
        if token == Colons {
          continue;
        }
        if token == SelfWord && path != [] {
          found := found + [path];
          Reassociate(was, [path], Node(Left(), path).found);
          continue;
        }
        path := path + [token];
        if position >= |tokens| || tokens[position] != Colons {
          found := found + [path];
          return;
        }
      }
      NodeUnfolds(Left(), path);
    }

    /** `expand_use_tokens` */
    method Expand() returns (paths: seq<Path>)
      requires Valid() && position == 0 && found == []
      modifies this
      ensures paths == Expanded(tokens)
    {
      assert Left() == tokens;
      assert forall found: seq<Path> :: [] + found == found;
      if tokens != [] && tokens[0] == Open {
        ReadGroup([]);
      } else {
        ReadNode([]);
      }
      paths := NonEmpty(found);
    }
  }

  lemma {:induction false} ItemsUnfolds(rest: seq<Token>, prefix: Path)
    requires NoSemi(rest) && rest != [] && rest[0] != Close
    ensures var one := Node(rest, prefix);
            Items(rest, prefix) == var more := Items(PastComma(one.rest), prefix); Reading(more.rest, one.found + more.found)
  {
  }

  lemma {:induction false} ItemsEnd(rest: seq<Token>, prefix: Path)
    requires NoSemi(rest) && (rest == [] || rest[0] == Close)
    ensures Items(rest, prefix) == Reading(if rest == [] then [] else rest[1..], [])
  {
  }

  lemma {:induction false} NodeUnfolds(rest: seq<Token>, path: Path)
    requires NoSemi(rest)
    ensures rest == [] || rest[0] in {Comma, Close, Semi} ==> Node(rest, path) == Reading(rest, [])
    ensures rest != [] ==>
      var after := rest[1..];
      && (rest[0] == As ==> Node(rest, path) == Reading(if after == [] then [] else after[1..], []))
      && (rest[0] == Star ==> Node(rest, path) == Reading(after, [path]))
      && (rest[0] == Open ==> Node(rest, path) == Items(after, path))
      && (rest[0] == Colons ==> Node(rest, path) == Node(after, path))
      && (rest[0].Word? || rest[0].SelfWord? ==> Node(rest, path) == Segment(rest, path))
  {
  }

  lemma {:induction false} SegmentUnfolds(rest: seq<Token>, path: Path)
    requires NoSemi(rest) && rest != []
    ensures var token, after := rest[0], rest[1..];
      && (token == SelfWord && path != [] ==>
            Segment(rest, path) == Reading(Node(after, path).rest, [path] + Node(after, path).found))
      && (!(token == SelfWord && path != []) && (after == [] || after[0] != Colons) ==>
            Segment(rest, path) == Reading(after, [path + [token]]))
      && (!(token == SelfWord && path != []) && after != [] && after[0] == Colons ==>
            Segment(rest, path) == Node(after, path + [token]))
  {
  }

  /** `Node` from a cursor, by the token there. */
  lemma {:induction false} NodeAt(tokens: seq<Token>, position: nat, path: Path)
    requires NoSemi(tokens) && position < |tokens|
    ensures NoSemi(tokens[position..]) && NoSemi(tokens[position + 1..])
    ensures var (token, after, r) := (tokens[position], tokens[position + 1..], Node(tokens[position..], path));
      && (token in {Comma, Close, Semi} ==> r == Reading(tokens[position..], []))
      && (token == As && position + 1 == |tokens| ==> r == Reading(after, []))
      && (token == As && position + 1 < |tokens| ==> r == Reading(tokens[position + 2..], []))
      && (token == Star ==> r == Reading(after, [path]))
      && (token == Open ==> tokens[position..] != [] && tokens[position..][0] == Open && r == Items(after, path))
      && (token == Open ==> tokens[position..][1..] == after)
      && (token == Colons ==> r == Node(after, path))
    ensures var (token, after, r) := (tokens[position], tokens[position + 1..], Node(tokens[position..], path));
      token.Word? || token.SelfWord? ==>
        if token == SelfWord && path != [] then r == Reading(Node(after, path).rest, [path] + Node(after, path).found)
        else if position + 1 == |tokens| || tokens[position + 1] != Colons then r == Reading(after, [path + [token]])
        else r == Node(after, path + [token])
  {
    hide Items, Node, Segment;
    var rest := tokens[position..];
    assert rest[1..] == tokens[position + 1..];
    assert position + 1 < |tokens| ==> rest[1..][1..] == tokens[position + 2..];
    NodeUnfolds(rest, path);
    SegmentUnfolds(rest, path);
  }

  lemma Reassociate(a: seq<Path>, b: seq<Path>, c: seq<Path>)
    ensures a + (b + c) == (a + b) + c
  {
  }

  function NonEmpty(paths: seq<Path>): seq<Path> {
    if paths == [] then []
    else (if paths[0] != [] then [paths[0]] else []) + NonEmpty(paths[1..])
  }

  /** The empty paths are left out, and nothing else is touched: this is the one
      operation that goes path by path and keeps each that is not empty. */
  lemma {:induction false} OnlyTheEmptyAreLeftOut(a: seq<Path>, b: seq<Path>, p: Path)
    ensures NonEmpty([p]) == if p == [] then [] else [p]
    ensures NonEmpty(a + b) == NonEmpty(a) + NonEmpty(b)
  {
    assert [p][1..] == [];
    if a == [] {
      assert a + b == b;
    } else {
      OnlyTheEmptyAreLeftOut(a[1..], b, p);
      assert (a + b)[1..] == a[1..] + b;
    }
  }

  function Expanded(tokens: seq<Token>): seq<Path>
    requires NoSemi(tokens)
  {
    NonEmpty(if tokens != [] && tokens[0] == Open then Items(tokens[1..], []).found else Node(tokens, []).found)
  }

  // ---------------------------------------------------------------- use trees

  /** A use tree as Rust writes one: `a::rest`, a name, `*`, `self` or a group,
      the name and `self` with or without an alias, any of them rooted at `::`. */
  datatype Tree =
    | Under(segment: Token, rest: Tree)
    | Rooted(rest: Tree)
    | Name(segment: Token, alias: Option<string>)
    | Glob
    | SelfLeaf(alias: Option<string>)
    | Group(items: seq<Tree>, trailingComma: bool)

  /** `self` is a segment only where nothing precedes it, and a leaf only where
      something does. */
  predicate WellFormed(t: Tree, nested: bool) {
    match t
    case Under(segment, rest) => IsSegment(segment, nested) && WellFormed(rest, true)
    case Rooted(rest) => WellFormed(rest, nested)
    case Name(segment, _) => IsSegment(segment, nested)
    case Glob => true
    case SelfLeaf(_) => nested
    case Group(items, _) => forall t :: t in items ==> WellFormed(t, nested)
  }

  predicate IsSegment(token: Token, nested: bool) {
    token.Word? || (token == SelfWord && !nested)
  }

  function PrintAlias(alias: Option<string>): seq<Token> {
    match alias case None => [] case Some(name) => [As, Word(name)]
  }

  function Print(t: Tree): seq<Token> {
    match t
    case Under(segment, rest) => [segment, Colons] + Print(rest)
    case Rooted(rest) => [Colons] + Print(rest)
    case Name(segment, alias) => [segment] + PrintAlias(alias)
    case Glob => [Star]
    case SelfLeaf(alias) => [SelfWord] + PrintAlias(alias)
    case Group(items, trailing) => [Open] + PrintItems(items, trailing) + [Close]
  }

  function PrintItems(items: seq<Tree>, trailing: bool): seq<Token> {
    if items == [] then []
    else Print(items[0]) + (if |items| > 1 || trailing then [Comma] else []) + PrintItems(items[1..], trailing)
  }

  /** The paths a tree imports, in order; aliases do not matter. */
  function Leaves(t: Tree, path: Path): seq<Path> {
    match t
    case Under(segment, rest) => Leaves(rest, path + [segment])
    case Rooted(rest) => Leaves(rest, path)
    case Name(segment, _) => [path + [segment]]
    case Glob => [path]
    case SelfLeaf(_) => [path]
    case Group(items, _) => LeavesOf(items, path)
  }

  function LeavesOf(items: seq<Tree>, path: Path): seq<Path> {
    if items == [] then [] else Leaves(items[0], path) + LeavesOf(items[1..], path)
  }

  /** The alias of a plain name, which `node` leaves for its caller to skip. */
  function Dangling(t: Tree): seq<Token> {
    match t
    case Under(_, rest) => Dangling(rest)
    case Rooted(rest) => Dangling(rest)
    case Name(_, alias) => PrintAlias(alias)
    case _ => []
  }

  /** Where a tree may stop. */
  predicate Ends(suffix: seq<Token>) {
    suffix == [] || suffix[0] == Comma || suffix[0] == Close
  }

  lemma {:induction false} PrintHasNoSemi(t: Tree, nested: bool)
    requires WellFormed(t, nested)
    ensures NoSemi(Print(t))
    decreases t
  {
    match t
    case Under(_, rest) => PrintHasNoSemi(rest, true);
    case Rooted(rest) => PrintHasNoSemi(rest, nested);
    case Group(items, trailing) => ItemsHaveNoSemi(items, trailing, nested);
    case _ =>
  }

  lemma {:induction false} ItemsHaveNoSemi(items: seq<Tree>, trailing: bool, nested: bool)
    requires forall t :: t in items ==> WellFormed(t, nested)
    ensures NoSemi(PrintItems(items, trailing))
    decreases items
  {
    if items != [] {
      PrintHasNoSemi(items[0], nested);
      ItemsHaveNoSemi(items[1..], trailing, nested);
    }
  }

  lemma {:induction false} SegmentStep(segment: Token, path: Path, more: seq<Token>)
    requires IsSegment(segment, path != []) && NoSemi([segment, Colons] + more)
    ensures NoSemi(more) && Node([segment, Colons] + more, path) == Node(more, path + [segment])
  {
    hide Items, Node, Segment;
    var tokens := [segment, Colons] + more;
    NoSemiAfter([segment, Colons], more);
    NodeUnfolds(tokens, path);
    SegmentUnfolds(tokens, path);
    assert tokens[1..] == [Colons] + more && tokens[1..][1..] == more;
    NodeUnfolds(tokens[1..], path + [segment]);
  }

  lemma {:induction false} NameStep(segment: Token, path: Path, after: seq<Token>)
    requires IsSegment(segment, path != []) && NoSemi([segment] + after)
    requires after == [] || after[0] != Colons
    ensures Node([segment] + after, path) == Reading(after, [path + [segment]])
  {
    hide Items, Node, Segment;
    var tokens := [segment] + after;
    NodeUnfolds(tokens, path);
    SegmentUnfolds(tokens, path);
    assert tokens[1..] == after;
  }

  lemma {:induction false} SelfStep(alias: Option<string>, path: Path, suffix: seq<Token>)
    requires path != [] && Ends(suffix) && NoSemi([SelfWord] + PrintAlias(alias) + suffix)
    ensures Node([SelfWord] + PrintAlias(alias) + suffix, path) == Reading(suffix, [path])
  {
    hide Items, Node, Segment;
    var tokens, after := [SelfWord] + PrintAlias(alias) + suffix, PrintAlias(alias) + suffix;
    assert tokens[1..] == after;
    NoSemiAfter([SelfWord], after);
    assert tokens == [SelfWord] + after;
    NodeUnfolds(tokens, path);
    SegmentUnfolds(tokens, path);
    AliasIsSkipped(alias, path, suffix);
  }

  lemma {:induction false} SymbolStep(token: Token, path: Path, more: seq<Token>)
    requires NoSemi([token] + more)
    ensures NoSemi(more)
    ensures token == Colons ==> Node([token] + more, path) == Node(more, path)
    ensures token == Star ==> Node([token] + more, path) == Reading(more, [path])
    ensures token == Open ==> Node([token] + more, path) == Items(more, path)
  {
    hide Items, Node, Segment;
    NoSemiAfter([token], more);
    NodeUnfolds([token] + more, path);
    assert ([token] + more)[1..] == more;
  }

  lemma NoSemiAfter(a: seq<Token>, b: seq<Token>)
    requires NoSemi(a + b)
    ensures NoSemi(a) && NoSemi(b)
  {
    assert forall t :: t in a || t in b ==> t in a + b;
  }

  /** One printed tree, read back from whatever follows it. */
  lemma {:induction false} NodeReadsBack(t: Tree, path: Path, suffix: seq<Token>)
    requires WellFormed(t, path != []) && Ends(suffix) && NoSemi(Print(t) + suffix)
    ensures Node(Print(t) + suffix, path) == Reading(Dangling(t) + suffix, Leaves(t, path))
    decreases t
  {
    hide Node, Items, Segment, NoSemi;
    match t
    case Under(segment, rest) =>
      Reorder([segment, Colons], Print(rest), suffix);
      SegmentStep(segment, path, Print(rest) + suffix);
      NodeReadsBack(rest, path + [segment], suffix);
    case Rooted(rest) =>
      Reorder([Colons], Print(rest), suffix);
      SymbolStep(Colons, path, Print(rest) + suffix);
      NodeReadsBack(rest, path, suffix);
    case Name(segment, alias) =>
      Reorder([segment], PrintAlias(alias), suffix);
      NameStep(segment, path, PrintAlias(alias) + suffix);
    case Glob =>
      SymbolStep(Star, path, suffix);
      assert [] + suffix == suffix;
    case SelfLeaf(alias) =>
      SelfStep(alias, path, suffix);
      assert [] + suffix == suffix;
    case Group(items, trailing) => GroupReadsBack(items, trailing, path, suffix);
  }

  lemma {:induction false} GroupReadsBack(items: seq<Tree>, trailing: bool, path: Path, suffix: seq<Token>)
    requires forall t :: t in items ==> WellFormed(t, path != [])
    requires NoSemi(Print(Group(items, trailing)) + suffix)
    ensures Node(Print(Group(items, trailing)) + suffix, path) == Reading([] + suffix, LeavesOf(items, path))
    decreases items, 1
  {
    hide Node, Items, Segment, NoSemi;
    var inner := PrintItems(items, trailing) + ([Close] + suffix);
    assert Print(Group(items, trailing)) + suffix == [Open] + inner;
    SymbolStep(Open, path, inner);
    ItemsReadBack(items, trailing, path, suffix);
    assert [] + suffix == suffix;
  }

  lemma Reorder(a: seq<Token>, b: seq<Token>, c: seq<Token>)
    ensures (a + b) + c == a + (b + c)
  {
  }

  lemma {:induction false} AliasIsSkipped(alias: Option<string>, path: Path, suffix: seq<Token>)
    requires Ends(suffix) && NoSemi(PrintAlias(alias) + suffix)
    ensures Node(PrintAlias(alias) + suffix, path) == Reading(suffix, [])
  {
    hide Items, Segment;
    var tokens := PrintAlias(alias) + suffix;
    if alias.Some? {
      assert tokens[1..][1..] == suffix;
    } else {
      assert tokens == suffix;
    }
  }

  lemma {:induction false} ItemsPrint(items: seq<Tree>, trailing: bool, path: Path)
    ensures items == [] ==> PrintItems(items, trailing) == [] && LeavesOf(items, path) == []
    ensures items != [] ==>
      && LeavesOf(items, path) == Leaves(items[0], path) + LeavesOf(items[1..], path)
      && PrintItems(items, trailing)
           == Print(items[0]) + (if |items| > 1 || trailing then [Comma] else []) + PrintItems(items[1..], trailing)
  {
  }

  lemma {:induction false} ItemsReadBack(items: seq<Tree>, trailing: bool, path: Path, suffix: seq<Token>)
    requires forall t :: t in items ==> WellFormed(t, path != [])
    requires NoSemi(PrintItems(items, trailing) + ([Close] + suffix))
    ensures Items(PrintItems(items, trailing) + ([Close] + suffix), path) == Reading(suffix, LeavesOf(items, path))
    decreases items, 0
  {
    hide Node, Items, Segment, NoSemi, PrintItems, LeavesOf;
    var tokens := PrintItems(items, trailing) + ([Close] + suffix);
    ItemsPrint(items, trailing, path);
    if items == [] {
      assert tokens == [Close] + suffix;
      ItemsEnd(tokens, path);
    } else {
      var later := PrintItems(items[1..], trailing) + ([Close] + suffix);
      var comma := if |items| > 1 || trailing then [Comma] else [];
      assert tokens == Print(items[0]) + (comma + later);
      NoSemiAfter(Print(items[0]), comma + later);
      NoSemiAfter(comma, later);
      ItemsPrint(items[1..], trailing, path);
      assert items[0] in items && forall t :: t in items[1..] ==> t in items;
      NodeReadsBack(items[0], path, comma + later);
      ItemsReadBack(items[1..], trailing, path, suffix);
      assert PastComma(comma + later) == later;
      FirstItem(items[0], path, comma + later);
    }
  }

  /** After the first item, its dangling alias and its comma come the others. */
  lemma {:induction false} FirstItem(t: Tree, path: Path, after: seq<Token>)
    requires WellFormed(t, path != []) && Ends(after) && after != [] && NoSemi(Print(t) + after)
    requires Node(Print(t) + after, path) == Reading(Dangling(t) + after, Leaves(t, path))
    requires NoSemi(PastComma(after))
    ensures var more := Items(PastComma(after), path);
            Items(Print(t) + after, path) == Reading(more.rest, Leaves(t, path) + more.found)
  {
    hide Node, Items, Segment;
    var tokens := Print(t) + after;
    PrintStarts(t, path != []);
    ItemsUnfolds(tokens, path);
    if Dangling(t) == [] {
      assert Dangling(t) + after == after;
    } else {
      DanglingIsAnAlias(t);
      var left := Dangling(t) + after;
      NoSemiAfter(Print(t), after);
      assert NoSemi(left);
      AliasIsSkipped(Some(Dangling(t)[1].text), path, after);
      ItemsUnfolds(left, path);
    }
  }

  lemma {:induction false} DanglingIsAnAlias(t: Tree)
    ensures Dangling(t) != [] ==> |Dangling(t)| == 2 && Dangling(t)[1].Word? && Dangling(t) == [As, Dangling(t)[1]]
  {
    match t
    case Under(_, rest) => DanglingIsAnAlias(rest);
    case Rooted(rest) => DanglingIsAnAlias(rest);
    case _ =>
  }

  lemma {:induction false} PrintStarts(t: Tree, nested: bool)
    requires WellFormed(t, nested)
    ensures Print(t) != [] && Print(t)[0] != Close
  {
  }

  /** Parsing what a use tree prints gives its leaf paths, in order. */
  lemma {:induction false} ExpandIsLeaves(t: Tree)
    requires WellFormed(t, false)
    ensures NoSemi(Print(t)) && Expanded(Print(t)) == NonEmpty(Leaves(t, []))
  {
    hide Node, Items, Segment;
    PrintHasNoSemi(t, false);
    assert Print(t) + [] == Print(t);
    var none: Path := [];
    assert (none != []) == false;
    NodeReadsBack(t, none, []);
    NodeUnfolds(Print(t), none);
  }
}
