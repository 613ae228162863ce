/**
 JSON documents as trees, with the text they stand for.

 The trees keep white space and the raw text of strings and names. They allow more than the standard does in one
 place: an atom is any text without quotes and brackets, so numbers and literals are not told apart and what holds
 here of every tree holds in particular of every well-formed document.

 The lemmas here say what a scan of a string, of white space, of an atom and of a member's name comes to.
 */
module FieldDocument {
  import opened Bytes
  import opened Options
  import opened FieldDecode
  import opened FieldEmit
  import opened FieldAgreement
  import opened FieldScan
  import opened Sequences
  import opened Characters

  /** A number, `true`, `false` or `null`; a string with its raw text; an array; an object. */
  datatype Node =
    | Atom(text: Bytes)
    | Str(raw: Bytes)
    | Arr(space: Bytes, items: seq<Item>)
    | Obj(space: Bytes, members: seq<Member>)

  datatype Item = Item(before: Bytes, node: Node, after: Bytes)

  datatype Member = Member(before: Bytes, name: Bytes, gap: Bytes, value: Item)

  // ---- Text

  function NodeText(node: Node): Bytes
    decreases node, 0
  {
    match node
    case Atom(text) => text
    case Str(raw) => [34] + (raw + [34])
    case Arr(space, items) => [91] + (space + ItemsText(items))
    case Obj(space, members) => [123] + (space + MembersText(members))
  }

  function ItemText(item: Item): Bytes
    decreases item, 1
  {
    item.before + (NodeText(item.node) + item.after)
  }

  /** The items with commas between them, and the closing bracket. */
  function ItemsText(items: seq<Item>): Bytes
    decreases items, 2
  {
    if items == [] then [93]
    else ItemText(items[0]) + (if |items| == 1 then ItemsText(items[1..]) else [44] + ItemsText(items[1..]))
  }

  function HeadText(m: Member): Bytes
  {
    m.before + (([34] + (m.name + [34])) + (m.gap + [58]))
  }

  function MembersText(members: seq<Member>): Bytes
    decreases members, 2
  {
    if members == [] then [125]
    else (HeadText(members[0]) + ItemText(members[0].value)) +
         (if |members| == 1 then MembersText(members[1..]) else [44] + MembersText(members[1..]))
  }

  // ---- Well-formedness

  predicate IsAtom(text: Bytes)
  {
    forall i :: 0 <= i < |text| ==> text[i] != 34 && text[i] !in {91, 93, 123, 125}
  }

  predicate ValidNode(node: Node)
    decreases node, 0
  {
    match node
    case Atom(text) => IsAtom(text)
    case Str(raw) => IsToken(raw)
    case Arr(space, items) => AllSpace(space) && ValidItems(items)
    case Obj(space, members) => AllSpace(space) && ValidMembers(members)
  }

  predicate ValidItem(item: Item)
    decreases item, 1
  {
    AllSpace(item.before) && AllSpace(item.after) && ValidNode(item.node)
  }

  predicate ValidItems(items: seq<Item>)
    decreases items, 2
  {
    items == [] || (ValidItem(items[0]) && ValidItems(items[1..]))
  }

  predicate ValidMember(m: Member)
    decreases m, 2
  {
    AllSpace(m.before) && AllSpace(m.gap) && IsToken(m.name) && ValidItem(m.value)
  }

  predicate ValidMembers(members: seq<Member>)
    decreases members, 3
  {
    members == [] || (ValidMember(members[0]) && ValidMembers(members[1..]))
  }

  // ---- Strings, white space and atoms

  lemma {:induction false} PieceRun(names: Names, s: Scan, p: Piece)
    requires s.mode.Inside? && !s.mode.escaped && !p.Dangling? && p != Plain(QUOTE) && p != Plain(BACKSLASH)
    requires p.Code? ==> HexCode(p.digits).Some?
    ensures Chars(names, s, PieceText(p)) == s.(mode := Inside(s.mode.raw + PieceText(p), false))
  {
    var text := PieceText(p);
    match p
    case Plain(b) => CharsOne(names, s, b);
    case Short(letter) => EscapeRun(names, s, letter);
    case BadCode => EscapeRun(names, s, LETTER_U);
    case Code(_, digits) =>
      EscapeRun(names, s, LETTER_U);
      var next := Chars(names, s, [BACKSLASH, LETTER_U]);
      CharsJoin(names, s, [BACKSLASH, LETTER_U], digits);
      InsideRecord(names, next, digits);
      Regroup(s.mode.raw, [BACKSLASH, LETTER_U], digits);
  }

  lemma {:induction false} EscapeRun(names: Names, s: Scan, letter: Byte)
    requires s.mode.Inside? && !s.mode.escaped
    ensures Chars(names, s, [BACKSLASH, letter]) == s.(mode := Inside(s.mode.raw + [BACKSLASH, letter], false))
  {
    CharsJoin(names, s, [BACKSLASH], [letter]);
    CharsOne(names, s, BACKSLASH);
    CharsOne(names, Char(names, s, BACKSLASH), letter);
    assert [BACKSLASH] + [letter] == [BACKSLASH, letter];
    Regroup(s.mode.raw, [BACKSLASH], [letter]);
  }

  lemma {:induction false} TokenRun(names: Names, s: Scan, t: Bytes)
    requires s.mode.Inside? && !s.mode.escaped && IsToken(t)
    ensures Chars(names, s, t) == s.(mode := Inside(s.mode.raw + t, false))
    decreases |t|
  {
    if t == [] {
      assert s.mode.raw + t == s.mode.raw;
    } else {
      var p := FirstPiece(t);
      var n := |PieceText(p)|;
      ClosedAfter(t, p, n);
      FirstText(t, p, n);
      var next := Chars(names, s, PieceText(p));
      PieceRun(names, s, p);
      TokenRun(names, next, t[n..]);
      CharsJoin(names, s, PieceText(p), t[n..]);
      Regroup(s.mode.raw, PieceText(p), t[n..]);
    }
  }

  /** A string with its quotes: it is now the string waiting to be told. */
  lemma {:induction false} StringRun(names: Names, s: Scan, raw: Bytes)
    requires s.mode == Outside(None) && IsToken(raw)
    ensures Chars(names, s, [QUOTE] + (raw + [QUOTE])) == s.(mode := Outside(Some(raw)))
  {
    var begun := s.(mode := Inside([], false));
    CharsOne(names, s, QUOTE);
    CharsJoin(names, s, [QUOTE], raw + [QUOTE]);
    TokenRun(names, begun, raw);
    assert [] + raw == raw;
    CharsJoin(names, begun, raw, [QUOTE]);
    CharsOne(names, s.(mode := Inside(raw, false)), QUOTE);
  }

  lemma {:induction false} SpaceRun(names: Names, s: Scan, space: Bytes)
    requires s.mode.Outside? && AllSpace(space)
    ensures Chars(names, s, space) == s
  {
    if space != [] {
      assert IsSpace(space[0]);
      SpaceRun(names, s, space[1..]);
    }
  }

  lemma {:induction false} AtomRun(names: Names, s: Scan, text: Bytes)
    requires s.mode == Outside(None) && IsAtom(text)
    ensures Chars(names, s, text) == s
  {
    if text != [] {
      assert Bracket(text[0]) == 0;
      AtomRun(names, s, text[1..]);
    }
  }

  /** A member's name and colon. */
  lemma {:induction false} HeadRun(names: Names, s: Scan, m: Member)
    requires s.mode == Outside(None) && ValidMember(m)
    ensures Chars(names, s, HeadText(m)) == BindKey(names, s, m.name)
  {
    var quoted := [QUOTE] + (m.name + [QUOTE]);
    var told := s.(mode := Outside(Some(m.name)));
    SpaceRun(names, s, m.before);
    CharsJoin(names, s, m.before, quoted + (m.gap + [COLON]));
    StringRun(names, s, m.name);
    CharsJoin(names, s, quoted, m.gap + [COLON]);
    SpaceRun(names, told, m.gap);
    CharsJoin(names, told, m.gap, [COLON]);
    CharsOne(names, told, COLON);
  }
}
