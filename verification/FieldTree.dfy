/**
 The whole document: a scan of its text answers what a walk over its tree answers, for every document with a
 top-level object.
 */
module FieldTree {
  import opened Bytes
  import opened Options
  import opened FieldEmit
  import opened FieldScan
  import opened FieldDocument
  import opened FieldQuiet

  /** The last key at depth two, the strings bound so far and whether one was too large. */
  datatype Tally = Tally(key: Bytes, found: map<Bytes, Bytes>, unreadable: bool)

  const EMPTY: Tally := Tally([], map[], false)

  /** A value directly inside the member that is looked for. */
  function TakeValue(names: Names, t: Tally, node: Node): Tally
  {
    if !node.Str? || t.key !in names.wanted then t
    else if Oversize(node.raw) then t.(unreadable := true)
    else t.(found := t.found[t.key := node.raw])
  }

  function TakeKey(names: Names, t: Tally, key: Bytes): Tally
  {
    t.(key := key, found := if key in names.wanted then t.found - {key} else t.found)
  }

  function TakeField(names: Names, t: Tally, m: Member): Tally
  {
    TakeValue(names, TakeKey(names, t, KeyOf(names, m.name)), m.value.node)
  }

  function TakeFields(names: Names, t: Tally, members: seq<Member>): Tally
    decreases |members|
  {
    if members == [] then t else TakeFields(names, TakeField(names, t, members[0]), members[1..])
  }

  function TakeItems(names: Names, t: Tally, items: seq<Item>): Tally
    decreases |items|
  {
    if items == [] then t else TakeItems(names, TakeValue(names, t, items[0].node), items[1..])
  }

  /** The value of a member of the name looked for. */
  function TakeContainer(names: Names, t: Tally, node: Node): Tally
  {
    match node
    case Obj(_, members) => TakeFields(names, t, members)
    case Arr(_, items) => TakeItems(names, t, items)
    case _ => t
  }

  /** A member of the top-level object. */
  function TakeTop(names: Names, t: Tally, m: Member): Tally
  {
    if KeyOf(names, m.name) == names.container then TakeContainer(names, t.(found := map[]), m.value.node)
    else t.(key := NodeKey(names, t.key, m.value.node))
  }

  function TakeAll(names: Names, t: Tally, members: seq<Member>): Tally
    decreases |members|
  {
    if members == [] then t else TakeAll(names, TakeTop(names, t, members[0]), members[1..])
  }

  function TallyAnswer(names: Names, t: Tally): Answer
  {
    if t.unreadable then Answer(65, [])
    else match FirstFound(names.wanted, t.found)
      case None => Answer(0, [])
      case Some(raw) => Answer(0, Emitted(raw))
  }

  // ---- Inside the member that is looked for

  ghost predicate Shows(s: Scan, t: Tally)
  {
    KeyAt(s.keys, 2) == t.key && s.found == t.found && s.unreadable == t.unreadable
  }

  predicate Active(names: Names, s: Scan)
  {
    s.mode.Outside? && s.depth == 2 && KeyAt(s.keys, 1) == names.container
  }

  lemma {:induction false} ValueShows(names: Names, s: Scan, u: Scan, node: Node, t: Tally)
    requires Active(names, s) && Shows(s, t)
    requires u.mode == Left(node) && u.depth == 2 && Same(s, u, 3)
    ensures Active(names, u) && Active(names, Settle(names, u)) && Settle(names, u).mode == Outside(None)
    ensures Shows(Settle(names, u), TakeValue(names, t, node))
  {
    assert KeyAt(u.keys, 1) == KeyAt(s.keys, 1);
    assert KeyAt(u.keys, 2) == KeyAt(s.keys, 2);
  }

  lemma {:induction false} EndShows(names: Names, s: Scan, c: Byte, t: Tally, u: Scan)
    requires Active(names, s) && Shows(Settle(names, s), t) && (c == 93 || c == 125)
    requires u == Chars(names, s, [c])
    ensures u.mode == Outside(None) && u.depth == 1 && Shows(u, t)
  {
    CharsOne(names, s, c);
  }

  lemma {:induction false} ItemsShow(names: Names, s: Scan, items: seq<Item>, t: Tally, u: Scan)
    requires Active(names, s) && (items != [] ==> s.mode == Outside(None)) && ValidItems(items)
    requires Shows(Settle(names, s), t) && u == Chars(names, s, ItemsText(items))
    ensures u.mode == Outside(None) && u.depth == 1
    ensures Shows(u, TakeItems(names, t, items))
    decreases |items|
  {
    if items == [] {
      EndShows(names, s, 93, t, u);
    } else {
      var item, rest := items[0], items[1..];
      var v := Chars(names, s, NodeText(item.node));
      NodeRun(names, s, item.node, v);
      ItemIsNode(names, s, item, v);
      ValueShows(names, s, v, item.node, t);
      var w := if rest == [] then v else Settle(names, v);
      Separated(names, s, ItemText(item), rest == [], ItemsText(rest), v, w);
      ItemsShow(names, w, rest, TakeValue(names, t, item.node), u);
    }
  }

  lemma {:induction false} KeyShows(names: Names, s: Scan, raw: Bytes, t: Tally, u: Scan)
    requires Active(names, s) && s.mode == Outside(None) && Shows(s, t) && u == BindKey(names, s, raw)
    ensures Active(names, u) && u.mode == Outside(None)
    ensures Shows(u, TakeKey(names, t, KeyOf(names, raw)))
  {
  }

  lemma {:induction false} FieldShows(names: Names, s: Scan, m: Member, t: Tally, v: Scan)
    requires Active(names, s) && s.mode == Outside(None) && Shows(s, t) && ValidMember(m)
    requires v == Chars(names, s, HeadText(m) + ItemText(m.value))
    ensures Active(names, v) && Active(names, Settle(names, v)) && Settle(names, v).mode == Outside(None)
    ensures Shows(Settle(names, v), TakeField(names, t, m))
  {
    var u := BindKey(names, s, m.name);
    HeadRun(names, s, m);
    KeyShows(names, s, m.name, t, u);
    CharsJoin(names, s, HeadText(m), ItemText(m.value));
    var w := Chars(names, u, NodeText(m.value.node));
    NodeRun(names, u, m.value.node, w);
    ItemIsNode(names, u, m.value, w);
    ValueShows(names, u, w, m.value.node, TakeKey(names, t, KeyOf(names, m.name)));
  }

  lemma {:induction false} FieldsShow(names: Names, s: Scan, members: seq<Member>, t: Tally, u: Scan)
    requires Active(names, s) && (members != [] ==> s.mode == Outside(None)) && ValidMembers(members)
    requires Shows(Settle(names, s), t) && u == Chars(names, s, MembersText(members))
    ensures u.mode == Outside(None) && u.depth == 1
    ensures Shows(u, TakeFields(names, t, members))
    decreases |members|
  {
    if members == [] {
      EndShows(names, s, 125, t, u);
    } else {
      var m, rest := members[0], members[1..];
      var v := Chars(names, s, HeadText(m) + ItemText(m.value));
      FieldShows(names, s, m, t, v);
      var w := if rest == [] then v else Settle(names, v);
      Separated(names, s, HeadText(m) + ItemText(m.value), rest == [], MembersText(rest), v, w);
      FieldsShow(names, w, rest, TakeField(names, t, m), u);
    }
  }

  // ---- The top-level object

  lemma {:induction false} ContainerShows(names: Names, s: Scan, node: Node, t: Tally, u: Scan)
    requires s.mode == Outside(None) && s.depth == 1 && KeyAt(s.keys, 1) == names.container && Shows(s, t)
    requires ValidNode(node) && u == Chars(names, s, NodeText(node))
    ensures u.mode.Outside? && u.depth == 1
    ensures Shows(u, TakeContainer(names, t, node))
  {
    match node
    case Atom(text) => AtomRun(names, s, text);
    case Str(raw) => StringRun(names, s, raw);
    case Arr(space, items) =>
      OpenRun(names, s, 91, space, ItemsText(items));
      ItemsShow(names, s.(depth := 2), items, t, u);
    case Obj(space, members) =>
      OpenRun(names, s, 123, space, MembersText(members));
      FieldsShow(names, s.(depth := 2), members, t, u);
  }

  lemma {:induction false} TopShows(names: Names, s: Scan, m: Member, t: Tally, v: Scan)
    requires s.mode == Outside(None) && s.depth == 1 && Shows(s, t) && ValidMember(m)
    requires v == Chars(names, s, HeadText(m) + ItemText(m.value))
    ensures v.mode.Outside? && v.depth == 1
    ensures Shows(v, TakeTop(names, t, m))
  {
    var node, u := m.value.node, BindKey(names, s, m.name);
    HeadRun(names, s, m);
    CharsJoin(names, s, HeadText(m), ItemText(m.value));
    var w := Chars(names, u, NodeText(node));
    assert u.mode == Outside(None) && u.depth == 1 && KeyAt(u.keys, 1) == KeyOf(names, m.name);
    assert KeyAt(u.keys, 2) == t.key;
    if KeyOf(names, m.name) == names.container {
      ContainerShows(names, u, node, t.(found := map[]), w);
    } else {
      NodeRun(names, u, node, w);
    }
    ItemIsNode(names, u, m.value, w);
  }

  lemma {:induction false} AllShow(names: Names, s: Scan, members: seq<Member>, t: Tally, u: Scan)
    requires s.mode.Outside? && s.depth == 1 && (members != [] ==> s.mode == Outside(None)) && ValidMembers(members)
    requires Shows(s, t) && u == Chars(names, s, MembersText(members))
    ensures u.mode == Outside(None) && u.depth == 0
    ensures Shows(u, TakeAll(names, t, members))
    decreases |members|
  {
    if members == [] {
      CharsOne(names, s, 125);
    } else {
      var m, rest := members[0], members[1..];
      var v := Chars(names, s, HeadText(m) + ItemText(m.value));
      TopShows(names, s, m, t, v);
      var w := if rest == [] then v else Settle(names, v);
      Separated(names, s, HeadText(m) + ItemText(m.value), rest == [], MembersText(rest), v, w);
      AllShow(names, w, rest, TakeTop(names, t, m), u);
    }
  }

  lemma {:induction false} NoQuoteLast(doc: Item, members: seq<Member>)
    requires ValidItem(doc) && doc.node.Obj? && doc.node.members == members
    ensures ItemText(doc) != [] && ItemText(doc)[|ItemText(doc)| - 1] != QUOTE
  {
    LastBrace(members);
    LastOfThree([123], doc.node.space, MembersText(members));
    if doc.after != [] {
      LastOfThree(doc.before, NodeText(doc.node), doc.after);
    } else {
      assert NodeText(doc.node) + doc.after == NodeText(doc.node);
      LastOfThree([], doc.before, NodeText(doc.node));
      assert [] + ItemText(doc) == ItemText(doc);
    }
  }

  lemma {:induction false} LastOfThree(a: Bytes, b: Bytes, c: Bytes)
    requires c != []
    ensures (a + (b + c)) != [] && (a + (b + c))[|a + (b + c)| - 1] == c[|c| - 1]
  {
  }

  lemma {:induction false} LastBrace(members: seq<Member>)
    ensures MembersText(members) != [] && MembersText(members)[|MembersText(members)| - 1] == 125
    decreases |members|
  {
    if members != [] {
      LastBrace(members[1..]);
    }
  }

  /** For every document with a top-level object, scanning its text answers what walking its tree answers. */
  lemma {:induction false} ScanWalksTree(names: Names, doc: Item, members: seq<Member>)
    requires ValidItem(doc) && doc.node.Obj? && doc.node.members == members
    ensures Read(names, ItemText(doc)) == TallyAnswer(names, TakeAll(names, EMPTY, members))
  {
    NoQuoteLast(doc, members);
    var s := START.(depth := 1);
    var u := Chars(names, s, MembersText(members));
    TopRun(names, doc.node, members);
    assert ValidNode(doc.node);
    AllShow(names, s, members, EMPTY, u);
    ItemIsNode(names, START, doc, u);
    CharsJoin(names, START, ItemText(doc), [QUOTE]);
    LastQuote(names, u, TakeAll(names, EMPTY, members));
  }

  lemma {:induction false} TopRun(names: Names, node: Node, members: seq<Member>)
    requires ValidNode(node) && node.Obj? && node.members == members
    ensures Chars(names, START, NodeText(node)) == Chars(names, START.(depth := 1), MembersText(members))
  {
    OpenRun(names, START, 123, node.space, MembersText(members));
  }

  lemma {:induction false} LastQuote(names: Names, s: Scan, t: Tally)
    requires s.mode == Outside(None) && Shows(s, t)
    ensures Answered(names, Chars(names, s, [QUOTE])) == TallyAnswer(names, t)
  {
    CharsOne(names, s, QUOTE);
  }
}
