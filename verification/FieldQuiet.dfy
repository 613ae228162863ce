/**
 Values outside the member that is looked for: scanning one changes nothing but the keys below it.

 A string can be selected only at depth two and under a key of the right name at depth one. Below depth two, or beside
 the member that is looked for, every string is settled without effect, and names are recorded only at their own
 depth. So the bindings stay, and so do the keys above the value.

 The one trace that is left is the last name at the depth just below, which a later value may still see.
 */
module FieldQuiet {
  import opened Bytes
  import opened Options
  import opened FieldAgreement
  import opened FieldScan
  import opened FieldDocument
  import opened Characters

  /** No string at this depth can be selected. */
  predicate Quiet(names: Names, depth: int, keys: map<int, Bytes>)
  {
    depth >= 3 || (depth == 2 && KeyAt(keys, 1) != names.container)
  }

  /** The string a value leaves waiting. */
  function Left(node: Node): Mode
  {
    if node.Str? then Outside(Some(node.raw)) else Outside(None)
  }

  function KeyOf(names: Names, raw: Bytes): Bytes
  {
    DecodedKey(Kept(raw), LongestName(names))
  }

  /** The key left behind by the members of an object. */
  function LastKey(names: Names, key: Bytes, members: seq<Member>): Bytes
    decreases |members|
  {
    if members == [] then key else LastKey(names, KeyOf(names, members[0].name), members[1..])
  }

  function NodeKey(names: Names, key: Bytes, node: Node): Bytes
  {
    if node.Obj? then LastKey(names, key, node.members) else key
  }

  /** The bindings and the keys above a depth are the same. */
  ghost predicate Same(s: Scan, t: Scan, depth: int)
  {
    && t.found == s.found
    && t.unreadable == s.unreadable
    && forall k {:trigger KeyAt(t.keys, k)} :: k < depth ==> KeyAt(t.keys, k) == KeyAt(s.keys, k)
  }

  lemma {:induction false} SameTwice(s: Scan, t: Scan, u: Scan, depth: int)
    requires Same(s, t, depth) && Same(t, u, depth)
    ensures Same(s, u, depth)
  {
    forall k | k < depth ensures KeyAt(u.keys, k) == KeyAt(s.keys, k) {
      assert KeyAt(u.keys, k) == KeyAt(t.keys, k);
    }
  }

  /** A closing bracket. */
  lemma {:induction false} CloseRun(names: Names, s: Scan, c: Byte, t: Scan)
    requires s.mode.Outside? && Quiet(names, s.depth, s.keys) && (c == 93 || c == 125)
    requires t == s.(mode := Outside(None), depth := s.depth + Bracket(c))
    ensures Chars(names, s, [c]) == t
  {
    CharsOne(names, s, c);
  }

  /** What follows an item, after a comma unless the item is the last. */
  lemma {:induction false} Separated(names: Names, s: Scan, item: Bytes, last: bool, rest: Bytes, u: Scan, v: Scan)
    requires u == Chars(names, s, item) && u.mode.Outside?
    requires v == if last then u else Settle(names, u)
    ensures Chars(names, s, item + (if last then rest else [44] + rest)) == Chars(names, v, rest)
  {
    if last {
      CharsJoin(names, s, item, rest);
    } else {
      CharsJoin(names, s, item, [44] + rest);
      CharsJoin(names, u, [44], rest);
      CharsOne(names, u, 44);
    }
  }

  lemma {:induction false} QuietSettles(names: Names, s: Scan)
    requires s.mode.Outside? && Quiet(names, s.depth, s.keys)
    ensures Settle(names, s) == s.(mode := Outside(None))
  {
  }

  lemma {:induction false} QuietKey(names: Names, s: Scan, raw: Bytes, t: Scan)
    requires s.mode == Outside(None) && Quiet(names, s.depth, s.keys) && t == BindKey(names, s, raw)
    ensures t.mode == Outside(None) && t.depth == s.depth && Same(s, t, s.depth)
    ensures KeyAt(t.keys, s.depth) == KeyOf(names, raw)
    ensures Quiet(names, t.depth, t.keys)
  {
  }

  lemma {:induction false} OpenRun(names: Names, s: Scan, c: Byte, space: Bytes, rest: Bytes)
    requires s.mode == Outside(None) && (c == 91 || c == 123) && AllSpace(space)
    ensures Chars(names, s, [c] + (space + rest)) == Chars(names, s.(depth := s.depth + 1), rest)
  {
    var t := s.(depth := s.depth + 1);
    CharsOne(names, s, c);
    CharsJoin(names, s, [c], space + rest);
    SpaceRun(names, t, space);
    CharsJoin(names, t, space, rest);
  }

  lemma {:induction false} ItemIsNode(names: Names, s: Scan, item: Item, t: Scan)
    requires s.mode == Outside(None) && ValidItem(item)
    requires t == Chars(names, s, NodeText(item.node)) && t.mode.Outside?
    ensures Chars(names, s, ItemText(item)) == t
  {
    SpaceRun(names, s, item.before);
    CharsJoin(names, s, item.before, NodeText(item.node) + item.after);
    CharsJoin(names, s, NodeText(item.node), item.after);
    SpaceRun(names, t, item.after);
  }

  /** A value whose strings cannot be selected. */
  lemma {:induction false} NodeRun(names: Names, s: Scan, node: Node, t: Scan)
    requires s.mode == Outside(None) && Quiet(names, s.depth + 1, s.keys) && ValidNode(node)
    requires t == Chars(names, s, NodeText(node))
    ensures t.mode == Left(node) && t.depth == s.depth
    ensures Same(s, t, s.depth + 1)
    ensures KeyAt(t.keys, s.depth + 1) == NodeKey(names, KeyAt(s.keys, s.depth + 1), node)
    decreases node, 0
  {
    match node
    case Atom(text) => AtomRun(names, s, text);
    case Str(raw) => StringRun(names, s, raw);
    case Arr(space, items) => ArrayRun(names, s, space, items, t);
    case Obj(space, members) => ObjectRun(names, s, space, members, t);
  }

  lemma {:induction false} ArrayRun(names: Names, s: Scan, space: Bytes, items: seq<Item>, t: Scan)
    requires s.mode == Outside(None) && Quiet(names, s.depth + 1, s.keys) && AllSpace(space) && ValidItems(items)
    requires t == Chars(names, s, [91] + (space + ItemsText(items)))
    ensures t.mode == Outside(None) && t.depth == s.depth
    ensures Same(s, t, s.depth + 1)
    ensures KeyAt(t.keys, s.depth + 1) == KeyAt(s.keys, s.depth + 1)
    decreases items, 3
  {
    var inner := s.(depth := s.depth + 1);
    OpenRun(names, s, 91, space, ItemsText(items));
    ItemsRun(names, inner, items, t);
    assert KeyAt(t.keys, s.depth + 1) == KeyAt(inner.keys, s.depth + 1);
  }

  lemma {:induction false} ObjectRun(names: Names, s: Scan, space: Bytes, members: seq<Member>, t: Scan)
    requires s.mode == Outside(None) && Quiet(names, s.depth + 1, s.keys) && AllSpace(space) && ValidMembers(members)
    requires t == Chars(names, s, [123] + (space + MembersText(members)))
    ensures t.mode == Outside(None) && t.depth == s.depth
    ensures Same(s, t, s.depth + 1)
    ensures KeyAt(t.keys, s.depth + 1) == LastKey(names, KeyAt(s.keys, s.depth + 1), members)
    decreases members, 3
  {
    OpenRun(names, s, 123, space, MembersText(members));
    MembersRun(names, s.(depth := s.depth + 1), members, t);
  }

  lemma {:induction false} ItemsRun(names: Names, s: Scan, items: seq<Item>, t: Scan)
    requires s.mode.Outside? && (items != [] ==> s.mode == Outside(None))
    requires Quiet(names, s.depth, s.keys) && ValidItems(items)
    requires t == Chars(names, s, ItemsText(items))
    ensures t.mode == Outside(None) && t.depth == s.depth - 1
    ensures Same(s, t, s.depth + 1)
    decreases items, 2
  {
    if items == [] {
      CloseRun(names, s, 93, s.(mode := Outside(None), depth := s.depth - 1));
    } else {
      var item, rest := items[0], items[1..];
      var u := Chars(names, s, NodeText(item.node));
      NodeRun(names, s, item.node, u);
      ItemIsNode(names, s, item, u);
      assert KeyAt(u.keys, 1) == KeyAt(s.keys, 1);
      var v := if rest == [] then u else Settle(names, u);
      QuietSettles(names, u);
      Separated(names, s, ItemText(item), rest == [], ItemsText(rest), u, v);
      ItemsRun(names, v, rest, t);
      SameTwice(s, v, t, s.depth + 1);
    }
  }

  lemma {:induction false} MembersRun(names: Names, s: Scan, members: seq<Member>, t: Scan)
    requires s.mode.Outside? && (members != [] ==> s.mode == Outside(None))
    requires Quiet(names, s.depth, s.keys) && ValidMembers(members)
    requires t == Chars(names, s, MembersText(members))
    ensures t.mode == Outside(None) && t.depth == s.depth - 1
    ensures Same(s, t, s.depth)
    ensures KeyAt(t.keys, s.depth) == LastKey(names, KeyAt(s.keys, s.depth), members)
    decreases members, 2
  {
    if members == [] {
      CloseRun(names, s, 125, s.(mode := Outside(None), depth := s.depth - 1));
    } else {
      var m, rest := members[0], members[1..];
      var u := Chars(names, s, HeadText(m) + ItemText(m.value));
      MemberRun(names, s, m, u);
      assert KeyAt(u.keys, 1) == KeyAt(s.keys, 1);
      var v := if rest == [] then u else Settle(names, u);
      QuietSettles(names, u);
      Separated(names, s, HeadText(m) + ItemText(m.value), rest == [], MembersText(rest), u, v);
      MembersRun(names, v, rest, t);
      SameTwice(s, v, t, s.depth);
    }
  }

  lemma {:induction false} MemberRun(names: Names, s: Scan, m: Member, t: Scan)
    requires s.mode == Outside(None) && Quiet(names, s.depth, s.keys) && ValidMember(m)
    requires t == Chars(names, s, HeadText(m) + ItemText(m.value))
    ensures t.mode.Outside? && t.depth == s.depth
    ensures Same(s, t, s.depth)
    ensures KeyAt(t.keys, s.depth) == KeyOf(names, m.name)
    decreases m, 1
  {
    var u := BindKey(names, s, m.name);
    HeadRun(names, s, m);
    QuietKey(names, s, m.name, u);
    CharsJoin(names, s, HeadText(m), ItemText(m.value));
    var v := Chars(names, u, NodeText(m.value.node));
    NodeRun(names, u, m.value.node, v);
    ItemIsNode(names, u, m.value, v);
    SameTwice(s, u, v, s.depth);
    assert KeyAt(v.keys, s.depth) == KeyAt(u.keys, s.depth);
  }
}
