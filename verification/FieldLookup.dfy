/** The answer as a lookup: the last member of the name, and in it the last binding of each requested field. */
module FieldLookup {
  import opened Bytes
  import opened Options
  import opened FieldDecode
  import opened FieldEmit
  import opened FieldAgreement
  import opened FieldScan
  import opened FieldDocument
  import opened FieldQuiet
  import opened FieldTree

  // ---- The reference: last wins at both levels

  /** The value of the last member of a name. */
  function Last(members: seq<Member>, name: Bytes): Option<Node>
    decreases |members|
  {
    if members == [] then None
    else
      var later := Last(members[1..], name);
      if later.Some? then later
      else if Unescaped(members[0].name) == name then Some(members[0].value.node)
      else None
  }

  function StringOf(node: Option<Node>): Option<Bytes>
  {
    if node.Some? && node.value.Str? then Some(node.value.raw) else None
  }

  /** The raw text of a field that is a string. */
  function Field(node: Option<Node>, name: Bytes): Option<Bytes>
  {
    if node.Some? && node.value.Obj? then StringOf(Last(node.value.members, name)) else None
  }

  function FirstField(node: Option<Node>, wanted: seq<Bytes>): Option<Bytes>
  {
    if wanted == [] then None
    else if Field(node, wanted[0]).Some? then Field(node, wanted[0])
    else FirstField(node, wanted[1..])
  }

  // ---- Names

  /** Names that are not empty and shorter than the largest string that is kept. */
  predicate ShortNames(names: Names)
  {
    names.container != [] && [] !in names.wanted && LongestName(names) < 4096
  }

  predicate LookedFor(names: Names, name: Bytes)
  {
    name == names.container || name in names.wanted
  }

  lemma {:induction false} LongestBounds(least: nat, names: seq<Bytes>, name: Bytes)
    ensures least <= Longest(least, names)
    ensures name in names ==> |name| <= Longest(least, names)
  {
    if names != [] {
      LongestBounds(least, names[..|names| - 1], name);
    }
  }

  /** The key that is stored is a name looked for exactly when the name in the document is. */
  lemma {:induction false} KeyIsName(names: Names, raw: Bytes, name: Bytes)
    requires ShortNames(names) && LookedFor(names, name) && Closed(raw)
    ensures KeyOf(names, raw) == name <==> Unescaped(raw) == name
  {
    var longest := LongestName(names);
    LongestBounds(|names.container|, names.wanted, name);
    if Oversize(raw) {
      LongEnough(raw);
      PruningLosesNothing([], longest, []);
      assert Unescaped([]) == [];
    } else {
      PruningLosesNothing(raw, longest, name);
    }
  }

  // ---- Fields

  function FoundAt(found: map<Bytes, Bytes>, name: Bytes): Option<Bytes>
  {
    if name in found then Some(found[name]) else None
  }

  lemma {:induction false} StaysUnreadable(names: Names, t: Tally, members: seq<Member>)
    requires t.unreadable
    ensures TakeFields(names, t, members).unreadable
    decreases |members|
  {
    if members != [] {
      StaysUnreadable(names, TakeField(names, t, members[0]), members[1..]);
    }
  }

  lemma {:induction false} OneField(names: Names, t: Tally, m: Member, f: Bytes)
    requires ShortNames(names) && f in names.wanted && ValidMember(m)
    requires !TakeField(names, t, m).unreadable
    ensures Unescaped(m.name) == f ==> FoundAt(TakeField(names, t, m).found, f) == StringOf(Some(m.value.node))
    ensures Unescaped(m.name) != f ==> FoundAt(TakeField(names, t, m).found, f) == FoundAt(t.found, f)
  {
    KeyIsName(names, m.name, f);
  }

  lemma {:induction false} FieldsLookup(names: Names, t: Tally, members: seq<Member>, f: Bytes)
    requires ShortNames(names) && f in names.wanted && ValidMembers(members)
    requires !TakeFields(names, t, members).unreadable
    ensures Last(members, f).None? ==> FoundAt(TakeFields(names, t, members).found, f) == FoundAt(t.found, f)
    ensures Last(members, f).Some? ==> FoundAt(TakeFields(names, t, members).found, f) == StringOf(Last(members, f))
    decreases |members|
  {
    if members != [] {
      var next := TakeField(names, t, members[0]);
      if next.unreadable {
        StaysUnreadable(names, next, members[1..]);
      } else {
        OneField(names, t, members[0], f);
        FieldsLookup(names, next, members[1..], f);
      }
    }
  }

  // ---- Arrays

  function LastString(items: seq<Item>): Option<Bytes>
    decreases |items|
  {
    if items == [] then None
    else
      var later := LastString(items[1..]);
      if later.Some? then later else StringOf(Some(items[0].node))
  }

  lemma {:induction false} StaysUnreadableItems(names: Names, t: Tally, items: seq<Item>)
    requires t.unreadable
    ensures TakeItems(names, t, items).unreadable
    decreases |items|
  {
    if items != [] {
      StaysUnreadableItems(names, TakeValue(names, t, items[0].node), items[1..]);
    }
  }

  lemma {:induction false} ItemsLookup(names: Names, t: Tally, items: seq<Item>, f: Bytes)
    requires f in names.wanted && !TakeItems(names, t, items).unreadable
    ensures TakeItems(names, t, items).key == t.key
    ensures f == t.key && LastString(items).Some? ==> FoundAt(TakeItems(names, t, items).found, f) == LastString(items)
    ensures f != t.key || LastString(items).None? ==> FoundAt(TakeItems(names, t, items).found, f) == FoundAt(t.found, f)
    decreases |items|
  {
    if items != [] {
      var next := TakeValue(names, t, items[0].node);
      if next.unreadable {
        StaysUnreadableItems(names, next, items[1..]);
      } else {
        ItemsLookup(names, next, items[1..], f);
      }
    }
  }

  // ---- The key left over from an earlier object

  function StaleAfter(key: Bytes, node: Node): Bytes
  {
    if node.Obj? && node.members != [] then Unescaped(node.members[|node.members| - 1].name) else key
  }

  /** The name last seen at depth two when the last member of a name begins. */
  function StaleKey(key: Bytes, members: seq<Member>, name: Bytes): Bytes
    decreases |members|
  {
    if members == [] || Last(members[1..], name).None? then key
    else StaleKey(StaleAfter(key, members[0].value.node), members[1..], name)
  }

  lemma {:induction false} LastKeyIsLast(names: Names, key: Bytes, members: seq<Member>)
    requires members != []
    ensures LastKey(names, key, members) == KeyOf(names, members[|members| - 1].name)
    decreases |members|
  {
    if |members| > 1 {
      LastKeyIsLast(names, KeyOf(names, members[0].name), members[1..]);
    }
  }

  lemma {:induction false} FieldsKey(names: Names, t: Tally, members: seq<Member>)
    ensures TakeFields(names, t, members).key == LastKey(names, t.key, members)
    decreases |members|
  {
    if members != [] {
      FieldsKey(names, TakeField(names, t, members[0]), members[1..]);
    }
  }

  lemma {:induction false} ItemsKey(names: Names, t: Tally, items: seq<Item>)
    ensures TakeItems(names, t, items).key == t.key
    decreases |items|
  {
    if items != [] {
      ItemsKey(names, TakeValue(names, t, items[0].node), items[1..]);
    }
  }

  lemma {:induction false} TopKey(names: Names, t: Tally, m: Member)
    ensures TakeTop(names, t, m).key == NodeKey(names, t.key, m.value.node)
  {
    var node := m.value.node;
    if node.Obj? {
      FieldsKey(names, t.(found := map[]), node.members);
    } else if node.Arr? {
      ItemsKey(names, t.(found := map[]), node.items);
    }
  }

  lemma {:induction false} ValidAt(members: seq<Member>, i: nat)
    requires ValidMembers(members) && i < |members|
    ensures ValidMember(members[i])
    decreases |members|
  {
    if i > 0 {
      ValidAt(members[1..], i - 1);
    }
  }

  /** The stored key and the name last seen agree about the names looked for. */
  predicate Agree(names: Names, stored: Bytes, key: Bytes)
  {
    forall f :: f in names.wanted ==> (stored == f <==> key == f)
  }

  lemma {:induction false} TopAgrees(names: Names, t: Tally, key: Bytes, m: Member)
    requires ShortNames(names) && Agree(names, t.key, key) && ValidMember(m)
    ensures Agree(names, TakeTop(names, t, m).key, StaleAfter(key, m.value.node))
  {
    TopKey(names, t, m);
    assert ValidItem(m.value);
    KeyAgrees(names, t.key, key, m.value.node);
  }

  lemma {:induction false} KeyAgrees(names: Names, stored: Bytes, key: Bytes, node: Node)
    requires ShortNames(names) && Agree(names, stored, key) && ValidNode(node)
    ensures Agree(names, NodeKey(names, stored, node), StaleAfter(key, node))
  {
    if node.Obj? && node.members != [] {
      var n := |node.members| - 1;
      LastKeyIsLast(names, stored, node.members);
      ValidAt(node.members, n);
      NameAgrees(names, node.members[n].name);
    }
  }

  lemma {:induction false} NameAgrees(names: Names, raw: Bytes)
    requires ShortNames(names) && Closed(raw)
    ensures Agree(names, KeyOf(names, raw), Unescaped(raw))
  {
    forall f | f in names.wanted ensures KeyOf(names, raw) == f <==> Unescaped(raw) == f {
      KeyIsName(names, raw, f);
    }
  }

  // ---- The whole document

  /** What a member of the name looked for binds, given the key left over when it begins. */
  function Binds(node: Node, stale: Bytes, f: Bytes): Option<Bytes>
  {
    if node.Arr? then if stale == f then LastString(node.items) else None
    else Field(Some(node), f)
  }

  lemma {:induction false} ContainerLookup(names: Names, t: Tally, key: Bytes, node: Node, f: Bytes)
    requires ShortNames(names) && f in names.wanted && Agree(names, t.key, key) && ValidNode(node) && t.found == map[]
    requires !TakeContainer(names, t, node).unreadable
    ensures FoundAt(TakeContainer(names, t, node).found, f) == Binds(node, key, f)
  {
    match node
    case Obj(_, members) => FieldsLookup(names, t, members, f);
    case Arr(_, items) => ItemsLookup(names, t, items, f);
    case _ =>
  }

  lemma {:induction false} TopStaysUnreadable(names: Names, t: Tally, members: seq<Member>)
    requires t.unreadable
    ensures TakeAll(names, t, members).unreadable
    decreases |members|
  {
    if members != [] {
      var node := members[0].value.node;
      if node.Obj? {
        StaysUnreadable(names, t.(found := map[]), node.members);
      } else if node.Arr? {
        StaysUnreadableItems(names, t.(found := map[]), node.items);
      }
      TopStaysUnreadable(names, TakeTop(names, t, members[0]), members[1..]);
    }
  }

  lemma {:induction false} TopLookup(names: Names, t: Tally, key: Bytes, m: Member, f: Bytes)
    requires ShortNames(names) && f in names.wanted && Agree(names, t.key, key) && ValidMember(m)
    requires !TakeTop(names, t, m).unreadable
    ensures Unescaped(m.name) != names.container ==> TakeTop(names, t, m).found == t.found
    ensures Unescaped(m.name) == names.container ==>
      FoundAt(TakeTop(names, t, m).found, f) == Binds(m.value.node, key, f)
  {
    KeyIsName(names, m.name, names.container);
    assert ValidItem(m.value);
    assert ValidNode(m.value.node);
    if Unescaped(m.name) == names.container {
      ContainerLookup(names, t.(found := map[]), key, m.value.node, f);
    }
  }

  lemma {:induction false} AllLookup(names: Names, t: Tally, key: Bytes, members: seq<Member>, f: Bytes, node: Option<Node>)
    requires ShortNames(names) && f in names.wanted && Agree(names, t.key, key) && ValidMembers(members)
    requires !TakeAll(names, t, members).unreadable && node == Last(members, names.container)
    ensures node.None? ==> FoundAt(TakeAll(names, t, members).found, f) == FoundAt(t.found, f)
    ensures node.Some? ==>
      FoundAt(TakeAll(names, t, members).found, f) == Binds(node.value, StaleKey(key, members, names.container), f)
    decreases |members|
  {
    if members != [] {
      var m, rest := members[0], members[1..];
      var next := TakeTop(names, t, m);
      if next.unreadable {
        TopStaysUnreadable(names, next, rest);
      } else {
        TopAgrees(names, t, key, m);
        TopLookup(names, t, key, m, f);
        AllLookup(names, next, StaleAfter(key, m.value.node), rest, f, Last(rest, names.container));
      }
    }
  }

  lemma {:induction false} FirstAlike(wanted: seq<Bytes>, found: map<Bytes, Bytes>, node: Option<Node>)
    requires forall f :: f in wanted ==> FoundAt(found, f) == Field(node, f)
    ensures FirstFound(wanted, found) == FirstField(node, wanted)
  {
    if wanted != [] {
      assert wanted[0] in wanted;
      FirstAlike(wanted[1..], found, node);
    }
  }

  lemma {:induction false} SomeFound(wanted: seq<Bytes>, found: map<Bytes, Bytes>, f: Bytes)
    requires f in wanted && f in found
    ensures FirstFound(wanted, found).Some?
  {
    if wanted[0] != f {
      SomeFound(wanted[1..], found, f);
    }
  }

  lemma {:induction false} NoField(node: Option<Node>, wanted: seq<Bytes>)
    requires node.None? || !node.value.Obj?
    ensures FirstField(node, wanted).None?
  {
    if wanted != [] {
      NoField(node, wanted[1..]);
    }
  }

  /** The last member of the name is an array with a string in it, and a requested name was the last seen at depth two. */
  predicate Stray(names: Names, members: seq<Member>)
  {
    var node := Last(members, names.container);
    && node.Some? && node.value.Arr? && LastString(node.value.items).Some?
    && StaleKey([], members, names.container) in names.wanted
  }

  /**
   A scan that succeeds selects the first requested field that is a string, last binding in the last member of the
   name, exactly when no array stands where the object should be with a requested key left over.
   */
  lemma {:induction false} SelectsLastBinding(names: Names, members: seq<Member>, t: Tally)
    requires ShortNames(names) && ValidMembers(members)
    requires t == TakeAll(names, EMPTY, members) && !t.unreadable
    ensures FirstFound(names.wanted, t.found) == FirstField(Last(members, names.container), names.wanted)
       <==> !Stray(names, members)
  {
    var node := Last(members, names.container);
    var stale := StaleKey([], members, names.container);
    forall f | f in names.wanted
      ensures node.None? ==> FoundAt(t.found, f) == None
      ensures node.Some? ==> FoundAt(t.found, f) == Binds(node.value, stale, f)
    {
      AllLookup(names, EMPTY, [], members, f, node);
    }
    if Stray(names, members) {
      NoField(node, names.wanted);
      assert FoundAt(t.found, stale).Some?;
      SomeFound(names.wanted, t.found, stale);
    } else {
      FirstAlike(names.wanted, t.found, node);
    }
  }

  const OBJECT_THEN_ARRAY: seq<Member> :=
    [Member([], [111], [], Item([], Obj([], [Member([], [102], [], Item([], Str([97]), []))]), [])),
     Member([], [111], [], Item([], Arr([], [Item([], Str([98]), [])]), []))]

  /**
   `{"o":{"f":"a"},"o":["b"]}`: the last member `o` is no object, so there is no field `f` in it, and yet looking for
   `f` in `o` prints the string in the array.
   */
  lemma {:induction false} ArrayIsMistaken(names: Names, doc: Item)
    requires names == Names([111], [[102]]) && doc == Item([], Obj([], OBJECT_THEN_ARRAY), [])
    ensures ShortNames(names) && ValidItem(doc) && Stray(names, OBJECT_THEN_ARRAY)
    ensures FirstField(Last(OBJECT_THEN_ARRAY, [111]), [[102]]) == None
    ensures Read(names, ItemText(doc)) == Answer(0, [98])
  {
    ExampleIsStray(names);
    assert ValidNode(doc.node);
    ScanWalksTree(names, doc, OBJECT_THEN_ARRAY);
    ExampleTally(names);
  }

  lemma {:induction false} ExampleIsStray(names: Names)
    requires names == Names([111], [[102]])
    ensures ShortNames(names) && ValidMembers(OBJECT_THEN_ARRAY)
    ensures Stray(names, OBJECT_THEN_ARRAY)
    ensures FirstField(Last(OBJECT_THEN_ARRAY, [111]), [[102]]) == None
  {
    var first, second := OBJECT_THEN_ARRAY[0], OBJECT_THEN_ARRAY[1];
    PlainTokens();
    assert OBJECT_THEN_ARRAY[1..] == [second];
    assert [second][1..] == [];
    assert Last([second], [111]) == Some(second.value.node);
    assert second.value.node.items[1..] == [];
    assert first.value.node.members[1..] == [];
    assert StaleKey([], OBJECT_THEN_ARRAY, [111]) == StaleKey([102], [second], [111]);
    assert names.wanted[..0] == [];
  }

  lemma {:induction false} PlainByte(names: Names, b: Byte)
    requires b != BACKSLASH && b != QUOTE
    ensures !Oversize([b]) && KeyOf(names, [b]) == [b] && Emitted([b]) == [b]
  {
    NoQuotes([b]);
    assert [b][1..] == [];
    assert Parts([b]) == [[b] + Parts([])[0]] + Parts([])[1..];
    assert Parts([b])[1..] == [];
  }

  lemma {:induction false} SingleField(names: Names, t: Tally, members: seq<Member>)
    requires |members| == 1
    ensures TakeFields(names, t, members) == TakeField(names, t, members[0])
  {
    assert members[1..] == [];
  }

  lemma {:induction false} ExampleTally(names: Names)
    requires names == Names([111], [[102]])
    ensures TallyAnswer(names, TakeAll(names, EMPTY, OBJECT_THEN_ARRAY)) == Answer(0, [98])
  {
    var first, second := OBJECT_THEN_ARRAY[0], OBJECT_THEN_ARRAY[1];
    PlainByte(names, 111);
    PlainByte(names, 102);
    PlainByte(names, 97);
    PlainByte(names, 98);
    var fields, items := first.value.node.members, second.value.node.items;
    var one := TakeTop(names, EMPTY, first);
    SingleField(names, EMPTY, fields);
    assert one.key == [102] && !one.unreadable;
    var cleared := one.(found := map[]);
    assert items[1..] == [];
    assert TakeItems(names, cleared, items) == TakeValue(names, cleared, Str([98]));
    var two := TakeTop(names, one, second);
    assert two.found == map[[102] := [98]] && !two.unreadable;
    assert OBJECT_THEN_ARRAY[1..] == [second] && [second][1..] == [];
    assert TakeAll(names, EMPTY, OBJECT_THEN_ARRAY) == TakeAll(names, one, [second]) == TakeAll(names, two, []) == two;
  }

  lemma {:induction false} PlainTokens()
    ensures Unescaped([111]) == [111] && Unescaped([102]) == [102]
    ensures IsToken([111]) && IsToken([102]) && IsToken([97]) && IsToken([98])
  {
    PlainIsItself([111]);
    PlainIsItself([102]);
    PiecesUnfold([111], Plain(111));
    PiecesUnfold([102], Plain(102));
    PiecesUnfold([97], Plain(97));
    PiecesUnfold([98], Plain(98));
  }

  lemma {:induction false} LastIsValid(members: seq<Member>, name: Bytes)
    requires ValidMembers(members) && Last(members, name).Some?
    ensures ValidNode(Last(members, name).value)
    decreases |members|
  {
    assert ValidItem(members[0].value);
    if Last(members[1..], name).Some? {
      LastIsValid(members[1..], name);
    }
  }

  lemma {:induction false} FirstIsToken(node: Option<Node>, wanted: seq<Bytes>)
    requires node.Some? ==> ValidNode(node.value)
    ensures FirstField(node, wanted).Some? ==> IsToken(FirstField(node, wanted).value)
  {
    if wanted != [] {
      if Field(node, wanted[0]).Some? {
        LastIsValid(node.value.members, wanted[0]);
      }
      FirstIsToken(node, wanted[1..]);
    }
  }

  /**
   The scanner on the text of any document with a top-level object whose last member of the name is no array: when it
   exits with 0 it has printed the first requested field whose last binding is a string, decoded, and nothing if there
   is none. What it prints is the decoded string character by character exactly when no text is skipped.
   */
  lemma {:induction false} ReadsLastBinding(names: Names, doc: Item, members: seq<Member>, raw: Option<Bytes>, out: Bytes)
    requires ShortNames(names) && ValidItem(doc) && doc.node.Obj? && doc.node.members == members
    requires Last(members, names.container).Some? ==> !Last(members, names.container).value.Arr?
    requires raw == FirstField(Last(members, names.container), names.wanted)
    requires Read(names, ItemText(doc)) == Answer(0, out)
    ensures raw.None? ==> out == []
    ensures raw.Some? ==> IsToken(raw.value) && out == Emitted(raw.value)
    ensures raw.Some? ==> (out == Unescaped(raw.value) <==> Clean(Pieces(raw.value)))
  {
    var node := Last(members, names.container);
    ScanWalksTree(names, doc, members);
    SelectsLastBinding(names, members, TakeAll(names, EMPTY, members));
    if node.Some? {
      LastIsValid(members, names.container);
    }
    FirstIsToken(node, names.wanted);
    if raw.Some? {
      DecodersAgree(raw.value);
    }
  }

  // ---- When the scan gives up

  predicate TooLargeField(names: Names, m: Member)
  {
    m.value.node.Str? && Oversize(m.value.node.raw) && Unescaped(m.name) in names.wanted
  }

  predicate TooLargeItem(item: Item)
  {
    item.node.Str? && Oversize(item.node.raw)
  }

  /** A member of the name looked for with a requested string in it that is too large. */
  predicate TooLarge(names: Names, key: Bytes, m: Member)
  {
    && Unescaped(m.name) == names.container
    && match m.value.node
       case Obj(_, members) => exists i :: 0 <= i < |members| && TooLargeField(names, members[i])
       case Arr(_, items) => key in names.wanted && exists i :: 0 <= i < |items| && TooLargeItem(items[i])
       case _ => false
  }

  predicate AnyTooLarge(names: Names, key: Bytes, members: seq<Member>)
    decreases |members|
  {
    && members != []
    && (TooLarge(names, key, members[0]) ||
        AnyTooLarge(names, StaleAfter(key, members[0].value.node), members[1..]))
  }

  lemma {:induction false} FieldsTooLarge(names: Names, t: Tally, members: seq<Member>)
    requires ShortNames(names) && ValidMembers(members)
    ensures TakeFields(names, t, members).unreadable <==>
      t.unreadable || exists i :: 0 <= i < |members| && TooLargeField(names, members[i])
    decreases |members|
  {
    if members != [] {
      var m, rest := members[0], members[1..];
      FieldsTooLarge(names, TakeField(names, t, m), rest);
      OneTooLarge(names, t, m);
      assert forall i :: 0 <= i < |rest| ==> rest[i] == members[i + 1];
      assert forall i :: 0 < i < |members| ==> members[i] == rest[i - 1];
    }
  }

  lemma {:induction false} OneTooLarge(names: Names, t: Tally, m: Member)
    requires ShortNames(names) && ValidMember(m)
    ensures TakeField(names, t, m).unreadable <==> t.unreadable || TooLargeField(names, m)
  {
    NameAgrees(names, m.name);
  }

  lemma {:induction false} ItemsTooLarge(names: Names, t: Tally, items: seq<Item>)
    ensures TakeItems(names, t, items).unreadable <==>
      t.unreadable || (t.key in names.wanted && exists i :: 0 <= i < |items| && TooLargeItem(items[i]))
    decreases |items|
  {
    if items != [] {
      var item, rest := items[0], items[1..];
      ItemsTooLarge(names, TakeValue(names, t, item.node), rest);
      assert forall i :: 0 <= i < |rest| ==> rest[i] == items[i + 1];
      assert forall i :: 0 < i < |items| ==> items[i] == rest[i - 1];
    }
  }

  lemma {:induction false} TopTooLarge(names: Names, t: Tally, key: Bytes, m: Member)
    requires ShortNames(names) && ValidMember(m) && Agree(names, t.key, key)
    ensures TakeTop(names, t, m).unreadable <==> t.unreadable || TooLarge(names, key, m)
  {
    KeyIsName(names, m.name, names.container);
    assert ValidItem(m.value);
    assert ValidNode(m.value.node);
    match m.value.node
    case Obj(_, members) => FieldsTooLarge(names, t.(found := map[]), members);
    case Arr(_, items) => ItemsTooLarge(names, t.(found := map[]), items);
    case _ =>
  }

  lemma {:induction false} AllTooLarge(names: Names, t: Tally, key: Bytes, members: seq<Member>)
    requires ShortNames(names) && ValidMembers(members) && Agree(names, t.key, key)
    ensures TakeAll(names, t, members).unreadable <==> t.unreadable || AnyTooLarge(names, key, members)
    decreases |members|
  {
    if members != [] {
      var m := members[0];
      TopTooLarge(names, t, key, m);
      TopAgrees(names, t, key, m);
      AllTooLarge(names, TakeTop(names, t, m), StaleAfter(key, m.value.node), members[1..]);
    }
  }

  /** The scanner gives up exactly when a requested string in a member of the name is too large, wherever it stands. */
  lemma {:induction false} GivesUpWhenTooLarge(names: Names, doc: Item, members: seq<Member>)
    requires ShortNames(names) && ValidItem(doc) && doc.node.Obj? && doc.node.members == members
    ensures Read(names, ItemText(doc)).status == 65 <==> AnyTooLarge(names, [], members)
    ensures Read(names, ItemText(doc)).status == 0 <==> !AnyTooLarge(names, [], members)
  {
    ScanWalksTree(names, doc, members);
    AllTooLarge(names, EMPTY, [], members);
  }
}
