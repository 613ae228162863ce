/** The program of scripts/json-field.awk on the text of a document, as a lookup in the document's tree. */
module FieldProgram {
  import opened Bytes
  import opened Options
  import opened FieldDecode
  import opened FieldEmit
  import opened FieldAgreement
  import opened FieldScan
  import opened FieldDocument
  import opened FieldTree
  import opened FieldLookup
  import FieldReader

  /**
   The string that is printed: the first requested field whose last binding, in the last member of the name, is a
   string; but the last string of an array that is mistaken for that member.
   */
  function Chosen(names: Names, members: seq<Member>): Option<Bytes>
  {
    var node := Last(members, names.container);
    if Stray(names, members) then LastString(node.value.items) else FirstField(node, names.wanted)
  }

  /** The answer, by the tree of the document alone. */
  function Lookup(names: Names, members: seq<Member>): Answer
  {
    if AnyTooLarge(names, [], members) then Answer(65, [])
    else
      var raw := Chosen(names, members);
      Answer(0, if raw.Some? then Emitted(raw.value) else [])
  }

  lemma {:induction false} OnlyOneFound(wanted: seq<Bytes>, found: map<Bytes, Bytes>, name: Bytes)
    requires name in wanted && name in found && forall f :: f in wanted && f != name ==> f !in found
    ensures FirstFound(wanted, found) == Some(found[name])
  {
    if wanted[0] != name {
      assert wanted[0] in wanted;
      OnlyOneFound(wanted[1..], found, name);
    }
  }

  /** A mistaken array binds its last string to the key left over, and nothing to any other name. */
  lemma {:induction false} StrayIsChosen(names: Names, members: seq<Member>, t: Tally, node: Option<Node>, stale: Bytes)
    requires ShortNames(names) && ValidMembers(members) && Stray(names, members)
    requires t == TakeAll(names, EMPTY, members) && !t.unreadable
    requires node == Last(members, names.container) && stale == StaleKey([], members, names.container)
    ensures FirstFound(names.wanted, t.found) == LastString(node.value.items)
  {
    forall f | f in names.wanted ensures FoundAt(t.found, f) == Binds(node.value, stale, f) {
      AllLookup(names, EMPTY, [], members, f, node);
    }
    assert FoundAt(t.found, stale).Some?;
    forall f | f in names.wanted && f != stale ensures f !in t.found {
      assert FoundAt(t.found, f).None?;
    }
    OnlyOneFound(names.wanted, t.found, stale);
  }

  lemma {:induction false} FoundIsChosen(names: Names, members: seq<Member>, t: Tally)
    requires ShortNames(names) && ValidMembers(members)
    requires t == TakeAll(names, EMPTY, members) && !t.unreadable
    ensures FirstFound(names.wanted, t.found) == Chosen(names, members)
  {
    if Stray(names, members) {
      StrayIsChosen(names, members, t, Last(members, names.container), StaleKey([], members, names.container));
    } else {
      SelectsLastBinding(names, members, t);
    }
  }

  /** On the text of every document with a top-level object, the scanner answers as the lookup. */
  lemma {:induction false} ScanIsLookup(names: Names, doc: Item, members: seq<Member>)
    requires ShortNames(names) && ValidItem(doc) && doc.node.Obj? && doc.node.members == members
    ensures Read(names, ItemText(doc)) == Lookup(names, members)
  {
    var t := TakeAll(names, EMPTY, members);
    assert ValidNode(doc.node);
    ScanWalksTree(names, doc, members);
    AllTooLarge(names, EMPTY, [], members);
    if !t.unreadable {
      FoundIsChosen(names, members, t);
    }
  }

  lemma {:induction false} LastStringIsValid(items: seq<Item>)
    requires ValidItems(items) && LastString(items).Some?
    ensures IsToken(LastString(items).value)
    decreases |items|
  {
    assert ValidNode(items[0].node);
    if LastString(items[1..]).Some? {
      LastStringIsValid(items[1..]);
    }
  }

  /** The string that is printed is a token, and decoding it character by character gives the same unless text is skipped. */
  lemma {:induction false} ChosenIsToken(names: Names, doc: Item, members: seq<Member>, raw: Bytes)
    requires ValidItem(doc) && doc.node.Obj? && doc.node.members == members && Chosen(names, members) == Some(raw)
    ensures IsToken(raw) && (Emitted(raw) == Unescaped(raw) <==> Clean(Pieces(raw)))
  {
    var node := Last(members, names.container);
    assert ValidNode(doc.node);
    if node.Some? {
      LastIsValid(members, names.container);
      assert ValidNode(node.value);
    }
    if Stray(names, members) {
      LastStringIsValid(node.value.items);
    } else {
      FirstIsToken(node, names.wanted);
    }
    DecodersAgree(raw);
  }

  /** The program itself, given the text of a document. */
  method ReadDocument(container: Bytes, wanted: seq<Bytes>, text: Bytes, ghost doc: Item) returns (answer: Answer)
    requires ShortNames(Names(container, wanted)) && ValidItem(doc) && doc.node.Obj? && text == ItemText(doc)
    ensures answer == Lookup(Names(container, wanted), doc.node.members)
  {
    answer := FieldReader.ReadField(container, wanted, text);
    ScanIsLookup(Names(container, wanted), doc, doc.node.members);
  }
}
