/** The parser accepts exactly the spellings, and gives each its meaning. */
module SchemaRoundTrip {
  import opened Options
  import opened Unicode
  import opened Canonical
  import opened SchemaJson
  import opened SchemaSpelling
  import opened Sequences
  import opened Characters

  // ---- Every spelling is read

  /** A value begins with none of the characters that end or separate values. */
  lemma {:induction false} CoreBegins(c: Core)
    requires ValidCore(c)
    ensures CoreText(c) != [] && !Delimited(CoreText(c))
  {
    if c.TextCore? { assert CoreText(c)[0] == QUOTE; }
    if c.NumberCore? {
      assert CoreText(c)[0] == if c.negative then MINUS else c.digits[0];
    }
  }

  lemma {:induction false} DocReads(d: Doc, follow: Text)
    requires ValidDoc(d) && follow != [] && Delimited(follow) && !IsSpace(follow[0])
    requires ReadValue(CoreText(d.core) + (d.after + follow)) == Some(Read(CoreValue(d.core), d.after + follow))
    ensures ReadValue(SkipSpace(DocText(d) + follow)) == Some(Read(CoreValue(d.core), d.after + follow))
    ensures SkipSpace(d.after + follow) == follow
    ensures SkipSpace(DocText(d) + follow) == CoreText(d.core) + (d.after + follow)
  {
    var core := CoreText(d.core) + (d.after + follow);
    assert DocText(d) + follow == d.before + core;
    CoreBegins(d.core);
    assert core[0] == CoreText(d.core)[0];
    SpaceSkips(d.before, core);
    SpaceSkips(d.after, follow);
  }

  lemma {:induction false} AfterIsDelimited(d: Doc, follow: Text)
    requires ValidDoc(d) && Delimited(follow)
    ensures Delimited(d.after + follow)
  {
    if d.after == [] {
      assert d.after + follow == follow;
    } else {
      assert (d.after + follow)[0] == d.after[0];
    }
  }

  lemma {:induction false} LastItem(s: Text, v: Value, r: Text, rest: Text)
    requires ReadValue(s) == Some(Read(v, r)) && SkipSpace(r) == [CLOSE_BRACKET] + rest
    ensures ReadItems(s) == Some(Read([v], rest))
  {
    assert ([CLOSE_BRACKET] + rest)[1..] == rest;
  }

  lemma {:induction false} NextItem(s: Text, v: Value, r: Text, more: Text, vs: seq<Value>, rest: Text)
    requires ReadValue(s) == Some(Read(v, r)) && SkipSpace(r) == [COMMA] + more
    requires ReadItems(SkipSpace(more)) == Some(Read(vs, rest))
    ensures ReadItems(s) == Some(Read([v] + vs, rest))
  {
    assert ([COMMA] + more)[1..] == more;
  }

  lemma {:induction false} ItemsRead(items: seq<Doc>, rest: Text)
    requires |items| > 0 && forall i :: 0 <= i < |items| ==> ValidDoc(items[i])
    ensures !Begins(SkipSpace(ItemsText(items) + rest), CLOSE_BRACKET)
    ensures ReadItems(SkipSpace(ItemsText(items) + rest)) == Some(Read(ItemsValue(items), rest))
    decreases items, 1
  {
    var d, v := items[0], CoreValue(items[0].core);
    var follow := if |items| == 1 then [CLOSE_BRACKET] + rest else [COMMA] + (ItemsText(items[1..]) + rest);
    assert ItemsText(items) + rest == DocText(d) + follow;
    AfterIsDelimited(d, follow);
    CoreReads(d.core, d.after + follow);
    DocReads(d, follow);
    CoreBegins(d.core);
    var s := SkipSpace(ItemsText(items) + rest);
    if |items| == 1 {
      LastItem(s, v, d.after + follow, rest);
      assert ItemsValue(items) == [v];
    } else {
      ItemsRead(items[1..], rest);
      NextItem(s, v, d.after + follow, ItemsText(items[1..]) + rest, ItemsValue(items[1..]), rest);
    }
  }

  lemma {:induction false} MemberReads(
    s: Text, seen: set<Text>, key: Text, r: Text, value: Value, t: Text, rest: Text)
    requires Begins(s, QUOTE) && ReadString(s) == Some(Read(key, r)) && key !in seen
    requires SkipSpace(r) == [COLON] + t && ReadValue(t) == Some(Read(value, rest))
    ensures ReadMember(s, seen) == Some(Read(Member(key, value), rest))
  {
    assert ([COLON] + t)[1..] == t;
  }

  lemma {:induction false} LastMember(s: Text, seen: set<Text>, m: Member, r: Text, rest: Text)
    requires ReadMember(s, seen) == Some(Read(m, r)) && SkipSpace(r) == [CLOSE_BRACE] + rest
    ensures ReadMembers(s, seen) == Some(Read([m], rest))
  {
    assert ([CLOSE_BRACE] + rest)[1..] == rest;
  }

  lemma {:induction false} NextMember(
    s: Text, seen: set<Text>, m: Member, r: Text, more: Text, ms: seq<Member>, rest: Text)
    requires ReadMember(s, seen) == Some(Read(m, r)) && SkipSpace(r) == [COMMA] + more
    requires ReadMembers(SkipSpace(more), seen + {m.key}) == Some(Read(ms, rest))
    ensures ReadMembers(s, seen) == Some(Read([m] + ms, rest))
  {
    assert ([COMMA] + more)[1..] == more;
  }

  lemma {:induction false} ValueOfPair(d: Doc, follow: Text)
    requires ValidDoc(d) && follow != [] && Delimited(follow) && !IsSpace(follow[0])
    ensures ReadValue(DocText(d) + follow) == Some(Read(CoreValue(d.core), d.after + follow))
    ensures SkipSpace(d.after + follow) == follow
    decreases d, 1
  {
    AfterIsDelimited(d, follow);
    CoreReads(d.core, d.after + follow);
    DocReads(d, follow);
    ValueSkips(DocText(d) + follow);
  }

  lemma {:induction false} PairSkips(p: Pair, follow: Text, colon: Text, s: Text)
    requires ValidPair(p)
    requires colon == [COLON] + (DocText(p.value) + follow) && s == Quoted(p.key) + (p.gap + colon)
    ensures Begins(s, QUOTE) && SkipSpace(PairText(p) + follow) == s
  {
    PairCut(p, follow, colon, s);
    SpaceSkips(p.before, s);
  }

  lemma {:induction false} KeyOfPair(p: Pair, colon: Text, s: Text)
    requires ValidPair(p) && s == Quoted(p.key) + (p.gap + colon) && Begins(s, QUOTE) && Begins(colon, COLON)
    ensures ReadString(s) == Some(Read(PiecesValue(p.key), p.gap + colon))
    ensures SkipSpace(p.gap + colon) == colon
  {
    StringReads(p.key, p.gap + colon);
    SpaceSkips(p.gap, colon);
  }

  lemma {:induction false} PairCut(p: Pair, follow: Text, colon: Text, s: Text)
    requires colon == [COLON] + (DocText(p.value) + follow) && s == Quoted(p.key) + (p.gap + colon)
    ensures PairText(p) + follow == p.before + s
  {
    var tail := [COLON] + DocText(p.value);
    Regroup([COLON], DocText(p.value), follow);
    Regroup(p.gap, tail, follow);
    Regroup(Quoted(p.key), p.gap + tail, follow);
    Regroup(p.before, Quoted(p.key) + (p.gap + tail), follow);
  }

  lemma {:induction false} PairReads(p: Pair, seen: set<Text>, follow: Text)
    requires ValidPair(p) && PiecesValue(p.key) !in seen
    requires follow != [] && Delimited(follow) && !IsSpace(follow[0])
    ensures Begins(SkipSpace(PairText(p) + follow), QUOTE)
    ensures ReadMember(SkipSpace(PairText(p) + follow), seen) == Some(Read(PairValue(p), p.value.after + follow))
    ensures SkipSpace(p.value.after + follow) == follow
    decreases p, 2
  {
    var d := p.value;
    var colon: Text := [COLON] + (DocText(d) + follow);
    var s: Text := Quoted(p.key) + (p.gap + colon);
    PairSkips(p, follow, colon, s);
    KeyOfPair(p, colon, s);
    ValueOfPair(d, follow);
    MemberReads(s, seen, PiecesValue(p.key), p.gap + colon, CoreValue(d.core), DocText(d) + follow, d.after + follow);
  }

  lemma {:induction false} FewerKeys(pairs: seq<Pair>, seen: set<Text>)
    requires |pairs| > 0 && KeysDiffer(pairs, seen)
    ensures PiecesValue(pairs[0].key) !in seen
    ensures KeysDiffer(pairs[1..], seen + {PiecesValue(pairs[0].key)})
  {
  }

  lemma {:induction false} PairsTextCut(pairs: seq<Pair>, rest: Text, follow: Text)
    requires |pairs| > 0
    requires follow == if |pairs| == 1 then [CLOSE_BRACE] + rest else [COMMA] + (PairsText(pairs[1..]) + rest)
    ensures PairsText(pairs) + rest == PairText(pairs[0]) + follow
  {
  }

  lemma {:induction false} LastPairReads(p: Pair, seen: set<Text>, rest: Text, s: Text)
    requires ValidPair(p) && PiecesValue(p.key) !in seen && s == SkipSpace(PairText(p) + ([CLOSE_BRACE] + rest))
    ensures Begins(s, QUOTE) && ReadMembers(s, seen) == Some(Read([PairValue(p)], rest))
    decreases p, 3
  {
    PairReads(p, seen, [CLOSE_BRACE] + rest);
    LastMember(s, seen, PairValue(p), p.value.after + ([CLOSE_BRACE] + rest), rest);
  }

  lemma {:induction false} NextPairReads(
    p: Pair, seen: set<Text>, more: Text, ms: seq<Member>, rest: Text, s: Text)
    requires ValidPair(p) && PiecesValue(p.key) !in seen && s == SkipSpace(PairText(p) + ([COMMA] + more))
    requires ReadMembers(SkipSpace(more), seen + {PiecesValue(p.key)}) == Some(Read(ms, rest))
    ensures Begins(s, QUOTE) && ReadMembers(s, seen) == Some(Read([PairValue(p)] + ms, rest))
    decreases p, 3
  {
    PairReads(p, seen, [COMMA] + more);
    NextMember(s, seen, PairValue(p), p.value.after + ([COMMA] + more), more, ms, rest);
  }

  lemma {:induction false} PairsRead(pairs: seq<Pair>, seen: set<Text>, rest: Text, s: Text)
    requires |pairs| > 0 && (forall i :: 0 <= i < |pairs| ==> ValidPair(pairs[i])) && KeysDiffer(pairs, seen)
    requires s == SkipSpace(PairsText(pairs) + rest)
    ensures Begins(s, QUOTE) && ReadMembers(s, seen) == Some(Read(PairsValue(pairs), rest))
    decreases pairs, 1
  {
    FewerKeys(pairs, seen);
    if |pairs| == 1 {
      PairsTextCut(pairs, rest, [CLOSE_BRACE] + rest);
      LastPairReads(pairs[0], seen, rest, s);
      assert PairsValue(pairs) == [PairValue(pairs[0])];
    } else {
      var more := PairsText(pairs[1..]) + rest;
      PairsTextCut(pairs, rest, [COMMA] + more);
      PairsRead(pairs[1..], seen + {PiecesValue(pairs[0].key)}, rest, SkipSpace(more));
      NextPairReads(pairs[0], seen, more, PairsValue(pairs[1..]), rest, s);
    }
  }

  lemma {:induction false} TextCoreReads(pieces: seq<Piece>, rest: Text)
    requires ValidString(pieces)
    ensures ReadValue(Quoted(pieces) + rest) == Some(Read(Str(PiecesValue(pieces)), rest))
  {
    StringReads(pieces, rest);
    SkipsTo(Quoted(pieces) + rest, QUOTE);
  }

  lemma {:induction false} NumberIsValue(s: Text)
    requires s != [] && (s[0] == MINUS || IsDigit(s[0]))
    ensures ReadValue(s) == ReadNumber(s)
  {
    SkipsTo(s, s[0]);
  }

  lemma {:induction false} NumberBegins(negative: bool, digits: seq<Unit>, rest: Text, s: Text)
    requires ValidDigits(digits) && s == Sign(negative) + digits + rest
    ensures s != [] && (s[0] == MINUS || IsDigit(s[0]))
  {
    assert s[0] == if negative then MINUS else digits[0];
  }

  lemma {:induction false} NumberCoreReads(negative: bool, digits: seq<Unit>, rest: Text, s: Text)
    requires ValidDigits(digits) && Delimited(rest) && s == Sign(negative) + digits + rest
    ensures ReadValue(s) == Some(Read(Num(Signed(negative, DecimalValue(digits))), rest))
  {
    NumberReads(negative, digits, rest, s);
    NumberBegins(negative, digits, rest, s);
    NumberIsValue(s);
  }

  lemma {:induction false} OpensArray(s: Text, t: Text)
    requires s == [OPEN_BRACKET] + t
    ensures Begins(SkipSpace(t), CLOSE_BRACKET) ==> ReadValue(s) == Some(Read(Arr([]), SkipSpace(t)[1..]))
    ensures !Begins(SkipSpace(t), CLOSE_BRACKET) && ReadItems(SkipSpace(t)).Some? ==>
              ReadValue(s) == Some(Read(Arr(ReadItems(SkipSpace(t)).value.value), ReadItems(SkipSpace(t)).value.rest))
  {
    SkipsTo(s, OPEN_BRACKET);
    assert s[1..] == t;
  }

  lemma {:induction false} OpensObject(s: Text, t: Text)
    requires s == [OPEN_BRACE] + t
    ensures Begins(SkipSpace(t), CLOSE_BRACE) ==> ReadValue(s) == Some(Read(Obj([]), SkipSpace(t)[1..]))
    ensures !Begins(SkipSpace(t), CLOSE_BRACE) && ReadMembers(SkipSpace(t), {}).Some? ==>
              ReadValue(s) == Some(Read(Obj(ReadMembers(SkipSpace(t), {}).value.value),
                                        ReadMembers(SkipSpace(t), {}).value.rest))
  {
    SkipsTo(s, OPEN_BRACE);
    assert s[1..] == t;
  }

  lemma {:induction false} EmptyReads(inside: Text, close: Unit, rest: Text)
    requires AllSpace(inside) && (close == CLOSE_BRACKET || close == CLOSE_BRACE)
    ensures SkipSpace(inside + [close] + rest) == [close] + rest && ([close] + rest)[1..] == rest
  {
    Regroup(inside, [close], rest);
    SpaceSkips(inside, [close] + rest);
  }

  lemma {:induction false} CoreReads(c: Core, rest: Text)
    requires ValidCore(c) && Delimited(rest)
    ensures ReadValue(CoreText(c) + rest) == Some(Read(CoreValue(c), rest))
    decreases c, 3
  {
    match c {
      case NullCore => LiteralReads(NULL_TEXT, Null, rest);
      case BoolCore(b) => LiteralReads(if b then TRUE_TEXT else FALSE_TEXT, Bool(b), rest);
      case TextCore(pieces) => TextCoreReads(pieces, rest);
      case NumberCore(negative, digits) => NumberCoreReads(negative, digits, rest, CoreText(c) + rest);
      case EmptyArray(inside) => EmptyCoreReads(inside, rest);
      case ArrayCore(items) =>
        ItemsRead(items, rest);
        Regroup([OPEN_BRACKET], ItemsText(items), rest);
        OpensArray(CoreText(c) + rest, ItemsText(items) + rest);
      case EmptyObject(inside) => EmptyCoreReads(inside, rest);
      case ObjectCore(pairs) =>
        PairsRead(pairs, {}, rest, SkipSpace(PairsText(pairs) + rest));
        Regroup([OPEN_BRACE], PairsText(pairs), rest);
        OpensObject(CoreText(c) + rest, PairsText(pairs) + rest);
    }
  }

  lemma {:induction false} LiteralReads(literal: Text, v: Value, rest: Text)
    requires (literal, v) in {(NULL_TEXT, Null), (TRUE_TEXT, Bool(true)), (FALSE_TEXT, Bool(false))}
    ensures ReadValue(literal + rest) == Some(Read(v, rest))
  {
    assert (literal + rest)[|literal|..] == rest;
  }

  lemma {:induction false} EmptyCoreReads(inside: Text, rest: Text)
    requires AllSpace(inside)
    ensures ReadValue([OPEN_BRACKET] + (inside + [CLOSE_BRACKET]) + rest) == Some(Read(Arr([]), rest))
    ensures ReadValue([OPEN_BRACE] + (inside + [CLOSE_BRACE]) + rest) == Some(Read(Obj([]), rest))
  {
    EmptyReads(inside, CLOSE_BRACKET, rest);
    Regroup([OPEN_BRACKET], inside + [CLOSE_BRACKET], rest);
    OpensArray([OPEN_BRACKET] + (inside + [CLOSE_BRACKET]) + rest, inside + [CLOSE_BRACKET] + rest);
    EmptyReads(inside, CLOSE_BRACE, rest);
    Regroup([OPEN_BRACE], inside + [CLOSE_BRACE], rest);
    OpensObject([OPEN_BRACE] + (inside + [CLOSE_BRACE]) + rest, inside + [CLOSE_BRACE] + rest);
  }

  /** The parser returns the meaning of every spelling. */
  lemma {:induction false} SpellingIsRead(d: Doc)
    requires ValidDoc(d)
    ensures ReadText(DocText(d)) == Some(CoreValue(d.core))
  {
    var core := CoreText(d.core) + d.after;
    assert Delimited(d.after);
    CoreReads(d.core, d.after);
    SpaceSkips(d.before, core);
    ValueSkips(DocText(d));
    ValueSkips(core);
    assert d.after + [] == d.after;
    SpaceSkips(d.after, []);
  }

  // ---- Everything that is read is a spelling

  function WidenItems(ws: Text, items: seq<Doc>): seq<Doc>
    requires |items| > 0
  {
    [Doc(ws + items[0].before, items[0].core, items[0].after)] + items[1..]
  }

  lemma {:induction false} ItemsWidened(ws: Text, items: seq<Doc>)
    requires AllSpace(ws) && |items| > 0 && forall i :: 0 <= i < |items| ==> ValidDoc(items[i])
    ensures var wide := WidenItems(ws, items);
            && (forall i :: 0 <= i < |wide| ==> ValidDoc(wide[i]))
            && ItemsText(wide) == ws + ItemsText(items)
            && ItemsValue(wide) == ItemsValue(items)
  {
    var wide := WidenItems(ws, items);
    assert wide[1..] == items[1..];
    assert DocText(wide[0]) == ws + DocText(items[0]);
  }

  function WidenPairs(ws: Text, pairs: seq<Pair>): seq<Pair>
    requires |pairs| > 0
  {
    [Pair(ws + pairs[0].before, pairs[0].key, pairs[0].gap, pairs[0].value)] + pairs[1..]
  }

  lemma {:induction false} PairsWidened(ws: Text, pairs: seq<Pair>, seen: set<Text>)
    requires AllSpace(ws) && |pairs| > 0 && forall i :: 0 <= i < |pairs| ==> ValidPair(pairs[i])
    requires KeysDiffer(pairs, seen)
    ensures var wide := WidenPairs(ws, pairs);
            && (forall i :: 0 <= i < |wide| ==> ValidPair(wide[i]))
            && KeysDiffer(wide, seen)
            && PairsText(wide) == ws + PairsText(pairs)
            && PairsValue(wide) == PairsValue(pairs)
  {
    var wide := WidenPairs(ws, pairs);
    assert wide[1..] == pairs[1..];
    assert PairText(wide[0]) == ws + PairText(pairs[0]);
    assert forall i :: 0 <= i < |wide| ==> wide[i].key == pairs[i].key;
  }

  /** A value with the space before it. */
  lemma {:induction false} ValueSpells(s: Text, read: Read<Value>) returns (before: Text, c: Core)
    requires ReadValue(s) == Some(read)
    ensures AllSpace(before) && ValidCore(c) && CoreValue(c) == read.value
    ensures s == before + (CoreText(c) + read.rest)
    decreases |s|, 2
  {
    before := Skipped(s);
    var t := SkipSpace(s);
    if Begins(t, QUOTE) {
      var pieces := StringSpells(t, ReadString(t).value);
      c := TextCore(pieces);
    } else if Begins(t, OPEN_BRACE) || Begins(t, OPEN_BRACKET) {
      c := ContainerSpells(t, read);
    } else if NULL_TEXT <= t {
      c := NullCore;
    } else if TRUE_TEXT <= t {
      c := BoolCore(true);
    } else if FALSE_TEXT <= t {
      c := BoolCore(false);
    } else {
      c := NumberSpells(t, read);
    }
  }

  lemma {:induction false} ContainerSpells(t: Text, read: Read<Value>) returns (c: Core)
    requires Begins(t, OPEN_BRACE) || Begins(t, OPEN_BRACKET)
    requires ReadValue(t) == Some(read)
    ensures ValidCore(c) && CoreValue(c) == read.value && t == CoreText(c) + read.rest
    decreases |t|, 1
  {
    SkipsTo(t, t[0]);
    if Begins(t, OPEN_BRACE) {
      c := ObjectSpells(t, read);
    } else {
      c := ArraySpells(t, read);
    }
  }

  lemma {:induction false} ObjectSpells(t: Text, read: Read<Value>) returns (c: Core)
    requires Begins(t, OPEN_BRACE) && ReadValue(t) == Some(read) && SkipSpace(t) == t
    ensures ValidCore(c) && CoreValue(c) == read.value && t == CoreText(c) + read.rest
    decreases |t|, 0
  {
    var ws := Skipped(t[1..]);
    var u := SkipSpace(t[1..]);
    HeadAndTail(t);
    if Begins(u, CLOSE_BRACE) {
      c := EmptyObject(ws);
      HeadAndTail(u);
      Enclose(t, ws, u, [CLOSE_BRACE], u[1..]);
    } else {
      var pairs := PairsSpell(u, {}, ReadMembers(u, {}).value);
      PairsWidened(ws, pairs, {});
      c := ObjectCore(WidenPairs(ws, pairs));
      Enclose(t, ws, u, PairsText(pairs), read.rest);
    }
  }

  lemma {:induction false} ArraySpells(t: Text, read: Read<Value>) returns (c: Core)
    requires Begins(t, OPEN_BRACKET) && ReadValue(t) == Some(read) && SkipSpace(t) == t
    ensures ValidCore(c) && CoreValue(c) == read.value && t == CoreText(c) + read.rest
    decreases |t|, 0
  {
    var ws := Skipped(t[1..]);
    var u := SkipSpace(t[1..]);
    HeadAndTail(t);
    if Begins(u, CLOSE_BRACKET) {
      c := EmptyArray(ws);
      HeadAndTail(u);
      Enclose(t, ws, u, [CLOSE_BRACKET], u[1..]);
    } else {
      var items := ItemsSpell(u, ReadItems(u).value);
      ItemsWidened(ws, items);
      c := ArrayCore(WidenItems(ws, items));
      Enclose(t, ws, u, ItemsText(items), read.rest);
    }
  }

  lemma HeadAndTail(s: Text)
    requires s != []
    ensures s == [s[0]] + s[1..]
  {
  }

  lemma {:induction false} Enclose(t: Text, ws: Text, u: Text, body: Text, rest: Text)
    requires t != [] && t[1..] == ws + u && u == body + rest
    ensures t == [t[0]] + (ws + body) + rest
  {
  }

  lemma {:induction false} JoinDoc(s: Text, core: Text, r: Text, t: Text, d: Doc)
    requires s == d.before + (core + r) && core == CoreText(d.core) && r == d.after + t
    ensures s == DocText(d) + t
  {
  }

  lemma {:induction false} JoinMore(s: Text, head: Text, t: Text, ws: Text, u: Text, body: Text, rest: Text)
    requires s == head + t && t != [] && t[1..] == ws + u && u == body + rest
    ensures s == head + ([t[0]] + (ws + body)) + rest
  {
    Enclose(t, ws, u, body, rest);
    Regroup(head, [t[0]] + (ws + body), rest);
  }

  lemma {:induction false} JoinRest(s: Text, head: Text, t: Text, body: Text, rest: Text)
    requires s == head + t && t != [] && t[1..] == body + rest
    ensures s == head + ([t[0]] + body) + rest
  {
    HeadAndTail(t);
  }

  lemma {:induction false} JoinLast(s: Text, head: Text, t: Text)
    requires s == head + t && t != []
    ensures s == head + [t[0]] + t[1..]
  {
  }

  lemma {:induction false} ReadItemsCases(s: Text, read: Read<seq<Value>>, t: Text)
    requires ReadItems(s) == Some(read)
    requires ReadValue(s).Some? ==> t == SkipSpace(ReadValue(s).value.rest)
    ensures ReadValue(s).Some?
    ensures Begins(t, CLOSE_BRACKET) ==> read == Read([ReadValue(s).value.value], t[1..])
    ensures !Begins(t, CLOSE_BRACKET) ==> Begins(t, COMMA) && ReadItems(SkipSpace(t[1..])).Some?
    ensures !Begins(t, CLOSE_BRACKET) ==>
              read == Read([ReadValue(s).value.value] + ReadItems(SkipSpace(t[1..])).value.value,
                           ReadItems(SkipSpace(t[1..])).value.rest)
  {
  }

  lemma {:induction false} ItemSpells(s: Text, first: Read<Value>, t: Text) returns (d: Doc)
    requires ReadValue(s) == Some(first) && t == SkipSpace(first.rest)
    ensures ValidDoc(d) && CoreValue(d.core) == first.value && s == DocText(d) + t
    decreases |s|, 3
  {
    var before, c := ValueSpells(s, first);
    var after := Skipped(first.rest);
    d := Doc(before, c, after);
    JoinDoc(s, CoreText(c), first.rest, t, d);
  }

  lemma {:induction false} ItemsSpell(s: Text, read: Read<seq<Value>>) returns (items: seq<Doc>)
    requires ReadItems(s) == Some(read)
    ensures |items| > 0 && (forall i :: 0 <= i < |items| ==> ValidDoc(items[i]))
    ensures ItemsValue(items) == read.value && s == ItemsText(items) + read.rest
    decreases |s|, 4
  {
    var first := ReadValue(s).value;
    var t := SkipSpace(first.rest);
    ReadItemsCases(s, read, t);
    var d := ItemSpells(s, first, t);
    if Begins(t, CLOSE_BRACKET) {
      items := [d];
      JoinLast(s, DocText(d), t);
      assert ItemsValue(items) == [CoreValue(d.core)];
    } else {
      var ws := Skipped(t[1..]);
      var u := SkipSpace(t[1..]);
      var more := ItemsSpell(u, ReadItems(u).value);
      ItemsWidened(ws, more);
      items := [d] + WidenItems(ws, more);
      FirstItem(d, WidenItems(ws, more));
      JoinMore(s, DocText(d), t, ws, u, ItemsText(more), read.rest);
    }
  }

  lemma {:induction false} FirstItem(d: Doc, more: seq<Doc>)
    requires |more| > 0
    ensures ItemsText([d] + more) == DocText(d) + ([COMMA] + ItemsText(more))
    ensures ItemsValue([d] + more) == [CoreValue(d.core)] + ItemsValue(more)
  {
    assert ([d] + more)[1..] == more;
  }

  lemma {:induction false} ReadMemberCases(s: Text, seen: set<Text>, read: Read<Member>)
    requires ReadMember(s, seen) == Some(read)
    ensures Begins(s, QUOTE) && ReadString(s).Some? && ReadString(s).value.value !in seen
    ensures var t := SkipSpace(ReadString(s).value.rest);
            && Begins(t, COLON) && ReadValue(t[1..]).Some?
            && read == Read(Member(ReadString(s).value.value, ReadValue(t[1..]).value.value), ReadValue(t[1..]).value.rest)
  {
  }

  lemma {:induction false} JoinPair(s: Text, key: Read<Text>, t: Text, rest: Text, p: Pair)
    requires p.before == [] && s == Quoted(p.key) + key.rest && key.rest == p.gap + t
    requires Begins(t, COLON) && t[1..] == DocText(p.value) + rest
    ensures s == PairText(p) + rest
  {
    HeadAndTail(t);
    assert PairText(p) == Quoted(p.key) + (p.gap + ([COLON] + DocText(p.value)));
    Regroup([COLON], DocText(p.value), rest);
    Regroup(p.gap, [COLON] + DocText(p.value), rest);
    Regroup(Quoted(p.key), p.gap + ([COLON] + DocText(p.value)), rest);
  }

  /** A member with the space after it. */
  lemma {:induction false} MemberSpells(s: Text, seen: set<Text>, read: Read<Member>, rest: Text) returns (p: Pair)
    requires ReadMember(s, seen) == Some(read) && rest == SkipSpace(read.rest)
    ensures ValidPair(p) && PairValue(p) == read.value && PiecesValue(p.key) !in seen
    ensures s == PairText(p) + rest
    decreases |s|, 4
  {
    ReadMemberCases(s, seen, read);
    var key := ReadString(s).value;
    var pieces := StringSpells(s, key);
    var gap := Skipped(key.rest);
    var t := SkipSpace(key.rest);
    var d := ItemSpells(t[1..], ReadValue(t[1..]).value, rest);
    p := Pair([], pieces, gap, d);
    JoinPair(s, key, t, rest, p);
  }

  lemma {:induction false} AllDiffer(p: Pair, pairs: seq<Pair>, seen: set<Text>)
    requires PiecesValue(p.key) !in seen && KeysDiffer(pairs, seen + {PiecesValue(p.key)})
    ensures KeysDiffer([p] + pairs, seen)
  {
    var all := [p] + pairs;
    forall i | 0 <= i < |all| ensures PiecesValue(all[i].key) !in seen {
      if i > 0 { assert PiecesValue(pairs[i - 1].key) !in seen + {PiecesValue(p.key)}; }
    }
    forall i, j | 0 <= i < j < |all| ensures PiecesValue(all[i].key) != PiecesValue(all[j].key) {
      assert all[j] == pairs[j - 1];
      if i > 0 { assert all[i] == pairs[i - 1]; }
    }
  }

  lemma {:induction false} ReadMembersCases(s: Text, seen: set<Text>, read: Read<seq<Member>>, t: Text)
    requires ReadMembers(s, seen) == Some(read)
    requires ReadMember(s, seen).Some? ==> t == SkipSpace(ReadMember(s, seen).value.rest)
    ensures ReadMember(s, seen).Some?
    ensures Begins(t, CLOSE_BRACE) ==> read == Read([ReadMember(s, seen).value.value], t[1..])
    ensures !Begins(t, CLOSE_BRACE) ==> Begins(t, COMMA)
    ensures !Begins(t, CLOSE_BRACE) ==>
              ReadMembers(SkipSpace(t[1..]), seen + {ReadMember(s, seen).value.value.key}).Some?
    ensures !Begins(t, CLOSE_BRACE) ==>
              var more := ReadMembers(SkipSpace(t[1..]), seen + {ReadMember(s, seen).value.value.key}).value;
              read == Read([ReadMember(s, seen).value.value] + more.value, more.rest)
  {
  }

  lemma {:induction false} FirstPair(p: Pair, more: seq<Pair>)
    requires |more| > 0
    ensures PairsText([p] + more) == PairText(p) + ([COMMA] + PairsText(more))
    ensures PairsValue([p] + more) == [PairValue(p)] + PairsValue(more)
  {
    assert ([p] + more)[1..] == more;
  }

  lemma {:induction false} PairsSpell(s: Text, seen: set<Text>, read: Read<seq<Member>>) returns (pairs: seq<Pair>)
    requires ReadMembers(s, seen) == Some(read)
    ensures |pairs| > 0 && (forall i :: 0 <= i < |pairs| ==> ValidPair(pairs[i])) && KeysDiffer(pairs, seen)
    ensures PairsValue(pairs) == read.value && s == PairsText(pairs) + read.rest
    decreases |s|, 5
  {
    var first := ReadMember(s, seen).value;
    var t := SkipSpace(first.rest);
    ReadMembersCases(s, seen, read, t);
    var p := MemberSpells(s, seen, first, t);
    if Begins(t, CLOSE_BRACE) {
      pairs := [p];
      JoinLast(s, PairText(p), t);
      assert PairsValue(pairs) == [PairValue(p)];
    } else {
      var seen' := seen + {first.value.key};
      var more := MorePairsSpell(t[1..], seen', ReadMembers(SkipSpace(t[1..]), seen').value);
      AllDiffer(p, more, seen);
      pairs := [p] + more;
      FirstPair(p, more);
      JoinRest(s, PairText(p), t, PairsText(more), read.rest);
    }
  }

  /** The members after a comma, with the space before them. */
  lemma {:induction false} MorePairsSpell(s: Text, seen: set<Text>, read: Read<seq<Member>>) returns (pairs: seq<Pair>)
    requires ReadMembers(SkipSpace(s), seen) == Some(read)
    ensures |pairs| > 0 && (forall i :: 0 <= i < |pairs| ==> ValidPair(pairs[i])) && KeysDiffer(pairs, seen)
    ensures PairsValue(pairs) == read.value && s == PairsText(pairs) + read.rest
    decreases |s|, 6
  {
    var ws := Skipped(s);
    var more := PairsSpell(SkipSpace(s), seen, read);
    PairsWidened(ws, more, seen);
    pairs := WidenPairs(ws, more);
    Regroup(ws, PairsText(more), read.rest);
  }

  /** Every text the parser accepts is a spelling of the value it returns. */
  lemma {:induction false} ReadIsSpelling(text: Text, v: Value) returns (d: Doc)
    requires ReadText(text) == Some(v)
    ensures ValidDoc(d) && DocText(d) == text && CoreValue(d.core) == v
  {
    var read := ReadValue(text).value;
    var before, c := ValueSpells(text, read);
    var after := Skipped(read.rest);
    d := Doc(before, c, after);
  }

  /** A text is accepted with a value exactly when some spelling has that text and that meaning. */
  lemma {:induction false} AcceptedIffSpelled(text: Text, v: Value)
    ensures ReadText(text) == Some(v) <==> exists d :: ValidDoc(d) && DocText(d) == text && CoreValue(d.core) == v
  {
    if ReadText(text) == Some(v) {
      var d := ReadIsSpelling(text, v);
    }
    if d :| ValidDoc(d) && DocText(d) == text && CoreValue(d.core) == v {
      SpellingIsRead(d);
    }
  }
}
