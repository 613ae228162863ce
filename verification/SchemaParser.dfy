/** `parseSchemaJson` of clients/node/contract-manifest.mjs as it is written. */
module SchemaParser {
  import opened Options
  import opened Canonical
  import opened SchemaJson
  import opened SchemaSpelling
  import opened SchemaRoundTrip
  import opened Characters

  // One position that every routine advances, loops that fill an array or an object, and a set of the keys seen. A
  // thrown error is a missing result.

  function WithItems(items: seq<Value>, more: Option<Read<seq<Value>>>): Option<Read<seq<Value>>>
  {
    if more.None? then None else Some(Read(items + more.value.value, more.value.rest))
  }

  function WithMembers(members: seq<Member>, more: Option<Read<seq<Member>>>): Option<Read<seq<Member>>>
  {
    if more.None? then None else Some(Read(members + more.value.value, more.value.rest))
  }

  lemma TailAt(text: Text, p: nat)
    requires p < |text|
    ensures text[p..][0] == text[p] && text[p..][1..] == text[p + 1..]
  {
  }

  lemma SliceAt(text: Text, p: nat, lo: nat, hi: nat)
    requires p <= |text| && lo <= hi <= |text| - p
    ensures text[p..][lo..hi] == text[p + lo..p + hi] && text[p..][hi..] == text[p + hi..]
  {
  }

  // ---- One round of each loop, against the grammar

  lemma {:induction false} ItemsBegin(r: Option<Read<seq<Value>>>)
    ensures WithItems([], r) == r
  {
    if r.Some? { assert [] + r.value.value == r.value.value; }
  }

  lemma {:induction false} ItemsFail(t: Text, output: seq<Value>, u: Text)
    requires ReadItems(t) == WithItems(output, ReadItems(u)) && ReadValue(u).None?
    ensures ReadItems(t) == None
  {
  }

  lemma {:induction false} ItemsRound(t: Text, output: seq<Value>, u: Text, item: Read<Value>, w: Text)
    requires ReadItems(t) == WithItems(output, ReadItems(u)) && ReadValue(u) == Some(item)
    requires w == SkipSpace(item.rest)
    ensures Begins(w, CLOSE_BRACKET) ==> ReadItems(t) == Some(Read(output + [item.value], w[1..]))
    ensures !Begins(w, CLOSE_BRACKET) && !Begins(w, COMMA) ==> ReadItems(t) == None
    ensures !Begins(w, CLOSE_BRACKET) && Begins(w, COMMA) ==>
              ReadItems(t) == WithItems(output + [item.value], ReadItems(SkipSpace(w[1..])))
  {
    if !Begins(w, CLOSE_BRACKET) && Begins(w, COMMA) {
      var more := ReadItems(SkipSpace(w[1..]));
      if more.Some? {
        assert output + ([item.value] + more.value.value) == output + [item.value] + more.value.value;
      }
    }
  }

  lemma {:induction false} MembersBegin(r: Option<Read<seq<Member>>>)
    ensures WithMembers([], r) == r
  {
    if r.Some? { assert [] + r.value.value == r.value.value; }
  }

  lemma {:induction false} MembersFail(t: Text, output: seq<Member>, u: Text, seen: set<Text>)
    requires ReadMembers(t, {}) == WithMembers(output, ReadMembers(u, seen)) && ReadMember(u, seen).None?
    ensures ReadMembers(t, {}) == None
  {
  }

  lemma {:induction false} MembersRound(
    t: Text, output: seq<Member>, u: Text, seen: set<Text>, member: Read<Member>, w: Text)
    requires ReadMembers(t, {}) == WithMembers(output, ReadMembers(u, seen)) && ReadMember(u, seen) == Some(member)
    requires w == SkipSpace(member.rest)
    ensures Begins(w, CLOSE_BRACE) ==> ReadMembers(t, {}) == Some(Read(output + [member.value], w[1..]))
    ensures !Begins(w, CLOSE_BRACE) && !Begins(w, COMMA) ==> ReadMembers(t, {}) == None
    ensures !Begins(w, CLOSE_BRACE) && Begins(w, COMMA) ==>
              ReadMembers(t, {}) ==
              WithMembers(output + [member.value], ReadMembers(SkipSpace(w[1..]), seen + {member.value.key}))
  {
    if !Begins(w, CLOSE_BRACE) && Begins(w, COMMA) {
      var more := ReadMembers(SkipSpace(w[1..]), seen + {member.value.key});
      if more.Some? {
        assert output + ([member.value] + more.value.value) == output + [member.value] + more.value.value;
      }
    }
  }

  lemma {:induction false} NumberIsSuffix(s: Text, read: Read<Value>)
    requires ReadNumber(s) == Some(read)
    ensures |read.rest| <= |s| && s[|s| - |read.rest|..] == read.rest
  {
    var c := NumberSpells(s, read);
  }

  lemma {:induction false} ArrayUnfolds(s: Text, t: Text)
    requires Begins(s, OPEN_BRACKET) && t == SkipSpace(s[1..])
    ensures Begins(t, CLOSE_BRACKET) ==> ReadValue(s) == Some(Read(Arr([]), t[1..]))
    ensures !Begins(t, CLOSE_BRACKET) && ReadItems(t).None? ==> ReadValue(s) == None
    ensures !Begins(t, CLOSE_BRACKET) && ReadItems(t).Some? ==>
              ReadValue(s) == Some(Read(Arr(ReadItems(t).value.value), ReadItems(t).value.rest))
  {
    SkipsTo(s, OPEN_BRACKET);
  }

  lemma {:induction false} ObjectUnfolds(s: Text, t: Text)
    requires Begins(s, OPEN_BRACE) && t == SkipSpace(s[1..])
    ensures Begins(t, CLOSE_BRACE) ==> ReadValue(s) == Some(Read(Obj([]), t[1..]))
    ensures !Begins(t, CLOSE_BRACE) && ReadMembers(t, {}).None? ==> ReadValue(s) == None
    ensures !Begins(t, CLOSE_BRACE) && ReadMembers(t, {}).Some? ==>
              ReadValue(s) == Some(Read(Obj(ReadMembers(t, {}).value.value), ReadMembers(t, {}).value.rest))
  {
    SkipsTo(s, OPEN_BRACE);
  }

  /** The token between two positions of the text. */
  lemma {:induction false} StringAt(text: Text, start: nat, stop: nat, s: Text, read: Option<Read<Text>>)
    requires start + 1 < stop <= |text| && s == text[start..] && Begins(s, QUOTE) && read == ReadString(s)
    requires ScanEnd(s, 1) == Some(stop - start)
    ensures text[start + 1..stop - 1] == s[1..stop - start - 1] && text[stop..] == s[stop - start..]
    ensures read == (var inner := Unescape(s[1..stop - start - 1]);
              if inner.None? || !WellFormed(inner.value) then None else Some(Read(inner.value, s[stop - start..])))
  {
    SliceAt(text, start, 1, stop - start - 1);
    SliceAt(text, start, 0, stop - start);
    StringUnfolds(s, stop - start, s[1..stop - start - 1], s[stop - start..]);
  }

  lemma {:induction false} StringUnfolds(s: Text, end: nat, inner: Text, rest: Text)
    requires Begins(s, QUOTE) && ScanEnd(s, 1) == Some(end) && 1 < end <= |s|
    requires inner == s[1..end - 1] && rest == s[end..]
    ensures ReadString(s) ==
            if Unescape(inner).None? || !WellFormed(Unescape(inner).value) then None
            else Some(Read(Unescape(inner).value, rest))
  {
  }

  class Parser {
    const text: Text
    var position: nat

    constructor (text: Text)
      ensures this.text == text && position == 0
    {
      this.text := text;
      position := 0;
    }

    /** What is left to read. */
    function Left(): Text
      requires position <= |text|
      reads this
    {
      text[position..]
    }

    /** A routine that succeeds has read its value off the front of what was left; one that throws had to. */
    ghost predicate Took<T>(expected: Option<Read<T>>, r: Option<T>)
      reads this
    {
      match expected
      case None => r.None?
      case Some(read) => r == Some(read.value) && position <= |text| && Left() == read.rest
    }

    method Whitespace()
      requires position <= |text|
      modifies this
      ensures old(position) <= position <= |text| && Left() == SkipSpace(old(Left()))
    {
      while position < |text| && IsSpace(text[position])
        invariant old(position) <= position <= |text|
        invariant SkipSpace(Left()) == SkipSpace(old(Left()))
      {
        TailAt(text, position);
        position := position + 1;
      }
      if position < |text| { TailAt(text, position); }
    }

    method Advance(n: nat)
      requires position + n <= |text|
      modifies this
      ensures position == old(position) + n && Left() == old(Left())[n..]
    {
      SliceAt(text, position, 0, n);
      position := position + n;
    }

    /** The scan to the closing quote, and then the token as a whole. */
    method String() returns (r: Option<Text>)
      requires position < |text| && text[position] == QUOTE
      modifies this
      ensures Took(ReadString(old(Left())), r)
      ensures r.Some? ==> old(position) < position
    {
      var start := position;
      ghost var s := Left();
      TailAt(text, start);
      var closed := Scan(start);
      if !closed { return None; }
      StringAt(text, start, position, s, ReadString(s));
      r := Unescape(text[start + 1..position - 1]);
      if r.Some? && !WellFormed(r.value) { r := None; }
    }

    /** Looks for the closing quote, stepping over escaped characters. */
    method Scan(start: nat) returns (closed: bool)
      requires start == position < |text|
      modifies this
      ensures var end := ScanEnd(text[start..], 1);
              closed == end.Some? && (closed ==> position == start + end.value && 1 < end.value && position <= |text|)
    {
      ghost var s := text[start..];
      position := position + 1;
      while position < |text|
        invariant start < position
        invariant ScanEnd(s, 1) == ScanEnd(s, position - start)
        decreases |text| - position
      {
        var character := text[position];
        assert s[position - start] == character;
        position := position + 1;
        if character == BACKSLASH {
          position := position + 1;
        } else if character == QUOTE {
          return true;
        }
      }
      return false;
    }

    method Value() returns (r: Option<Value>)
      requires position <= |text|
      modifies this
      ensures Took(ReadValue(old(Left())), r)
      ensures r.Some? ==> old(position) < position
      decreases |text| - position, 2
    {
      ValueSkips(Left());
      Whitespace();
      if position < |text| {
        TailAt(text, position);
        SkipTwice(Left());
        if text[position] == QUOTE {
          var value := String();
          return if value.None? then None else Some(Str(value.value));
        }
        if text[position] == OPEN_BRACE {
          r := Object();
          return;
        }
        if text[position] == OPEN_BRACKET {
          r := Array();
          return;
        }
      }
      r := Scalar();
    }

    /** A literal or a number. */
    method Scalar() returns (r: Option<Value>)
      requires position <= |text| && SkipSpace(Left()) == Left()
      requires !Begins(Left(), QUOTE) && !Begins(Left(), OPEN_BRACE) && !Begins(Left(), OPEN_BRACKET)
      modifies this
      ensures Took(ReadValue(old(Left())), r)
      ensures r.Some? ==> old(position) < position
    {
      var s := Left();
      if NULL_TEXT <= s { Advance(4); return Some(Null); }
      if TRUE_TEXT <= s { Advance(4); return Some(Bool(true)); }
      if FALSE_TEXT <= s { Advance(5); return Some(Bool(false)); }
      var number := ReadNumber(s);
      if number.None? { return None; }
      NumberIsSuffix(s, number.value);
      Advance(|s| - |number.value.rest|);
      return Some(number.value.value);
    }

    method Array() returns (r: Option<Value>)
      requires position < |text| && text[position] == OPEN_BRACKET
      modifies this
      ensures Took(ReadValue(old(Left())), r)
      ensures r.Some? ==> old(position) < position
      decreases |text| - position, 1
    {
      ghost var s := Left();
      TailAt(text, position);
      position := position + 1;
      Whitespace();
      ghost var t := Left();
      ArrayUnfolds(s, t);
      if Begins(Left(), CLOSE_BRACKET) {
        Advance(1);
        return Some(Arr([]));
      }
      var output: seq<Value> := [];
      ItemsBegin(ReadItems(t));
      while true
        invariant old(position) < position <= |text|
        invariant ReadItems(t) == WithItems(output, ReadItems(Left()))
        decreases |text| - position
      {
        ghost var u := Left();
        var member := Value();
        if member.None? {
          ItemsFail(t, output, u);
          return None;
        }
        ghost var item := Read(member.value, Left());
        Whitespace();
        ItemsRound(t, output, u, item, Left());
        output := output + [member.value];
        if Begins(Left(), CLOSE_BRACKET) {
          Advance(1);
          return Some(Arr(output));
        }
        if !Begins(Left(), COMMA) { return None; }
        Advance(1);
        Whitespace();
      }
    }

    /** A key not seen before, a colon and a value. */
    method Pair(keys: set<Text>) returns (r: Option<Member>)
      requires position <= |text|
      modifies this
      ensures Took(ReadMember(old(Left()), keys), r)
      ensures r.Some? ==> old(position) < position
      decreases |text| - position, 3
    {
      if position == |text| || text[position] != QUOTE { return None; }
      TailAt(text, position);
      var key := String();
      if key.None? || key.value in keys { return None; }
      Whitespace();
      if !Begins(Left(), COLON) { return None; }
      Advance(1);
      var member := Value();
      return if member.None? then None else Some(Member(key.value, member.value));
    }

    method Object() returns (r: Option<Value>)
      requires position < |text| && text[position] == OPEN_BRACE
      modifies this
      ensures Took(ReadValue(old(Left())), r)
      ensures r.Some? ==> old(position) < position
      decreases |text| - position, 1
    {
      ghost var s := Left();
      TailAt(text, position);
      position := position + 1;
      Whitespace();
      ghost var t := Left();
      ObjectUnfolds(s, t);
      if Begins(Left(), CLOSE_BRACE) {
        Advance(1);
        return Some(Obj([]));
      }
      var output: seq<Member> := [];
      var keys: set<Text> := {};
      MembersBegin(ReadMembers(t, {}));
      while true
        invariant old(position) < position <= |text|
        invariant ReadMembers(t, {}) == WithMembers(output, ReadMembers(Left(), keys))
        decreases |text| - position
      {
        ghost var u := Left();
        var member := Pair(keys);
        if member.None? {
          MembersFail(t, output, u, keys);
          return None;
        }
        ghost var read := Read(member.value, Left());
        Whitespace();
        MembersRound(t, output, u, keys, read, Left());
        keys := keys + {member.value.key};
        output := output + [member.value];
        if Begins(Left(), CLOSE_BRACE) {
          Advance(1);
          return Some(Obj(output));
        }
        if !Begins(Left(), COMMA) { return None; }
        Advance(1);
        Whitespace();
      }
    }
  }

  /** The parser returns a value exactly on the spellings of that value. */
  method ParseSchemaJson(text: Text) returns (r: Option<Value>)
    ensures r == ReadText(text)
    ensures r.Some? ==> exists d :: ValidDoc(d) && DocText(d) == text && CoreValue(d.core) == r.value
    ensures r.None? ==> forall d :: ValidDoc(d) ==> DocText(d) != text
  {
    var parser := new Parser(text);
    assert text[0..] == text;
    r := parser.Value();
    if r.Some? {
      parser.Whitespace();
      if parser.position != |text| { r := None; }
    }
    if r.Some? {
      AcceptedIffSpelled(text, r.value);
    }
    forall d | ValidDoc(d) ensures DocText(d) == text ==> ReadText(text).Some? {
      SpellingIsRead(d);
    }
  }
}
