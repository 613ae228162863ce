/**
 The canonical bytes are a prefix code: a decoder recovers every encoded value, in its canonical member order,
 from its bytes followed by anything at all.
 */
module CanonicalCode {
  import opened Bytes
  import opened Options
  import opened Unicode
  import opened Canonical
  import opened Sequences

  // ---- The canonical form of a value

  /** Members are compared by their encoded keys; keys that cannot be encoded do not get this far. */
  function KeyBytes(key: Text): Bytes
  {
    var b := Binary(key);
    if b.Some? then b.value else []
  }

  function InsertMember(member: Member, members: seq<Member>): (r: seq<Member>)
    ensures |r| == |members| + 1
  {
    if members == [] || !Less(KeyBytes(members[0].key), KeyBytes(member.key)) then [member] + members
    else [members[0]] + InsertMember(member, members[1..])
  }

  function SortMembers(members: seq<Member>): (r: seq<Member>)
    ensures |r| == |members|
  {
    if members == [] then [] else InsertMember(members[0], SortMembers(members[1..]))
  }

  function CanonNumber(n: Number): Number
  {
    if n.NegativeZero? then Int(0) else n
  }

  /** Minus zero as zero, and the members of every object in the order of their encoded keys. */
  function Canon(v: Value): Value
    decreases v, 1
  {
    match v
    case Num(n) => Num(CanonNumber(n))
    case Arr(items) => Arr(CanonItems(items))
    case Obj(members) => Obj(SortMembers(CanonMembers(members)))
    case _ => v
  }

  function CanonItems(items: seq<Value>): (r: seq<Value>)
    ensures |r| == |items|
    ensures forall i :: 0 <= i < |items| ==> r[i] == Canon(items[i])
    decreases items, 0
  {
    if items == [] then [] else [Canon(items[0])] + CanonItems(items[1..])
  }

  function CanonMembers(members: seq<Member>): (r: seq<Member>)
    ensures |r| == |members|
    ensures forall i :: 0 <= i < |members| ==> r[i] == Member(members[i].key, Canon(members[i].value))
    decreases members, 0
  {
    if members == [] then []
    else [Member(members[0].key, Canon(members[0].value))] + CanonMembers(members[1..])
  }

  // ---- The pieces decode

  lemma {:induction false} TakeBytesInverts(x: Bytes, rest: Bytes)
    ensures TakeBytes(x + rest, |x|) == Some(Parsed(x, rest))
  {
    assert (x + rest)[..|x|] == x && (x + rest)[|x|..] == rest;
  }

  lemma {:induction false} FourDigits(n: nat)
    ensures n == n / 16777216 * 16777216 + n / 65536 % 256 * 65536 + n / 256 % 256 * 256 + n % 256
  {
    var a := n / 256;
    var b := a / 256;
    assert n == a * 256 + n % 256 && a == b * 256 + a % 256;
    assert b == n / 65536 && b / 256 == n / 16777216;
  }

  lemma {:induction false} TakeU32Inverts(n: nat, rest: Bytes)
    requires n < LIMIT32
    ensures TakeU32(U32(n) + rest) == Some(n)
    ensures (U32(n) + rest)[4..] == rest
  {
    FourDigits(n);
  }

  lemma {:induction false} DropTag(tag: Byte, payload: Bytes, rest: Bytes, b: Bytes)
    requires b == [tag] + payload
    ensures (b + rest) != [] && (b + rest)[0] == tag && (b + rest)[1..] == payload + rest
  {
  }

  lemma {:induction false} AtomDecodes(name: Bytes, rest: Bytes)
    requires name in {NIL, TRUE, FALSE}
    ensures Decode(Atom(name) + rest)
         == Some(Parsed(if name == NIL then Null else Bool(name == TRUE), rest))
  {
    DropTag(119, [|name|] + name, rest, Atom(name));
    var b := [|name|] + name + rest;
    assert b[1..] == name + rest;
    TakeBytesInverts(name, rest);
  }

  lemma {:induction false} TextDecodes(text: Text, bytes: Bytes, rest: Bytes)
    requires Encoded(text) == Some(bytes) && |bytes| < LIMIT32
    ensures DecodeText(U32(|bytes|) + bytes + rest) == Some(Parsed(text, rest))
  {
    assert U32(|bytes|) + bytes + rest == U32(|bytes|) + (bytes + rest);
    TakeU32Inverts(|bytes|, bytes + rest);
    TakeBytesInverts(bytes, rest);
    TextInverts(text);
  }

  lemma {:induction false} BinaryDecodes(text: Text, b: Bytes, rest: Bytes)
    requires Binary(text) == Some(b)
    ensures Decode(b + rest) == Some(Parsed(Str(text), rest))
    ensures |b| > 0 && b[0] == 109 && DecodeText(b[1..] + rest) == Some(Parsed(text, rest))
  {
    var bytes := Encoded(text).value;
    var payload := U32(|bytes|) + bytes;
    DropTag(109, payload, rest, b);
    TextDecodes(text, bytes, rest);
    assert b[1..] == payload;
    StringTag(b + rest, payload + rest, text, rest);
  }

  /** A byte string behind its tag. */
  lemma {:induction false} StringTag(b: Bytes, tail: Bytes, text: Text, rest: Bytes)
    requires b != [] && b[0] == 109 && b[1..] == tail && DecodeText(tail) == Some(Parsed(text, rest))
    ensures Decode(b) == Some(Parsed(Str(text), rest))
  {
  }

  /** A list behind its tag and its length. */
  lemma {:induction false} ListTag(b: Bytes, n: nat, items: seq<Value>, rest: Bytes)
    requires |b| > 5 && b[0] == 108 && TakeU32(b[1..]) == Some(n)
    requires DecodeItems(n, b[5..]) == Some(Parsed(items, [106] + rest))
    ensures Decode(b) == Some(Parsed(Arr(items), rest))
  {
    assert ([106] + rest)[1..] == rest;
  }

  lemma {:induction false} DigitsInvert(n: nat)
    ensures FromDigits(Digits(n)) == n
  {
    if n > 0 {
      DigitsInvert(n / 256);
      assert Digits(n)[1..] == Digits(n / 256);
    }
  }

  lemma {:induction false} IntDecodes(i: int, b: Bytes, rest: Bytes)
    requires EncodeInt(i) == Some(b)
    ensures Decode(b + rest) == Some(Parsed(Num(Int(i)), rest))
  {
    if 0 <= i <= 255 {
      assert (b + rest)[2..] == rest;
    } else if -2147483648 <= i <= 2147483647 {
      var n := if i < 0 then i + LIMIT32 else i;
      DropTag(98, U32(n), rest, b);
      TakeU32Inverts(n, rest);
    } else {
      BigDecodes(i, b, rest);
    }
  }

  lemma {:induction false} BigDecodes(i: int, b: Bytes, rest: Bytes)
    requires |Digits(Magnitude(i))| < 256
    requires b == [110] + ([|Digits(Magnitude(i))|] + ([if i < 0 then 1 else 0] + Digits(Magnitude(i))))
    ensures Decode(b + rest) == Some(Parsed(Num(Int(i)), rest))
  {
    var digits := Digits(Magnitude(i));
    var payload := [|digits|] + ([if i < 0 then 1 else 0] + digits);
    DropTag(110, payload, rest, b);
    assert (payload + rest)[2..] == digits + rest;
    TakeBytesInverts(digits, rest);
    DigitsInvert(Magnitude(i));
  }

  lemma {:induction false} ItemsOfBytes(items: seq<Value>)
    requires AllBytes(items)
    ensures ItemsOf(BytesOf(items)) == CanonItems(items)
  {
    if items != [] {
      ItemsOfBytes(items[1..]);
    }
  }

  lemma {:induction false} ByteListDecodes(items: seq<Value>, b: Bytes, rest: Bytes)
    requires ByteList(items)
    requires b == [107] + ([|items| / 256, |items| % 256] + BytesOf(items))
    ensures Decode(b + rest) == Some(Parsed(Arr(CanonItems(items)), rest))
  {
    var bytes := BytesOf(items);
    var payload := [|items| / 256, |items| % 256] + bytes;
    DropTag(107, payload, rest, b);
    assert (payload + rest)[2..] == bytes + rest;
    TakeBytesInverts(bytes, rest);
    ItemsOfBytes(items);
  }

  // ---- Sorting

  /** Sorting the encoded entries is encoding the sorted members. */
  lemma {:induction false} InsertCommutes(member: Member, members: seq<Member>, key: Bytes, value: Bytes)
    requires Binary(member.key) == Some(key) && Encode(member.value) == Some(value)
    requires EncodeMembers(members).Some?
    ensures EncodeMembers(InsertMember(member, members))
         == Some(Insert(Entry(key, value), EncodeMembers(members).value))
  {
    if members == [] || !Less(KeyBytes(members[0].key), KeyBytes(member.key)) {
      assert ([member] + members)[1..] == members;
    } else {
      InsertCommutes(member, members[1..], key, value);
      var r := InsertMember(member, members);
      assert r[0] == members[0] && r[1..] == InsertMember(member, members[1..]);
      assert EncodeMembers(members).value[1..] == EncodeMembers(members[1..]).value;
    }
  }

  lemma {:induction false} SortCommutes(members: seq<Member>)
    requires EncodeMembers(members).Some?
    ensures EncodeMembers(SortMembers(members)) == Some(Sorted(EncodeMembers(members).value))
  {
    if members != [] {
      SortCommutes(members[1..]);
      InsertCommutes(members[0], SortMembers(members[1..]),
                     Binary(members[0].key).value, Encode(members[0].value).value);
      assert EncodeMembers(members).value[1..] == EncodeMembers(members[1..]).value;
    }
  }

  lemma {:induction false} CanonInsert(member: Member, members: seq<Member>)
    ensures CanonMembers(InsertMember(member, members))
         == InsertMember(Member(member.key, Canon(member.value)), CanonMembers(members))
  {
    if members == [] || !Less(KeyBytes(members[0].key), KeyBytes(member.key)) {
      assert ([member] + members)[1..] == members;
    } else {
      CanonInsert(member, members[1..]);
      var r := InsertMember(member, members);
      assert r[1..] == InsertMember(member, members[1..]);
      assert CanonMembers(members)[1..] == CanonMembers(members[1..]);
    }
  }

  lemma {:induction false} CanonSort(members: seq<Member>)
    ensures CanonMembers(SortMembers(members)) == SortMembers(CanonMembers(members))
  {
    if members != [] {
      CanonSort(members[1..]);
      CanonInsert(members[0], SortMembers(members[1..]));
      assert CanonMembers(members)[1..] == CanonMembers(members[1..]);
    }
  }

  // ---- Whole values decode

  /** Decoding the value's bytes, followed by anything, gives its canonical form and what followed. */
  ghost predicate Recovers(v: Value)
  {
    forall b: Bytes, rest: Bytes {:trigger Decode(b + rest)} ::
      Encode(v) == Some(b) ==> Decode(b + rest) == Some(Parsed(Canon(v), rest))
  }

  lemma {:induction false} Recovered(v: Value, b: Bytes, rest: Bytes)
    requires Recovers(v) && Encode(v) == Some(b)
    ensures Decode(b + rest) == Some(Parsed(Canon(v), rest))
  {
  }

  lemma {:induction false} OneMoreItem(
    n: nat, b: Bytes, item: Value, rest: Bytes, items: seq<Value>, rest': Bytes)
    requires n > 0 && Decode(b) == Some(Parsed(item, rest))
    requires DecodeItems(n - 1, rest) == Some(Parsed(items, rest'))
    ensures DecodeItems(n, b) == Some(Parsed([item] + items, rest'))
  {
  }

  lemma {:induction false} ItemsRecover(items: seq<Value>, body: Bytes, rest: Bytes)
    requires EncodeItems(items) == Some(body)
    requires forall i :: 0 <= i < |items| ==> Recovers(items[i])
    ensures DecodeItems(|items|, body + rest) == Some(Parsed(CanonItems(items), rest))
  {
    if items == [] {
      assert body + rest == rest;
    } else {
      var first, tail := Encode(items[0]).value, EncodeItems(items[1..]).value;
      ItemsRecover(items[1..], tail, rest);
      Recovered(items[0], first, tail + rest);
      OneMoreItem(|items|, first + (tail + rest), Canon(items[0]), tail + rest, CanonItems(items[1..]), rest);
      Regroup(first, tail, rest);
    }
  }

  lemma {:induction false} ListDecodes(n: nat, body: Bytes, list: Bytes, rest: Bytes)
    requires 0 < n < LIMIT32 && list == [108] + (U32(n) + (body + [106]))
    ensures |list + rest| > 5 && (list + rest)[0] == 108 && TakeU32((list + rest)[1..]) == Some(n)
    ensures (list + rest)[5..] == body + ([106] + rest)
  {
    DropTag(108, U32(n) + (body + [106]), rest, list);
    assert U32(n) + (body + [106]) + rest == U32(n) + (body + ([106] + rest));
    TakeU32Inverts(n, body + ([106] + rest));
  }

  lemma {:induction false} ArrayRecovers(items: seq<Value>, b: Bytes, rest: Bytes)
    requires Encode(Arr(items)) == Some(b) && !ByteList(items)
    requires forall i :: 0 <= i < |items| ==> Recovers(items[i])
    ensures Decode(b + rest) == Some(Parsed(Arr(CanonItems(items)), rest))
  {
    if items == [] {
      assert (b + rest)[1..] == rest;
    } else {
      var body := EncodeItems(items).value;
      ListDecodes(|items|, body, b, rest);
      ItemsRecover(items, body, [106] + rest);
      ListTag(b + rest, |items|, CanonItems(items), rest);
    }
  }

  lemma {:induction false} OneMoreMember(
    n: nat, b: Bytes, key: Text, rest: Bytes, value: Value, rest': Bytes, members: seq<Member>, rest'': Bytes)
    requires n > 0 && |b| >= 3 && b[..3] == [104, 2, 109]
    requires DecodeText(b[3..]) == Some(Parsed(key, rest)) && |rest| < |b|
    requires Decode(rest) == Some(Parsed(value, rest'))
    requires DecodeMembers(n - 1, rest') == Some(Parsed(members, rest''))
    ensures DecodeMembers(n, b) == Some(Parsed([Member(key, value)] + members, rest''))
  {
  }

  lemma {:induction false} TupleHead(key: Bytes, tail: Bytes, b: Bytes)
    requires |key| > 0 && key[0] == 109 && b == [104, 2] + (key + tail)
    ensures |b| >= 3 && b[..3] == [104, 2, 109] && b[3..] == key[1..] + tail
  {
  }

  lemma {:induction false} TuplesHead(entries: seq<Entry>, rest: Bytes)
    requires entries != []
    ensures Tuples(entries) + rest
         == [104, 2] + (entries[0].key + (entries[0].value + (Tuples(entries[1..]) + rest)))
  {
  }

  lemma {:induction false} MembersRecover(members: seq<Member>, entries: seq<Entry>, rest: Bytes)
    requires EncodeMembers(members) == Some(entries)
    requires forall i :: 0 <= i < |members| ==> Recovers(members[i].value)
    ensures DecodeMembers(|members|, Tuples(entries) + rest) == Some(Parsed(CanonMembers(members), rest))
  {
    if members == [] {
      assert Tuples(entries) + rest == rest;
    } else {
      var key, value, b := entries[0].key, entries[0].value, Tuples(entries) + rest;
      var tail := Tuples(entries[1..]) + rest;
      assert entries[1..] == EncodeMembers(members[1..]).value;
      MembersRecover(members[1..], entries[1..], rest);
      TuplesHead(entries, rest);
      BinaryDecodes(members[0].key, key, value + tail);
      TupleHead(key, value + tail, b);
      Recovered(members[0].value, value, tail);
      OneMoreMember(|members|, b, members[0].key, value + tail, Canon(members[0].value), tail,
                    CanonMembers(members[1..]), rest);
    }
  }

  lemma {:induction false} SortKeepsMembers(members: seq<Member>)
    ensures forall m :: m in SortMembers(members) <==> m in members
  {
    if members != [] {
      SortKeepsMembers(members[1..]);
      InsertKeepsMembers(members[0], SortMembers(members[1..]));
      assert forall m :: m in members <==> m == members[0] || m in members[1..];
    }
  }

  lemma {:induction false} InsertKeepsMembers(member: Member, members: seq<Member>)
    ensures forall m :: m in InsertMember(member, members) <==> m == member || m in members
  {
    if members == [] || !Less(KeyBytes(members[0].key), KeyBytes(member.key)) {
    } else {
      InsertKeepsMembers(member, members[1..]);
      assert forall m :: m in members <==> m == members[0] || m in members[1..];
    }
  }

  lemma {:induction false} ObjectRecovers(members: seq<Member>, b: Bytes, rest: Bytes)
    requires Encode(Obj(members)) == Some(b)
    requires forall i :: 0 <= i < |members| ==> Recovers(members[i].value)
    ensures Decode(b + rest) == Some(Parsed(Obj(SortMembers(CanonMembers(members))), rest))
  {
    var entries := EncodeMembers(members).value;
    var list := ListOf(|members|, Tuples(Sorted(entries))).value;
    ObjectHead(list, rest, b);
    if members == [] {
      assert (list + rest)[1..] == rest;
    } else {
      ObjectBody(members, entries, list, rest);
    }
  }

  lemma {:induction false} ObjectBody(members: seq<Member>, entries: seq<Entry>, list: Bytes, rest: Bytes)
    requires EncodeMembers(members) == Some(entries) && 0 < |members| < LIMIT32
    requires list == [108] + (U32(|members|) + (Tuples(Sorted(entries)) + [106]))
    requires forall i :: 0 <= i < |members| ==> Recovers(members[i].value)
    ensures DecodeObject(list + rest) == Some(Parsed(Obj(SortMembers(CanonMembers(members))), rest))
  {
    var sorted := SortMembers(members);
    SortCommutes(members);
    CanonSort(members);
    SortKeepsMembers(members);
    forall i | 0 <= i < |sorted| ensures Recovers(sorted[i].value) {
      assert sorted[i] in sorted;
    }
    ListDecodes(|members|, Tuples(Sorted(entries)), list, rest);
    MembersRecover(sorted, Sorted(entries), [106] + rest);
    ObjectList(list + rest, |members|, CanonMembers(sorted), rest);
  }

  lemma {:induction false} ObjectList(b: Bytes, n: nat, members: seq<Member>, rest: Bytes)
    requires |b| > 5 && b[0] == 108 && TakeU32(b[1..]) == Some(n)
    requires DecodeMembers(n, b[5..]) == Some(Parsed(members, [106] + rest))
    ensures DecodeObject(b) == Some(Parsed(Obj(members), rest))
  {
    assert ([106] + rest)[1..] == rest;
  }

  lemma {:induction false} ObjectHead(list: Bytes, rest: Bytes, b: Bytes)
    requires b == [104] + ([2] + (Atom(LOOPEX_MAP) + list))
    ensures Decode(b + rest) == DecodeObject(list + rest)
  {
    var head := [2] + Atom(LOOPEX_MAP);
    assert b + rest == [104] + (head + (list + rest));
    assert (b + rest)[1..14] == head && (b + rest)[14..] == list + rest;
  }

  /** Every value is recovered from its bytes followed by any suffix. */
  lemma {:induction false} RoundTrip(v: Value)
    ensures Recovers(v)
    decreases v
  {
    match v {
      case Arr(items) =>
        forall i | 0 <= i < |items| ensures Recovers(items[i]) { RoundTrip(items[i]); }
      case Obj(members) =>
        forall i | 0 <= i < |members| ensures Recovers(members[i].value) { RoundTrip(members[i].value); }
      case _ =>
    }
    forall b: Bytes, rest: Bytes | Encode(v) == Some(b)
      ensures Decode(b + rest) == Some(Parsed(Canon(v), rest))
    {
      match v {
        case Null => AtomDecodes(NIL, rest);
        case Bool(t) => AtomDecodes(if t then TRUE else FALSE, rest);
        case Str(text) => BinaryDecodes(text, b, rest);
        case Num(n) => IntDecodes(if n.Int? then n.i else 0, b, rest);
        case Arr(items) =>
          if ByteList(items) { ByteListDecodes(items, b, rest); } else { ArrayRecovers(items, b, rest); }
        case Obj(members) => ObjectRecovers(members, b, rest);
      }
    }
  }
}
