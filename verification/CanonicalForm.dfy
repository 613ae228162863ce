/** The canonical bytes themselves, form by form, in terms of numbers and texts and of the bytes of the parts. */
module CanonicalForm {
  import opened Bytes
  import opened Options
  import opened Unicode
  import opened Sequences
  import opened Characters
  import opened Canonical
  import opened CanonicalCode
  import opened CanonicalIdentity

  /** The bytes of a value without the version byte. */
  function Term(v: Value): Option<Bytes>
  {
    var b := CanonicalBytes(v);
    if b.None? then None else Some(b.value[1..])
  }

  lemma {:induction false} VersionThenTerm(v: Value)
    ensures Term(v) == Encode(v)
    ensures CanonicalBytes(v).Some? ==> CanonicalBytes(v) == Some([131] + Term(v).value)
  {
    if Encode(v).Some? {
      assert ([131] + Encode(v).value)[1..] == Encode(v).value;
    }
  }

  // ---- Numbers in four bytes

  function BigEndian(b: seq<int>): int
    requires |b| == 4
  {
    ((b[0] * 256 + b[1]) * 256 + b[2]) * 256 + b[3]
  }

  lemma {:induction false} U32IsBigEndian(n: nat)
    requires n < LIMIT32
    ensures BigEndian(U32(n)) == n
  {
    assert n / 65536 == n / 16777216 * 256 + n / 65536 % 256;
    assert n / 256 == n / 65536 * 256 + n / 256 % 256;
  }

  // ---- Atoms and texts

  /** `null`, `true` and `false` are small atoms of those names, `nil` for the first. */
  lemma {:induction false} AtomForm()
    ensures Term(Null) == Some([119, 3] + Ascii("nil"))
    ensures Term(Bool(true)) == Some([119, 4] + Ascii("true"))
    ensures Term(Bool(false)) == Some([119, 5] + Ascii("false"))
  {
    VersionThenTerm(Null);
    VersionThenTerm(Bool(true));
    VersionThenTerm(Bool(false));
    AsciiIs("nil", NIL);
    AsciiIs("true", TRUE);
    AsciiIs("false", FALSE);
    AtomBytes(NIL, 3);
    AtomBytes(TRUE, 4);
    AtomBytes(FALSE, 5);
  }

  lemma {:induction false} AtomBytes(name: Bytes, n: Byte)
    requires |name| == n
    ensures Atom(name) == [119, n] + name
  {
  }

  /** A text is its UTF-8 bytes behind their number. */
  lemma {:induction false} TextForm(text: Text, t: Bytes)
    requires Term(Str(text)) == Some(t)
    ensures |t| >= 5 && t[0] == 109 && BigEndian(t[1..5]) == |t| - 5
    ensures Utf8Decode(t[5..]) == Scalars(text)
  {
    VersionThenTerm(Str(text));
    BinaryForm(text, t);
  }

  lemma {:induction false} BinaryForm(text: Text, t: Bytes)
    requires Binary(text) == Some(t)
    ensures |t| >= 5 && t[0] == 109 && BigEndian(t[1..5]) == |t| - 5
    ensures Utf8Decode(t[5..]) == Scalars(text)
  {
    var bytes := Encoded(text).value;
    assert t[1..5] == U32(|bytes|) && t[5..] == bytes;
    U32IsBigEndian(|bytes|);
    Utf8Inverts(Scalars(text).value);
  }

  // ---- Integers

  /** The value of base-256 digits, the least significant first. */
  function LittleEndian(b: seq<int>): int
  {
    if b == [] then 0 else b[0] + 256 * LittleEndian(b[1..])
  }

  lemma {:induction false} DigitsAreLittleEndian(n: nat)
    ensures LittleEndian(Digits(n)) == n
    ensures n > 0 ==> Digits(n) != [] && Digits(n)[|Digits(n)| - 1] != 0
  {
    if n > 0 {
      DigitsAreLittleEndian(n / 256);
      assert Digits(n)[1..] == Digits(n / 256);
    }
  }

  /**
   An integer takes one byte from 0 to 255, four in two's complement within 32 bits, and beyond that as many as its
   magnitude needs, with a sign byte.
   */
  lemma {:induction false} IntegerForm(i: int, t: Bytes)
    requires Term(Num(Int(i))) == Some(t)
    ensures 0 <= i <= 255 ==> t == [97, i]
    ensures -2147483648 <= i <= 2147483647 && !(0 <= i <= 255) ==>
      |t| == 5 && t[0] == 98 && BigEndian(t[1..]) == (if i < 0 then i + 4294967296 else i)
    ensures i < -2147483648 || i > 2147483647 ==>
      && |t| > 3 && t[0] == 110 && t[1] == |t| - 3 && t[2] == (if i < 0 then 1 else 0)
      && LittleEndian(t[3..]) == (if i < 0 then -i else i) && t[|t| - 1] != 0
  {
    VersionThenTerm(Num(Int(i)));
    if 0 <= i <= 255 {
    } else if -2147483648 <= i <= 2147483647 {
      var n := if i < 0 then i + LIMIT32 else i;
      assert t[1..] == U32(n);
      U32IsBigEndian(n);
    } else {
      var n := if i < 0 then -i else i;
      DigitsAreLittleEndian(n);
      assert t[3..] == Digits(n);
    }
  }

  /** Minus zero is zero, and a number that is no integer or beyond 2^53 - 1 has no bytes. */
  lemma {:induction false} OtherNumbers(i: int)
    ensures Term(Num(NegativeZero)) == Some([97, 0])
    ensures Term(Num(NonInteger)) == None
    ensures Term(Num(Int(i))).Some? <==> -9007199254740991 <= i <= 9007199254740991
  {
    VersionThenTerm(Num(NegativeZero));
    assert [97] + [0] == [97, 0];
    VersionThenTerm(Num(NonInteger));
    VersionThenTerm(Num(Int(i)));
    EncodeAccepts(Num(Int(i)));
  }

  // ---- Arrays

  /** An integer from 0 to 255. */
  predicate IsSmall(v: Value)
  {
    v.Num? && (v.n == NegativeZero || exists i | 0 <= i <= 255 :: v.n == Int(i))
  }

  predicate AllSmall(items: seq<Value>)
  {
    forall k :: 0 <= k < |items| ==> IsSmall(items[k])
  }

  /** Up to 65535 small integers are a string of bytes: each is the last byte of its own form. */
  lemma {:induction false} ByteListForm(items: seq<Value>, t: Bytes)
    requires Term(Arr(items)) == Some(t) && 0 < |items| <= 65535 && AllSmall(items)
    ensures |t| == |items| + 3 && t[0] == 107 && BigEndian([0, 0, t[1], t[2]]) == |items|
    ensures forall k :: 0 <= k < |items| ==> Term(items[k]) == Some([97, t[k + 3]])
  {
    VersionThenTerm(Arr(items));
    assert ByteList(items);
    assert t[3..] == BytesOf(items);
    forall k | 0 <= k < |items| ensures Term(items[k]) == Some([97, t[k + 3]]) {
      VersionThenTerm(items[k]);
      ByteAt(items, k);
      assert t[3..][k] == t[k + 3];
      OneByteForm(items[k], t[k + 3]);
    }
  }

  lemma {:induction false} OneByteForm(v: Value, b: Byte)
    requires IsByte(v) && ByteOf(v) == b
    ensures Encode(v) == Some([97, b])
  {
    assert [97] + [b] == [97, b];
  }

  lemma {:induction false} ByteAt(items: seq<Value>, k: nat)
    requires AllBytes(items) && k < |items|
    ensures IsByte(items[k]) && BytesOf(items)[k] == ByteOf(items[k])
  {
    if k > 0 {
      ByteAt(items[1..], k - 1);
    }
  }

  /** Any other array is a list: nothing in it has one form only, and otherwise the terms stand behind their number. */
  lemma {:induction false} ListForm(items: seq<Value>, t: Bytes) returns (parts: seq<Bytes>)
    requires Term(Arr(items)) == Some(t) && !(0 < |items| <= 65535 && AllSmall(items))
    ensures |parts| == |items| && forall k :: 0 <= k < |items| ==> Term(items[k]) == Some(parts[k])
    ensures IsList(t, |items|, parts)
  {
    VersionThenTerm(Arr(items));
    NotByteList(items);
    parts := ItemParts(items);
    ListOfForm(|items|, parts, t);
  }

  lemma {:induction false} NotByteList(items: seq<Value>)
    ensures ByteList(items) <==> 0 < |items| <= 65535 && AllSmall(items)
  {
    if AllBytes(items) {
      forall k | 0 <= k < |items| ensures IsSmall(items[k]) {
        assert IsByte(items[k]);
      }
    }
  }

  /** The terms of a list behind their number, with a last byte after them; an empty list is that byte alone. */
  ghost predicate IsList(t: Bytes, n: nat, parts: seq<Bytes>)
  {
    if n == 0 then t == [106]
    else |t| >= 6 && t[0] == 108 && BigEndian(t[1..5]) == n && t[5..] == Flatten(parts) + [106]
  }

  lemma {:induction false} ListOfForm(n: nat, parts: seq<Bytes>, t: Bytes)
    requires ListOf(n, Flatten(parts)) == Some(t)
    ensures IsList(t, n, parts)
  {
    if n > 0 {
      assert t[1..5] == U32(n);
      U32IsBigEndian(n);
    }
  }

  lemma {:induction false} ItemParts(items: seq<Value>) returns (parts: seq<Bytes>)
    requires EncodeItems(items).Some?
    ensures |parts| == |items| && forall k :: 0 <= k < |items| ==> Term(items[k]) == Some(parts[k])
    ensures EncodeItems(items) == Some(Flatten(parts))
  {
    if items == [] {
      parts := [];
    } else {
      var rest := ItemParts(items[1..]);
      VersionThenTerm(items[0]);
      parts := [Encode(items[0]).value] + rest;
      assert parts[1..] == rest;
    }
  }

  // ---- Objects

  /** The order of byte strings: the earlier is a proper prefix, or has the smaller byte where they first differ. */
  ghost predicate Precedes(a: Bytes, b: Bytes)
  {
    exists n :: DiffersAt(a, b, n)
  }

  predicate DiffersAt(a: Bytes, b: Bytes, n: nat)
  {
    && n <= |a| && n < |b| && a[..n] == b[..n]
    && (n == |a| || a[n] < b[n])
  }

  lemma {:induction false} LessPrecedes(a: Bytes, b: Bytes) returns (n: nat)
    requires Less(a, b)
    ensures DiffersAt(a, b, n)
  {
    if a == [] || a[0] < b[0] {
      n := 0;
    } else {
      var m := LessPrecedes(a[1..], b[1..]);
      n := m + 1;
      assert a[..n] == [a[0]] + a[1..][..m] && b[..n] == [b[0]] + b[1..][..m];
    }
  }

  /** The pair of a member in the list. */
  function PairTerm(m: Member): Option<Bytes>
  {
    if Term(Str(m.key)).None? || Term(m.value).None? then None
    else Some([104, 2] + (Term(Str(m.key)).value + Term(m.value).value))
  }

  const MAP_HEAD: Bytes := [104, 2, 119, 10]

  /**
   An object is the pair of the atom `loopex_map` and the list of its members as pairs, in the order of the bytes of
   their keys.
   */
  lemma {:induction false} ObjectForm(members: seq<Member>, t: Bytes) returns (order: seq<Member>, parts: seq<Bytes>)
    requires Term(Obj(members)) == Some(t) && DistinctKeys(members)
    ensures |t| >= 15 && t[..14] == MAP_HEAD + Ascii("loopex_map")
    ensures |order| == |members| && forall m :: m in order <==> m in members
    ensures forall k, l :: 0 <= k < l < |order| ==> KeysPrecede(order[k], order[l])
    ensures |parts| == |order| && forall k :: 0 <= k < |order| ==> PairTerm(order[k]) == Some(parts[k])
    ensures IsList(t[14..], |members|, parts)
  {
    VersionThenTerm(Obj(members));
    var entries := EncodeMembers(members).value;
    var list := ListOf(|members|, Tuples(Sorted(entries))).value;
    order := SortMembers(members);
    parts := OrderedParts(members, order);
    KeysAreInOrder(members, order);
    SortKeepsMembers(members);
    HeadForm(list, t);
    ListOfForm(|members|, parts, list);
  }

  lemma {:induction false} OrderedParts(members: seq<Member>, order: seq<Member>) returns (parts: seq<Bytes>)
    requires EncodeMembers(members).Some? && order == SortMembers(members)
    ensures |parts| == |order| && forall k :: 0 <= k < |order| ==> PairTerm(order[k]) == Some(parts[k])
    ensures Tuples(Sorted(EncodeMembers(members).value)) == Flatten(parts)
  {
    SortCommutes(members);
    parts := MemberParts(order);
  }

  ghost predicate KeysPrecede(a: Member, b: Member)
  {
    Term(Str(a.key)).Some? && Term(Str(b.key)).Some? && Precedes(Term(Str(a.key)).value, Term(Str(b.key)).value)
  }

  lemma {:induction false} HeadForm(list: Bytes, t: Bytes)
    requires t == [104] + ([2] + (Atom(LOOPEX_MAP) + list)) && list != []
    ensures |t| == |list| + 14 && t[..14] == MAP_HEAD + Ascii("loopex_map") && t[14..] == list
  {
    AsciiIs("loopex_map", LOOPEX_MAP);
    AtomBytes(LOOPEX_MAP, 10);
    HeadJoins(LOOPEX_MAP, Atom(LOOPEX_MAP), list, t);
    FrontAndList(MAP_HEAD + LOOPEX_MAP, list, t, 14);
  }

  lemma {:induction false} HeadJoins(name: Bytes, atom: Bytes, list: Bytes, t: Bytes)
    requires atom == [119, 10] + name && t == [104] + ([2] + (atom + list))
    ensures t == (MAP_HEAD + name) + list
  {
    var rest := name + list;
    Regroup([119, 10], name, list);
    Regroup([104], [2], [119, 10] + rest);
    Regroup([104, 2], [119, 10], rest);
    Regroup(MAP_HEAD, name, list);
    assert [104] + [2] == [104, 2] && [104, 2] + [119, 10] == MAP_HEAD;
  }

  lemma {:induction false} FrontAndList(front: Bytes, list: Bytes, t: Bytes, n: nat)
    requires t == front + list && |front| == n
    ensures |t| == |list| + n && t[..n] == front && t[n..] == list
  {
  }

  lemma {:induction false} MembersFit(members: seq<Member>)
    requires EncodeMembers(members).Some?
    ensures KeysFit(members)
  {
    MembersAccept(members);
  }

  lemma {:induction false} KeysAreInOrder(members: seq<Member>, order: seq<Member>)
    requires EncodeMembers(members).Some? && DistinctKeys(members) && order == SortMembers(members)
    ensures forall k, l :: 0 <= k < l < |order| ==> KeysPrecede(order[k], order[l])
  {
    MembersFit(members);
    SortInOrder(members);
    forall k, l | 0 <= k < l < |order| ensures KeysPrecede(order[k], order[l]) {
      assert Before(order[k], order[l]);
      var n := LessPrecedes(KeyBytes(order[k].key), KeyBytes(order[l].key));
      VersionThenTerm(Str(order[k].key));
      VersionThenTerm(Str(order[l].key));
    }
  }

  lemma {:induction false} MemberParts(members: seq<Member>) returns (parts: seq<Bytes>)
    requires EncodeMembers(members).Some?
    ensures |parts| == |members| && forall k :: 0 <= k < |members| ==> PairTerm(members[k]) == Some(parts[k])
    ensures Tuples(EncodeMembers(members).value) == Flatten(parts)
  {
    if members == [] {
      parts := [];
    } else {
      var rest := MemberParts(members[1..]);
      VersionThenTerm(Str(members[0].key));
      VersionThenTerm(members[0].value);
      var key, value := Binary(members[0].key).value, Encode(members[0].value).value;
      var first: Bytes := [104, 2] + (key + value);
      parts := [first] + rest;
      assert parts[1..] == rest;
      assert EncodeMembers(members).value[1..] == EncodeMembers(members[1..]).value;
      Regroup([104, 2], key + value, Flatten(rest));
      Regroup(key, value, Flatten(rest));
    }
  }
}
