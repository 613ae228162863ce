/** Two values have the same bytes exactly when equal up to the order of object members and the sign of zero. */
module CanonicalIdentity {
  import opened Bytes
  import opened Options
  import opened Unicode
  import opened Canonical
  import opened CanonicalCode

  // ---- Which values are accepted

  predicate TextFits(text: Text)
  {
    Encoded(text).Some? && |Encoded(text).value| < LIMIT32
  }

  /** Well-formed strings, safe integers, and no collection too long for its length field. */
  predicate Encodable(v: Value)
  {
    match v
    case Null => true
    case Bool(_) => true
    case Str(text) => TextFits(text)
    case Num(n) => n.NegativeZero? || (n.Int? && -MAX_SAFE <= n.i <= MAX_SAFE)
    case Arr(items) => |items| < LIMIT32 && forall i | 0 <= i < |items| :: Encodable(items[i])
    case Obj(members) =>
      |members| < LIMIT32 && forall i | 0 <= i < |members| :: TextFits(members[i].key) && Encodable(members[i].value)
  }

  lemma {:induction false} DigitsFit(n: nat, k: nat, bound: nat)
    requires n < bound && bound == Power256(k)
    ensures |Digits(n)| <= k
    decreases k
  {
    if n > 0 {
      assert k > 0;
      assert n / 256 < Power256(k - 1);
      DigitsFit(n / 256, k - 1, Power256(k - 1));
    }
  }

  function Power256(k: nat): nat
  {
    if k == 0 then 1 else 256 * Power256(k - 1)
  }

  lemma {:induction false} SafeDigits(n: nat)
    requires n <= MAX_SAFE
    ensures |Digits(n)| <= 7
  {
    assert Power256(7) == 256 * (256 * (256 * (256 * (256 * (256 * 256)))));
    DigitsFit(n, 7, Power256(7));
  }

  /** Encoding succeeds on exactly these values. */
  lemma {:induction false} EncodeAccepts(v: Value)
    ensures Encode(v).Some? <==> Encodable(v)
    decreases v, 1
  {
    match v {
      case Num(n) => if n.Int? && -MAX_SAFE <= n.i <= MAX_SAFE { SafeDigits(Magnitude(n.i)); }
      case Arr(items) =>
        ItemsAccept(items);
        if ByteList(items) {
          forall i | 0 <= i < |items| ensures Encodable(items[i]) { assert IsByte(items[i]); }
        }
      case Obj(members) => MembersAccept(members);
      case _ =>
    }
  }

  lemma {:induction false} ItemsAccept(items: seq<Value>)
    ensures EncodeItems(items).Some? <==> forall i :: 0 <= i < |items| ==> Encodable(items[i])
    decreases items, 0
  {
    if items != [] {
      EncodeAccepts(items[0]);
      ItemsAccept(items[1..]);
      assert forall i :: 0 <= i < |items| ==> items[i] == if i == 0 then items[0] else items[1..][i - 1];
      assert forall i :: 0 <= i < |items[1..]| ==> items[1..][i] == items[i + 1];
    }
  }

  lemma {:induction false} MembersAccept(members: seq<Member>)
    ensures EncodeMembers(members).Some? <==>
            forall i :: 0 <= i < |members| ==> TextFits(members[i].key) && Encodable(members[i].value)
    decreases members, 0
  {
    if members != [] {
      EncodeAccepts(members[0].value);
      MembersAccept(members[1..]);
      assert forall i :: 0 <= i < |members| ==> members[i] == if i == 0 then members[0] else members[1..][i - 1];
      assert forall i :: 0 <= i < |members[1..]| ==> members[1..][i] == members[i + 1];
    }
  }

  // ---- The order of keys

  lemma {:induction false} LessAsymmetric(a: Bytes, b: Bytes)
    requires Less(a, b)
    ensures !Less(b, a)
  {
    if a != [] && a[0] == b[0] { LessAsymmetric(a[1..], b[1..]); }
  }

  lemma {:induction false} LessTransitive(a: Bytes, b: Bytes, c: Bytes)
    requires Less(a, b) && Less(b, c)
    ensures Less(a, c)
  {
    if a != [] && a[0] == b[0] == c[0] { LessTransitive(a[1..], b[1..], c[1..]); }
  }

  lemma {:induction false} LessTotal(a: Bytes, b: Bytes)
    requires a != b
    ensures Less(a, b) || Less(b, a)
  {
    if a != [] && b != [] && a[0] == b[0] {
      assert a == [a[0]] + a[1..] && b == [b[0]] + b[1..];
      LessTotal(a[1..], b[1..]);
    }
  }

  predicate Before(a: Member, b: Member)
  {
    Less(KeyBytes(a.key), KeyBytes(b.key))
  }

  /** Every member strictly before every later one. */
  ghost predicate InOrder(members: seq<Member>)
  {
    forall i, j :: 0 <= i < j < |members| ==> Before(members[i], members[j])
  }

  ghost predicate DistinctKeys(members: seq<Member>)
  {
    forall i, j :: 0 <= i < j < |members| ==> members[i].key != members[j].key
  }

  ghost predicate KeysFit(members: seq<Member>)
  {
    forall i :: 0 <= i < |members| ==> TextFits(members[i].key)
  }

  /** Different keys have different encodings. */
  lemma {:induction false} KeysAreOrdered(a: Member, b: Member)
    requires TextFits(a.key) && TextFits(b.key) && a.key != b.key
    ensures Before(a, b) || Before(b, a)
  {
    if KeyBytes(a.key) == KeyBytes(b.key) {
      BinaryDecodes(a.key, KeyBytes(a.key), []);
      BinaryDecodes(b.key, KeyBytes(b.key), []);
    } else {
      LessTotal(KeyBytes(a.key), KeyBytes(b.key));
    }
  }

  lemma {:induction false} InsertInOrder(member: Member, members: seq<Member>)
    requires InOrder(members) && KeysFit(members) && TextFits(member.key)
    requires forall i :: 0 <= i < |members| ==> members[i].key != member.key
    ensures InOrder(InsertMember(member, members)) && KeysFit(InsertMember(member, members))
  {
    if members == [] {
    } else if !Before(members[0], member) {
      KeysAreOrdered(members[0], member);
      PutFirst(member, members);
    } else {
      var tail := InsertMember(member, members[1..]);
      InsertInOrder(member, members[1..]);
      InsertKeepsMembers(member, members[1..]);
      forall j | 0 <= j < |tail| ensures Before(members[0], tail[j]) {
        assert tail[j] in tail;
      }
      ComesFirst(members[0], tail);
    }
  }

  lemma {:induction false} PutFirst(member: Member, members: seq<Member>)
    requires InOrder(members) && KeysFit(members) && TextFits(member.key)
    requires members != [] && Before(member, members[0])
    ensures InOrder([member] + members) && KeysFit([member] + members)
  {
    forall j | 0 <= j < |members| ensures Before(member, members[j]) {
      if j > 0 { LessTransitive(KeyBytes(member.key), KeyBytes(members[0].key), KeyBytes(members[j].key)); }
    }
    ComesFirst(member, members);
  }

  lemma {:induction false} ComesFirst(member: Member, members: seq<Member>)
    requires InOrder(members) && KeysFit(members) && TextFits(member.key)
    requires forall j :: 0 <= j < |members| ==> Before(member, members[j])
    ensures InOrder([member] + members) && KeysFit([member] + members)
  {
  }

  lemma {:induction false} SortInOrder(members: seq<Member>)
    requires DistinctKeys(members) && KeysFit(members)
    ensures InOrder(SortMembers(members)) && KeysFit(SortMembers(members))
  {
    if members != [] {
      SortInOrder(members[1..]);
      var rest := SortMembers(members[1..]);
      SortKeepsMembers(members[1..]);
      forall i | 0 <= i < |rest| ensures rest[i].key != members[0].key {
        assert rest[i] in members[1..];
      }
      InsertInOrder(members[0], rest);
    }
  }

  /** There is one ordered arrangement of a set of members. */
  lemma {:induction false} OrderIsUnique(a: seq<Member>, b: seq<Member>)
    requires InOrder(a) && InOrder(b)
    requires forall m :: m in a <==> m in b
    ensures a == b
  {
    assert b != [] ==> b[0] in b;
    if a != [] {
      assert a[0] in b && b[0] in a;
      HeadsAgree(a, b);
      forall m ensures m in a[1..] <==> m in b[1..] {
        TailMembers(a, m);
        TailMembers(b, m);
      }
      OrderIsUnique(a[1..], b[1..]);
    }
  }

  lemma {:induction false} HeadsAgree(a: seq<Member>, b: seq<Member>)
    requires InOrder(a) && InOrder(b) && |a| > 0 && |b| > 0 && a[0] in b && b[0] in a
    ensures a[0] == b[0]
  {
    if a[0] != b[0] {
      assert Before(b[0], a[0]) && Before(a[0], b[0]);
      LessAsymmetric(KeyBytes(a[0].key), KeyBytes(b[0].key));
    }
  }

  lemma {:induction false} TailMembers(members: seq<Member>, m: Member)
    requires InOrder(members) && |members| > 0
    ensures m in members[1..] <==> m in members && m != members[0]
  {
    if m in members[1..] {
      assert Before(members[0], m);
      LessAsymmetric(KeyBytes(members[0].key), KeyBytes(m.key));
    }
  }

  // ---- Equality up to member order

  /** Keys are distinct in every object, as they are in a JavaScript object. */
  ghost predicate Proper(v: Value)
  {
    match v
    case Arr(items) => forall i | 0 <= i < |items| :: Proper(items[i])
    case Obj(members) => DistinctKeys(members) && forall i | 0 <= i < |members| :: Proper(members[i].value)
    case _ => true
  }

  /** Equality up to the order of members and the sign of zero. */
  ghost predicate Same(a: Value, b: Value)
    decreases a
  {
    match a
    case Num(n) => b.Num? && CanonNumber(n) == CanonNumber(b.n)
    case Arr(items) =>
      b.Arr? && |items| == |b.items| && forall i | 0 <= i < |items| :: Same(items[i], b.items[i])
    case Obj(members) =>
      && b.Obj?
      && (forall i | 0 <= i < |members| :: SomeLike(members[i], b.members))
      && (forall j | 0 <= j < |b.members| :: SomeIsLike(members, b.members[j]))
    case _ => a == b
  }

  ghost predicate SomeLike(member: Member, members: seq<Member>)
    decreases member
  {
    exists j :: 0 <= j < |members| && member.key == members[j].key && Same(member.value, members[j].value)
  }

  ghost predicate SomeIsLike(members: seq<Member>, member: Member)
    decreases members
  {
    exists i :: 0 <= i < |members| && members[i].key == member.key && Same(members[i].value, member.value)
  }

  /** The canonical form identifies exactly the values that are the same up to member order. */
  lemma {:induction false} CanonIdentifies(a: Value, b: Value)
    requires Proper(a) && Proper(b) && Encodable(a) && Encodable(b)
    ensures Same(a, b) <==> Canon(a) == Canon(b)
    decreases a
  {
    match a {
      case Arr(items) =>
        if b.Arr? && |items| == |b.items| {
          forall i | 0 <= i < |items| ensures Same(items[i], b.items[i]) <==> Canon(items[i]) == Canon(b.items[i]) {
            CanonIdentifies(items[i], b.items[i]);
          }
        }
      case Obj(members) =>
        if b.Obj? {
          forall i, j | 0 <= i < |members| && 0 <= j < |b.members|
            ensures Same(members[i].value, b.members[j].value)
               <==> Canon(members[i].value) == Canon(b.members[j].value)
          {
            CanonIdentifies(members[i].value, b.members[j].value);
          }
          ObjectsIdentified(members, b.members);
        }
      case _ =>
    }
  }

  lemma {:induction false} SameIsInclusion(a: seq<Member>, b: seq<Member>)
    requires forall i, j :: 0 <= i < |a| && 0 <= j < |b| ==>
               (Same(a[i].value, b[j].value) <==> Canon(a[i].value) == Canon(b[j].value))
    ensures forall i :: 0 <= i < |a| ==> (SomeLike(a[i], b) <==> CanonMembers(a)[i] in CanonMembers(b))
    ensures forall j :: 0 <= j < |b| ==> (SomeIsLike(a, b[j]) <==> CanonMembers(b)[j] in CanonMembers(a))
  {
    var ca, cb := CanonMembers(a), CanonMembers(b);
    forall i | 0 <= i < |a| ensures SomeLike(a[i], b) <==> ca[i] in cb {
      if ca[i] in cb {
        var j :| 0 <= j < |cb| && cb[j] == ca[i];
        assert a[i].key == b[j].key && Same(a[i].value, b[j].value);
      }
    }
    forall j | 0 <= j < |b| ensures SomeIsLike(a, b[j]) <==> cb[j] in ca {
      if cb[j] in ca {
        var i :| 0 <= i < |ca| && ca[i] == cb[j];
        assert a[i].key == b[j].key && Same(a[i].value, b[j].value);
      }
    }
  }

  lemma {:induction false} SortIdentifies(a: seq<Member>, b: seq<Member>)
    requires DistinctKeys(a) && DistinctKeys(b) && KeysFit(a) && KeysFit(b)
    ensures SortMembers(a) == SortMembers(b) <==> forall m :: m in a <==> m in b
  {
    SortKeepsMembers(a);
    SortKeepsMembers(b);
    if forall m :: m in a <==> m in b {
      SortInOrder(a);
      SortInOrder(b);
      OrderIsUnique(SortMembers(a), SortMembers(b));
    }
  }

  lemma {:induction false} ObjectsIdentified(a: seq<Member>, b: seq<Member>)
    requires DistinctKeys(a) && DistinctKeys(b) && KeysFit(a) && KeysFit(b)
    requires forall i, j :: 0 <= i < |a| && 0 <= j < |b| ==>
               (Same(a[i].value, b[j].value) <==> Canon(a[i].value) == Canon(b[j].value))
    ensures Same(Obj(a), Obj(b)) <==> SortMembers(CanonMembers(a)) == SortMembers(CanonMembers(b))
  {
    var ca, cb := CanonMembers(a), CanonMembers(b);
    CanonKeepsKeys(a);
    CanonKeepsKeys(b);
    SortIdentifies(ca, cb);
    InclusionBothWays(ca, cb);
    SameIsInclusion(a, b);
    SameIsBothWays(a, b, ca, cb);
  }

  lemma {:induction false} CanonKeepsKeys(members: seq<Member>)
    requires DistinctKeys(members) && KeysFit(members)
    ensures DistinctKeys(CanonMembers(members)) && KeysFit(CanonMembers(members))
  {
  }

  lemma {:induction false} SameIsBothWays(a: seq<Member>, b: seq<Member>, ca: seq<Member>, cb: seq<Member>)
    requires |ca| == |a| && |cb| == |b|
    requires forall i :: 0 <= i < |a| ==> (SomeLike(a[i], b) <==> ca[i] in cb)
    requires forall j :: 0 <= j < |b| ==> (SomeIsLike(a, b[j]) <==> cb[j] in ca)
    ensures Same(Obj(a), Obj(b)) <==>
      (forall i :: 0 <= i < |ca| ==> ca[i] in cb) && (forall j :: 0 <= j < |cb| ==> cb[j] in ca)
  {
  }

  lemma {:induction false} InclusionBothWays(a: seq<Member>, b: seq<Member>)
    ensures (forall m :: m in a <==> m in b)
       <==> (forall i :: 0 <= i < |a| ==> a[i] in b) && (forall j :: 0 <= j < |b| ==> b[j] in a)
  {
    if forall m :: m in a <==> m in b {
      assert forall i :: 0 <= i < |a| ==> a[i] in a;
      assert forall j :: 0 <= j < |b| ==> b[j] in b;
    }
  }

  // ---- The canonical form has the same bytes

  lemma {:induction false} CanonBytes(items: seq<Value>)
    ensures AllBytes(CanonItems(items)) <==> AllBytes(items)
    ensures AllBytes(items) ==> BytesOf(CanonItems(items)) == BytesOf(items)
  {
    var canon := CanonItems(items);
    forall i | 0 <= i < |items| ensures IsByte(canon[i]) <==> IsByte(items[i]) {
    }
    if items != [] && AllBytes(items) {
      CanonBytes(items[1..]);
      assert canon[1..] == CanonItems(items[1..]);
    }
  }

  lemma {:induction false} EncodeCanon(v: Value)
    requires Proper(v) && Encodable(v)
    ensures Encode(Canon(v)) == Encode(v)
    decreases v, 1
  {
    match v {
      case Arr(items) =>
        CanonBytes(items);
        EncodeCanonItems(items);
      case Obj(members) => EncodeCanonObject(members);
      case _ =>
    }
  }

  lemma {:induction false} EncodeCanonItems(items: seq<Value>)
    requires forall i :: 0 <= i < |items| ==> Proper(items[i]) && Encodable(items[i])
    ensures EncodeItems(CanonItems(items)) == EncodeItems(items)
    decreases items, 0
  {
    if items != [] {
      EncodeCanon(items[0]);
      EncodeCanonItems(items[1..]);
      assert CanonItems(items)[1..] == CanonItems(items[1..]);
    }
  }

  lemma {:induction false} EncodeCanonMembers(members: seq<Member>)
    requires forall i :: 0 <= i < |members| ==> Proper(members[i].value) && Encodable(members[i].value)
    ensures EncodeMembers(CanonMembers(members)) == EncodeMembers(members)
    decreases members, 0
  {
    if members != [] {
      EncodeCanon(members[0].value);
      EncodeCanonMembers(members[1..]);
      assert CanonMembers(members)[1..] == CanonMembers(members[1..]);
    }
  }

  /** Members already in order stay as they are. */
  lemma {:induction false} SortIsStable(members: seq<Member>)
    requires InOrder(members)
    ensures SortMembers(members) == members
  {
    if members != [] {
      SortIsStable(members[1..]);
      if |members| > 1 {
        assert Before(members[0], members[1]);
        LessAsymmetric(KeyBytes(members[0].key), KeyBytes(members[1].key));
      }
    }
  }

  lemma {:induction false} EncodeCanonObject(members: seq<Member>)
    requires Proper(Obj(members)) && Encodable(Obj(members))
    ensures Encode(Canon(Obj(members))) == Encode(Obj(members))
    decreases members, 1
  {
    var canon := CanonMembers(members);
    var sorted := SortMembers(canon);
    EncodeCanonMembers(members);
    MembersAccept(members);
    SortCommutes(canon);
    SortInOrder(canon);
    SortIsStable(sorted);
    SortCommutes(sorted);
  }

  // ---- The main results

  /** Equal bytes and equality up to member order are the same thing. */
  lemma {:induction false} BytesIdentify(a: Value, b: Value)
    requires Proper(a) && Proper(b) && CanonicalBytes(a).Some? && CanonicalBytes(b).Some?
    ensures CanonicalBytes(a) == CanonicalBytes(b) <==> Same(a, b)
  {
    EncodeAccepts(a);
    EncodeAccepts(b);
    CanonIdentifies(a, b);
    EncodeCanon(a);
    EncodeCanon(b);
    if CanonicalBytes(a) == CanonicalBytes(b) {
      var x, y := Encode(a).value, Encode(b).value;
      assert CanonicalBytes(a).value[1..] == x && CanonicalBytes(b).value[1..] == y;
      RoundTrip(a);
      RoundTrip(b);
      Recovered(a, x, []);
      Recovered(b, x, []);
    }
  }

  /** No canonical bytes are a proper prefix of others. */
  lemma {:induction false} PrefixFree(a: Value, b: Value)
    requires CanonicalBytes(a).Some? && CanonicalBytes(b).Some?
    requires CanonicalBytes(a).value <= CanonicalBytes(b).value
    ensures CanonicalBytes(a) == CanonicalBytes(b)
  {
    var x, y := Encode(a).value, Encode(b).value;
    var rest := Remainder(CanonicalBytes(a).value, CanonicalBytes(b).value, x, y);
    RoundTrip(a);
    RoundTrip(b);
    NothingFollows(a, x, b, y, rest);
    assert x + [] == x;
  }

  lemma {:induction false} Remainder(long: Bytes, longer: Bytes, x: Bytes, y: Bytes) returns (rest: Bytes)
    requires long == [131] + x && longer == [131] + y && long <= longer
    ensures y == x + rest
  {
    assert long[1..] == x && longer[1..] == y;
    rest := y[|x|..];
    assert y[..|x|] == longer[1..|long|];
  }

  lemma {:induction false} NothingFollows(a: Value, x: Bytes, b: Value, y: Bytes, rest: Bytes)
    requires Recovers(a) && Recovers(b) && Encode(a) == Some(x) && Encode(b) == Some(y) && y == x + rest
    ensures rest == []
  {
    Recovered(a, x, rest);
    Recovered(b, y, []);
    assert y + [] == y;
  }
}
