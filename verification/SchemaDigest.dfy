/** From schema text to digest preimage: what the parser accepts, the encoder takes, and spelling plays no part. */
module SchemaDigest {
  import opened Options
  import opened Unicode
  import opened Canonical
  import opened CanonicalIdentity
  import opened SchemaJson
  import opened SchemaSpelling
  import opened SchemaRoundTrip

  /** Nothing is too long for a 32-bit length field. */
  predicate SizesFit(v: Value)
  {
    match v
    case Str(text) => Encoded(text).Some? ==> |Encoded(text).value| < LIMIT32
    case Arr(items) => |items| < LIMIT32 && forall i | 0 <= i < |items| :: SizesFit(items[i])
    case Obj(members) =>
      |members| < LIMIT32 && forall i | 0 <= i < |members| ::
        (Encoded(members[i].key).Some? ==> |Encoded(members[i].key).value| < LIMIT32) && SizesFit(members[i].value)
    case _ => true
  }

  lemma {:induction false} ItemsAt(items: seq<Doc>)
    ensures |ItemsValue(items)| == |items|
    ensures forall i :: 0 <= i < |items| ==> ItemsValue(items)[i] == CoreValue(items[i].core)
  {
    if items != [] { ItemsAt(items[1..]); }
  }

  lemma {:induction false} PairsAt(pairs: seq<Pair>)
    ensures |PairsValue(pairs)| == |pairs|
    ensures forall i :: 0 <= i < |pairs| ==> PairsValue(pairs)[i] == PairValue(pairs[i])
  {
    if pairs != [] { PairsAt(pairs[1..]); }
  }

  lemma {:induction false} DigitsAreNatural(digits: seq<int>)
    requires forall i :: 0 <= i < |digits| ==> IsDigit(digits[i])
    ensures DecimalValue(digits) >= 0
  {
    if digits != [] { DigitsAreNatural(digits[..|digits| - 1]); }
  }

  /** Distinct keys throughout, and only its size can keep the value from being encoded. */
  ghost predicate Sound(v: Value)
  {
    Proper(v) && (Encodable(v) <==> SizesFit(v))
  }

  lemma {:induction false} ArrayIsSound(items: seq<Value>)
    requires forall i :: 0 <= i < |items| ==> Sound(items[i])
    ensures Sound(Arr(items))
  {
  }

  lemma {:induction false} ObjectIsSound(members: seq<Member>)
    requires DistinctKeys(members)
    requires forall i :: 0 <= i < |members| ==> Encoded(members[i].key).Some? && Sound(members[i].value)
    ensures Sound(Obj(members))
  {
  }

  lemma {:induction false} SpellingIsSound(c: Core)
    requires ValidCore(c)
    ensures Sound(CoreValue(c))
    decreases c
  {
    match c {
      case NumberCore(_, digits) => DigitsAreNatural(digits);
      case ArrayCore(items) =>
        ItemsAt(items);
        forall i | 0 <= i < |items| ensures Sound(ItemsValue(items)[i]) {
          assert ValidDoc(items[i]);
          SpellingIsSound(items[i].core);
        }
        ArrayIsSound(ItemsValue(items));
      case ObjectCore(pairs) =>
        PairsAt(pairs);
        forall i | 0 <= i < |pairs|
          ensures Encoded(PairsValue(pairs)[i].key).Some? && Sound(PairsValue(pairs)[i].value)
        {
          PairParts(pairs[i]);
          SpellingIsSound(pairs[i].value.core);
        }
        ObjectIsSound(PairsValue(pairs));
      case _ =>
    }
  }

  lemma {:induction false} PairParts(p: Pair)
    requires ValidPair(p)
    ensures ValidCore(p.value.core) && Encoded(PairValue(p).key).Some?
  {
    assert ValidDoc(p.value);
  }

  /** Every object at every depth of an accepted text has distinct decoded keys, and its value can be encoded. */
  lemma {:induction false} AcceptedIsEncodable(text: Text, v: Value)
    requires ReadText(text) == Some(v)
    ensures Proper(v)
    ensures CanonicalBytes(v).Some? <==> SizesFit(v)
  {
    var d := ReadIsSpelling(text, v);
    SpellingIsSound(d.core);
    EncodeAccepts(v);
  }

  /** Two accepted texts have one preimage exactly when they mean the same value, whatever their spelling. */
  lemma {:induction false} DigestIgnoresSpelling(text: Text, v: Value, text': Text, v': Value)
    requires ReadText(text) == Some(v) && ReadText(text') == Some(v') && SizesFit(v) && SizesFit(v')
    ensures CanonicalBytes(v) == CanonicalBytes(v') <==> Same(v, v')
  {
    AcceptedIsEncodable(text, v);
    AcceptedIsEncodable(text', v');
    BytesIdentify(v, v');
  }
}
