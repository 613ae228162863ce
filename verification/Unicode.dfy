/** UTF-16 strings, their scalar values, and UTF-8 (section 3 of RFC 3629). */
module Unicode {
  import opened Bytes
  import opened Options

  /** A UTF-16 code unit, the element of a JavaScript string. */
  type Unit = u: int | 0 <= u < 65536

  predicate High(u: int) { 55296 <= u <= 56319 }

  predicate Low(u: int) { 56320 <= u <= 57343 }

  /** A Unicode scalar value: a code point that is no surrogate. */
  type Scalar = c: int | 0 <= c < 1114112 && !High(c) && !Low(c)

  function Pair(high: int, low: int): Scalar
    requires High(high) && Low(low)
  {
    65536 + (high - 55296) * 1024 + (low - 56320)
  }

  /** The scalar values of a string; a string with a surrogate out of place has none. */
  function Scalars(units: seq<Unit>): Option<seq<Scalar>>
  {
    if units == [] then Some([])
    else if High(units[0]) then
      if |units| > 1 && Low(units[1]) then Prepend(Pair(units[0], units[1]), Scalars(units[2..])) else None
    else if Low(units[0]) then None
    else Prepend(units[0], Scalars(units[1..]))
  }

  function Prepend(c: Scalar, rest: Option<seq<Scalar>>): Option<seq<Scalar>>
  {
    if rest.None? then None else Some([c] + rest.value)
  }

  function UnitsOf(c: Scalar): seq<Unit>
  {
    if c < 65536 then [c] else [55296 + (c - 65536) / 1024, 56320 + (c - 65536) % 1024]
  }

  function Units(scalars: seq<Scalar>): seq<Unit>
  {
    if scalars == [] then [] else UnitsOf(scalars[0]) + Units(scalars[1..])
  }

  lemma {:induction false} UnitsOfPair(high: Unit, low: Unit)
    requires High(high) && Low(low)
    ensures UnitsOf(Pair(high, low)) == [high, low]
  {
  }

  lemma {:induction false} FirstScalar(c: Scalar, rest: seq<Scalar>)
    ensures Units([c] + rest) == UnitsOf(c) + Units(rest)
  {
    assert ([c] + rest)[1..] == rest;
  }

  /** Well-formed strings and sequences of scalar values determine each other. */
  lemma {:induction false} UnitsOfScalars(units: seq<Unit>)
    requires Scalars(units).Some?
    ensures Units(Scalars(units).value) == units
  {
    if units != [] {
      if High(units[0]) {
        UnitsOfScalars(units[2..]);
        UnitsOfPair(units[0], units[1]);
        FirstScalar(Pair(units[0], units[1]), Scalars(units[2..]).value);
        assert units == [units[0], units[1]] + units[2..];
      } else {
        FirstScalar(units[0], Scalars(units[1..]).value);
        UnitsOfScalars(units[1..]);
        assert units == [units[0]] + units[1..];
      }
    }
  }

  function Utf8(c: Scalar): (r: Bytes)
    ensures 1 <= |r| <= 4
  {
    if c < 128 then [c]
    else if c < 2048 then [192 + c / 64, 128 + c % 64]
    else if c < 65536 then [224 + c / 4096, 128 + c % 4096 / 64, 128 + c % 64]
    else [240 + c / 262144, 128 + c % 262144 / 4096, 128 + c % 4096 / 64, 128 + c % 64]
  }

  function Utf8All(scalars: seq<Scalar>): Bytes
  {
    if scalars == [] then [] else Utf8(scalars[0]) + Utf8All(scalars[1..])
  }

  /** How many bytes a sequence takes, by its first byte. */
  function Utf8Length(lead: int): (r: nat)
    ensures 1 <= r <= 4
  {
    if lead < 192 then 1 else if lead < 224 then 2 else if lead < 240 then 3 else 4
  }

  function Utf8Code(b: seq<int>): int
    requires |b| > 0 && |b| == Utf8Length(b[0])
  {
    if |b| == 1 then b[0]
    else if |b| == 2 then (b[0] - 192) * 64 + (b[1] - 128)
    else if |b| == 3 then (b[0] - 224) * 4096 + (b[1] - 128) * 64 + (b[2] - 128)
    else (b[0] - 240) * 262144 + (b[1] - 128) * 4096 + (b[2] - 128) * 64 + (b[3] - 128)
  }

  /** A decoder: enough to recover what was encoded. */
  function Utf8Decode(bytes: Bytes): Option<seq<Scalar>>
  {
    if bytes == [] then Some([])
    else
      var n := Utf8Length(bytes[0]);
      if |bytes| < n then None
      else
        var c := Utf8Code(bytes[..n]);
        if 0 <= c < 1114112 && !High(c) && !Low(c) then Prepend(c, Utf8Decode(bytes[n..])) else None
  }

  lemma {:induction false} TwoBytes(c: int)
    requires 128 <= c < 2048
    ensures 2 <= c / 64 < 32 && c == c / 64 * 64 + c % 64
  {
  }

  lemma {:induction false} ThreeBytes(c: int)
    requires 2048 <= c < 65536
    ensures c / 4096 < 16 && c % 4096 / 64 < 64
    ensures c == c / 4096 * 4096 + c % 4096 / 64 * 64 + c % 64
  {
    assert c % 64 == c % 4096 % 64;
  }

  lemma {:induction false} FourBytes(c: int)
    requires 65536 <= c < 1114112
    ensures c / 262144 <= 4 && c % 262144 / 4096 < 64 && c % 4096 / 64 < 64
    ensures c == c / 262144 * 262144 + c % 262144 / 4096 * 4096 + c % 4096 / 64 * 64 + c % 64
  {
    assert c % 4096 == c % 262144 % 4096;
    assert c % 64 == c % 4096 % 64;
  }

  lemma {:induction false} Utf8CodeInverts(c: Scalar)
    ensures |Utf8(c)| == Utf8Length(Utf8(c)[0]) && Utf8Code(Utf8(c)) == c
  {
    if c >= 65536 {
      FourBytes(c);
    } else if c >= 2048 {
      ThreeBytes(c);
    } else if c >= 128 {
      TwoBytes(c);
    }
  }

  lemma {:induction false} Utf8Inverts(scalars: seq<Scalar>)
    ensures Utf8Decode(Utf8All(scalars)) == Some(scalars)
  {
    if scalars != [] {
      var c, rest := scalars[0], Utf8All(scalars[1..]);
      Utf8CodeInverts(c);
      Utf8Inverts(scalars[1..]);
      var n, bytes := |Utf8(c)|, Utf8(c) + rest;
      assert bytes[0] == Utf8(c)[0] && bytes[..n] == Utf8(c) && bytes[n..] == rest;
      assert Utf8Decode(bytes) == Prepend(c, Utf8Decode(rest));
      assert scalars == [c] + scalars[1..];
    }
  }

  /** The UTF-8 bytes of a well-formed string. */
  function Encoded(units: seq<Unit>): Option<Bytes>
  {
    match Scalars(units)
    case None => None
    case Some(scalars) => Some(Utf8All(scalars))
  }

  function Decoded(bytes: Bytes): Option<seq<Unit>>
  {
    match Utf8Decode(bytes)
    case None => None
    case Some(scalars) => Some(Units(scalars))
  }

  /** Decoding recovers every well-formed string from its UTF-8 bytes. */
  lemma {:induction false} TextInverts(units: seq<Unit>)
    requires Encoded(units).Some?
    ensures Decoded(Encoded(units).value) == Some(units)
  {
    Utf8Inverts(Scalars(units).value);
    UnitsOfScalars(units);
  }

  lemma {:induction false} UnitsOfScalar(c: Scalar)
    ensures c < 65536 ==> UnitsOf(c) == [c] && !High(c) && !Low(c)
    ensures c >= 65536 ==> |UnitsOf(c)| == 2 && High(UnitsOf(c)[0]) && Low(UnitsOf(c)[1])
    ensures c >= 65536 ==> Pair(UnitsOf(c)[0], UnitsOf(c)[1]) == c
  {
  }

  /** Every sequence of scalar values is what its code units spell. */
  lemma {:induction false} ScalarsOfUnits(scalars: seq<Scalar>)
    ensures Scalars(Units(scalars)) == Some(scalars)
  {
    if scalars != [] {
      var c, rest := scalars[0], Units(scalars[1..]);
      ScalarsOfUnits(scalars[1..]);
      UnitsOfScalar(c);
      var n, units := |UnitsOf(c)|, UnitsOf(c) + rest;
      assert units[n..] == rest && units[0] == UnitsOf(c)[0];
      assert scalars == [c] + scalars[1..];
    }
  }
}
