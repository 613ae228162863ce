/**
 The spelling of identities, told by the bits and the alphabet of sections 4 and 5 of RFC 4648, and the texts that stand
 beside them in the records.
 */
module IdentitySpelling {
  import opened Bytes
  import opened Unicode
  import opened Characters
  import opened Identities

  // ---- The bits

  function Power(k: nat): nat
  {
    if k == 0 then 1 else 2 * Power(k - 1)
  }

  /** The last `width` bits of a number, the most significant first. */
  function Bits(v: nat, width: nat): (r: seq<int>)
    ensures |r| == width
  {
    if width == 0 then [] else Bits(v / 2, width - 1) + [v % 2]
  }

  function AllBits(values: seq<nat>, width: nat): (r: seq<int>)
  {
    if values == [] then [] else Bits(values[0], width) + AllBits(values[1..], width)
  }

  lemma {:induction false} HalfOf(q: nat, m: nat, r: nat, v: nat)
    requires v == q * (2 * m) + r
    ensures v / 2 == q * m + r / 2 && v % 2 == r % 2
  {
    var p := q * m;
    assert v == 2 * p + r;
  }

  /** The bits of a quotient and a remainder, one after the other. */
  lemma {:induction false} BitsSplit(v: nat, q: nat, r: nat, width: nat, k: nat)
    requires v == q * Power(k) + r && r < Power(k)
    ensures Bits(v, width + k) == Bits(q, width) + Bits(r, k)
  {
    if k > 0 {
      HalfOf(q, Power(k - 1), r, v);
      BitsSplit(v / 2, q, r / 2, width, k - 1);
    }
  }

  lemma {:induction false} Powers()
    ensures Power(2) == 4 && Power(4) == 16 && Power(6) == 64
  {
    assert Power(0) == 1 && Power(1) == 2 && Power(2) == 4 && Power(3) == 8 && Power(4) == 16 && Power(5) == 32;
  }

  /** A byte is six bits and two, four and four, or two and six. */
  lemma {:induction false} ByteSplits(b: Byte)
    ensures Bits(b, 8) == Bits(b / 4, 6) + Bits(b % 4, 2)
    ensures Bits(b, 8) == Bits(b / 16, 4) + Bits(b % 16, 4)
    ensures Bits(b, 8) == Bits(b / 64, 2) + Bits(b % 64, 6)
  {
    Powers();
    BitsSplit(b, b / 4, b % 4, 6, 2);
    BitsSplit(b, b / 16, b % 16, 4, 4);
    BitsSplit(b, b / 64, b % 64, 2, 6);
  }

  lemma {:induction false} SecondDigit(x: Byte, low: nat, q: nat)
    requires low < 16 && q == x % 4 * 16 + low
    ensures Bits(q, 6) == Bits(x % 4, 2) + Bits(low, 4)
  {
    Powers();
    BitsSplit(q, x % 4, low, 2, 4);
  }

  lemma {:induction false} ThirdDigit(y: Byte, low: nat, r: nat)
    requires low < 4 && r == y % 16 * 4 + low
    ensures Bits(r, 6) == Bits(y % 16, 4) + Bits(low, 2)
  {
    Powers();
    BitsSplit(r, y % 16, low, 4, 2);
  }

  lemma {:induction false} Regroup(
    a: seq<int>, b: seq<int>, c: seq<int>, d: seq<int>, e: seq<int>, f: seq<int>, x: seq<int>, y: seq<int>, z: seq<int>,
    q: seq<int>, r: seq<int>)
    requires x == a + b && y == c + d && z == e + f && q == b + c && r == d + e
    ensures a + q + r + f == x + y + z
  {
  }

  lemma {:induction false} JoinTwo(a: seq<int>, b: seq<int>, c: seq<int>, x: seq<int>, q: seq<int>)
    requires x == a + b && q == b + c
    ensures a + q == x + c
  {
  }

  lemma {:induction false} JoinGroup(
    p: seq<int>, q: seq<int>, r: seq<int>, s: seq<int>, digits: seq<int>, x: seq<int>, y: seq<int>, z: seq<int>,
    bytes: seq<int>, filled: seq<int>)
    requires p + q + r + s == x + y + z && digits == bytes + filled
    ensures p + q + r + s + digits == x + y + z + bytes + filled
  {
  }

  lemma {:induction false} GroupIsBits(x: Byte, y: Byte, z: Byte, p: nat, q: nat, r: nat, s: nat)
    requires p == x / 4 && q == x % 4 * 16 + y / 16 && r == y % 16 * 4 + z / 64 && s == z % 64
    ensures Bits(p, 6) + Bits(q, 6) + Bits(r, 6) + Bits(s, 6) == Bits(x, 8) + Bits(y, 8) + Bits(z, 8)
  {
    ByteSplits(x);
    ByteSplits(y);
    ByteSplits(z);
    SecondDigit(x, y / 16, q);
    ThirdDigit(y, z / 64, r);
    Regroup(Bits(x / 4, 6), Bits(x % 4, 2), Bits(y / 16, 4), Bits(y % 16, 4), Bits(z / 64, 2), Bits(z % 64, 6),
            Bits(x, 8), Bits(y, 8), Bits(z, 8), Bits(q, 6), Bits(r, 6));
  }

  lemma {:induction false} AllOfOne(v: nat, values: seq<nat>, width: nat)
    ensures AllBits([v] + values, width) == Bits(v, width) + AllBits(values, width)
  {
    assert ([v] + values)[1..] == values;
  }

  lemma {:induction false} AllOfTwo(x: nat, y: nat, width: nat)
    ensures AllBits([x, y], width) == Bits(x, width) + Bits(y, width)
  {
    assert [x, y] == [x] + ([y] + []);
    AllOfOne(x, [y] + [], width);
    AllOfOne(y, [], width);
  }

  lemma {:induction false} AllOfThree(x: nat, y: nat, z: nat, values: seq<nat>, width: nat)
    ensures AllBits([x, y, z] + values, width)
         == Bits(x, width) + Bits(y, width) + Bits(z, width) + AllBits(values, width)
  {
    assert [x, y, z] + values == [x] + ([y] + ([z] + values));
    AllOfOne(x, [y] + ([z] + values), width);
    AllOfOne(y, [z] + values, width);
    AllOfOne(z, values, width);
  }

  lemma {:induction false} AllOfFour(x: nat, y: nat, z: nat, v: nat, values: seq<nat>, width: nat)
    ensures AllBits([x, y, z, v] + values, width)
         == Bits(x, width) + Bits(y, width) + Bits(z, width) + Bits(v, width) + AllBits(values, width)
  {
    assert [x, y, z, v] + values == [x, y, z] + ([v] + values);
    AllOfThree(x, y, z, [v] + values, width);
    AllOfOne(v, values, width);
  }

  /** The bits that fill the last digit. */
  function Filled(n: nat): seq<int>
  {
    if n % 3 == 0 then [] else if n % 3 == 1 then [0, 0, 0, 0] else [0, 0]
  }

  lemma {:induction false} FillsAlike(n: nat)
    ensures Filled(n + 3) == Filled(n)
  {
  }

  lemma {:induction false} ZeroBits()
    ensures Bits(0, 4) == [0, 0, 0, 0] && Bits(0, 2) == [0, 0]
  {
  }

  lemma {:induction false} OneGroup(
    p: nat, q: nat, r: nat, s: nat, digits: seq<nat>, x: nat, y: nat, z: nat, bytes: seq<nat>, filled: seq<int>)
    requires Bits(p, 6) + Bits(q, 6) + Bits(r, 6) + Bits(s, 6) == Bits(x, 8) + Bits(y, 8) + Bits(z, 8)
    requires AllBits(digits, 6) == AllBits(bytes, 8) + filled
    ensures AllBits([p, q, r, s] + digits, 6) == AllBits([x, y, z] + bytes, 8) + filled
  {
    AllOfFour(p, q, r, s, digits, 6);
    AllOfThree(x, y, z, bytes, 8);
    JoinGroup(Bits(p, 6), Bits(q, 6), Bits(r, 6), Bits(s, 6), AllBits(digits, 6), Bits(x, 8), Bits(y, 8), Bits(z, 8),
              AllBits(bytes, 8), filled);
  }

  lemma {:induction false} LongGroup(
    bytes: Bytes, x: Byte, y: Byte, z: Byte, rest: Bytes, p: Digit, q: Digit, r: Digit, s: Digit, digits: seq<Digit>,
    all: seq<Digit>)
    requires |bytes| >= 3 && bytes[0] == x && bytes[1] == y && bytes[2] == z && rest == bytes[3..]
    requires p == x / 4 && q == x % 4 * 16 + y / 16 && r == y % 16 * 4 + z / 64 && s == z % 64
    requires all == [p, q, r, s] + digits && AllBits(digits, 6) == AllBits(rest, 8) + Filled(|rest|)
    ensures AllBits(all, 6) == AllBits(bytes, 8) + Filled(|bytes|)
  {
    assert bytes == [x, y, z] + rest;
    GroupIsBits(x, y, z, p, q, r, s);
    OneGroup(p, q, r, s, digits, x, y, z, rest, Filled(|rest|));
    FillsAlike(|rest|);
  }

  /** The digits have the bits of the bytes, six at a time, with zero bits to fill the last. */
  lemma {:induction false} DigitsAreBits(bytes: Bytes)
    ensures AllBits(Digits(bytes), 6) == AllBits(bytes, 8) + Filled(|bytes|)
    decreases |bytes|
  {
    if |bytes| == 1 {
      OneByte(bytes[0], bytes[0] / 4, bytes[0] % 4 * 16);
      assert bytes == [bytes[0]];
    } else if |bytes| == 2 {
      TwoBytes(bytes[0], bytes[1], bytes[0] / 4, bytes[0] % 4 * 16 + bytes[1] / 16, bytes[1] % 16 * 4);
      assert bytes == [bytes[0], bytes[1]];
    } else if |bytes| >= 3 {
      var x, y, z, rest := bytes[0], bytes[1], bytes[2], bytes[3..];
      DigitsAreBits(rest);
      LongGroup(bytes, x, y, z, rest, x / 4, x % 4 * 16 + y / 16, y % 16 * 4 + z / 64, z % 64, Digits(rest), Digits(bytes));
    }
  }

  lemma {:induction false} OneByte(x: Byte, p: nat, q: nat)
    requires p == x / 4 && q == x % 4 * 16
    ensures AllBits([p, q], 6) == AllBits([x], 8) + [0, 0, 0, 0]
  {
    ZeroBits();
    ByteSplits(x);
    SecondDigit(x, 0, q);
    AllOfTwo(p, q, 6);
    AllOfOne(x, [], 8);
    assert [x] + [] == [x];
    JoinTwo(Bits(p, 6), Bits(x % 4, 2), [0, 0, 0, 0], Bits(x, 8), Bits(q, 6));
  }

  lemma {:induction false} TwoBytes(x: Byte, y: Byte, p: nat, q: nat, r: nat)
    requires p == x / 4 && q == x % 4 * 16 + y / 16 && r == y % 16 * 4
    ensures AllBits([p, q, r], 6) == AllBits([x, y], 8) + [0, 0]
  {
    ZeroBits();
    ByteSplits(x);
    ByteSplits(y);
    SecondDigit(x, y / 16, q);
    ThirdDigit(y, 0, r);
    AllOfThree(p, q, r, [], 6);
    AllOfTwo(x, y, 8);
    assert [p, q, r] + [] == [p, q, r];
    Regroup(Bits(x / 4, 6), Bits(x % 4, 2), Bits(y / 16, 4), Bits(y % 16, 4), [0, 0], [],
            Bits(x, 8), Bits(y, 8), [0, 0], Bits(q, 6), Bits(r, 6));
  }

  // ---- The alphabet

  const UPPER := "ABCDEFGHIJKLMNOPQRSTUVWXYZ"
  const LOWER := "abcdefghijklmnopqrstuvwxyz"
  const OTHER := "0123456789-_"

  /** The symbol of each digit is the character of the alphabet at its place. */
  lemma {:induction false} SymbolIs(d: Digit)
    ensures d < 26 ==> Symbol(d) == UPPER[d] as int
    ensures 26 <= d < 52 ==> Symbol(d) == LOWER[d - 26] as int
    ensures 52 <= d ==> Symbol(d) == OTHER[d - 52] as int
  {
  }

  /** A character may occur exactly when it is a symbol. */
  lemma {:induction false} AlphabetIs(c: int)
    ensures InAlphabet(c) <==> exists d: Digit :: Symbol(d) == c
    ensures InAlphabet(c) ==> Symbol(Value(c)) == c
  {
    if InAlphabet(c) {
      assert Symbol(Value(c)) == c;
    }
  }

  lemma {:induction false} SymbolOfEach(digits: seq<Digit>, i: nat)
    requires i < |digits|
    ensures Symbols(digits)[i] == Symbol(digits[i])
  {
    if i > 0 {
      SymbolOfEach(digits[1..], i - 1);
    }
  }

  /** The spelling of bytes: at each place the symbol of six of their bits. */
  lemma {:induction false} SpellingIsBits(bytes: Bytes, digits: seq<Digit>, text: seq<Unit>)
    requires text == Encode(bytes) && digits == Digits(bytes)
    ensures AllBits(digits, 6) == AllBits(bytes, 8) + Filled(|bytes|)
    ensures |text| == |digits| && forall i :: 0 <= i < |text| ==> text[i] == Symbol(digits[i])
  {
    DigitsAreBits(bytes);
    forall i | 0 <= i < |text| ensures text[i] == Symbol(digits[i]) {
      SymbolOfEach(digits, i);
    }
  }

  lemma {:induction false} UpperIs(c: char)
    ensures c in UPPER <==> 'A' <= c <= 'Z'
  {
    assert 'A' <= c <= 'Z' ==> UPPER[c as int - 65] == c;
  }

  lemma {:induction false} LowerIs(c: char)
    ensures c in LOWER <==> 'a' <= c <= 'z'
  {
    assert 'a' <= c <= 'z' ==> LOWER[c as int - 97] == c;
  }

  lemma {:induction false} UnreservedIs(c: Unit)
    ensures Unreserved(c) <==> InAlphabet(c) || c == 46 || c == 126
  {
    if c < 128 {
      UpperIs(c as char);
      LowerIs(c as char);
    }
  }

  /** The characters of an identifier of a request are the unreserved ones of section 2.3 of RFC 3986. */
  lemma {:induction false} RequestMeans(text: seq<Unit>)
    ensures IsRequest(text) <==> 1 <= |text| <= 64 && forall i :: 0 <= i < |text| ==> Unreserved(text[i])
  {
    forall c: Unit ensures Unreserved(c) <==> InAlphabet(c) || c == 46 || c == 126 {
      UnreservedIs(c);
    }
  }

  predicate Unreserved(c: int)
  {
    0 <= c < 128 && (c as char in UPPER || c as char in LOWER || c as char in "0123456789" || c as char in "-._~")
  }

  lemma {:induction false} KindsAre()
    ensures RUN == Ascii("run") && COMPACT == Ascii("compact")
  {
    AsciiIs("run", RUN);
    AsciiIs("compact", COMPACT);
  }
}
