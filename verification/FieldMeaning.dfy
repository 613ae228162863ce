/**
 What both decoders of scripts/json-field.awk make of a string, by the characters it spells (section 7 of RFC 8259) and
 their UTF-8 (section 3 of RFC 3629), and what the walking decoder makes of the rest.
 */
module FieldMeaning {
  import opened Bytes
  import opened Options
  import opened Unicode
  import opened Sequences
  import opened Characters
  import opened FieldDecode
  import opened FieldEmit
  import opened FieldAgreement

  /** One character of a JSON string, in one of its spellings; a surrogate escape on its own spells U+FFFD. */
  datatype Spelt =
    | Raw(c: Scalar)
    | Escape(letter: Byte)
    | Hex(digits: Bytes)
    | HexPair(high: Bytes, low: Bytes)
    | Lone(digits: Bytes)

  predicate ValidSpelt(s: Spelt)
  {
    match s
    case Raw(c) => c >= 32 && c != 34 && c != 92
    case Escape(letter) => JsonEscape(letter).Some?
    case Hex(digits) => HexNumber(digits).Some? && !IsSurrogate(HexNumber(digits).value)
    case HexPair(high, low) =>
      HexNumber(high).Some? && HexNumber(low).Some? && High(HexNumber(high).value) && Low(HexNumber(low).value)
    case Lone(digits) => HexNumber(digits).Some? && IsSurrogate(HexNumber(digits).value)
  }

  predicate IsSurrogate(code: int)
  {
    0xD800 <= code <= 0xDFFF
  }

  function SpeltText(s: Spelt): Bytes
  {
    match s
    case Raw(c) => Utf8(c)
    case Escape(letter) => [92, letter]
    case Hex(digits) => [92, 117] + digits
    case HexPair(high, low) => ([92, 117] + high) + ([92, 117] + low)
    case Lone(digits) => [92, 117] + digits
  }

  function SpeltScalar(s: Spelt): Scalar
    requires ValidSpelt(s)
  {
    match s
    case Raw(c) => c
    case Escape(letter) => JsonEscape(letter).value
    case Hex(digits) => HexBounds(digits); HexNumber(digits).value
    case HexPair(high, low) => Pair(HexNumber(high).value, HexNumber(low).value)
    case Lone(_) => 0xFFFD
  }

  lemma {:induction false} HexBounds(d: seq<int>)
    ensures HexNumber(d).Some? ==> 0 <= HexNumber(d).value < 65536
  {
    HexIsTable(d);
  }

  predicate LoneHigh(s: Spelt) { s.Lone? && HexNumber(s.digits).Some? && High(HexNumber(s.digits).value) }

  predicate LoneLow(s: Spelt) { s.Lone? && HexNumber(s.digits).Some? && Low(HexNumber(s.digits).value) }

  /** Each character is well spelt, and no two lone surrogates stand together as a pair. */
  predicate AllValid(spelling: seq<Spelt>)
  {
    && (forall i :: 0 <= i < |spelling| ==> ValidSpelt(spelling[i]))
    && (forall i :: 0 < i < |spelling| ==> !(LoneHigh(spelling[i - 1]) && LoneLow(spelling[i])))
  }

  function SpellingText(spelling: seq<Spelt>): Bytes
  {
    if spelling == [] then [] else SpeltText(spelling[0]) + SpellingText(spelling[1..])
  }

  function SpellingScalars(spelling: seq<Spelt>): seq<Scalar>
    requires forall i :: 0 <= i < |spelling| ==> ValidSpelt(spelling[i])
  {
    if spelling == [] then [] else [SpeltScalar(spelling[0])] + SpellingScalars(spelling[1..])
  }

  /** NUL cannot be passed on and is replaced. */
  function WithoutNul(scalars: seq<Scalar>): seq<Scalar>
  {
    if scalars == [] then []
    else [if scalars[0] == 0 then 0xFFFD else scalars[0]] + WithoutNul(scalars[1..])
  }

  /** The bytes one character decodes to. */
  function SpeltBytes(s: Spelt): Bytes
    requires ValidSpelt(s)
  {
    Utf8(if SpeltScalar(s) == 0 then 0xFFFD else SpeltScalar(s))
  }

  // ---- A text put in front

  /** A text put in front that decodes to given bytes, whatever follows, and keeps the token a token. */
  ghost predicate Decodes(front: Bytes, bytes: Bytes, t: Bytes)
  {
    && Unescaped(front + t) == bytes + Unescaped(t)
    && (IsToken(t) ==> IsToken(front + t))
  }

  /** A text put in front that skips nothing. */
  ghost predicate KeepsClean(front: Bytes, t: Bytes)
  {
    Clean(Pieces(t)) ==> Clean(Pieces(front + t))
  }

  ghost predicate StartsLow(t: Bytes)
  {
    t != [] && IsLow(FirstPiece(t))
  }

  lemma {:induction false} SingleDecodes(front: Bytes, p: Piece, t: Bytes)
    requires front + t != [] && FirstPiece(front + t) == p && PieceText(p) == front
    requires !p.Dangling? && p != Plain(34) && !(IsHigh(p) && StartsLow(t))
    ensures Decodes(front, PieceBytes(p), t)
    ensures !p.BadCode? && !IsHigh(p) ==> KeepsClean(front, t)
  {
    var whole := front + t;
    PiecesUnfold(whole, p);
    assert whole[|front|..] == t;
    UnescapedSingle(whole, p, |front|);
    if Clean(Pieces(t)) && !p.BadCode? && !IsHigh(p) {
      CleanFront(Pieces(whole));
    }
  }

  lemma {:induction false} DecodesJoin(a: Bytes, out: Bytes, b: Bytes, more: Bytes, t: Bytes)
    requires Decodes(b, more, t) && Decodes(a, out, b + t) && KeepsClean(b, t) && KeepsClean(a, b + t)
    ensures Decodes(a + b, out + more, t) && KeepsClean(a + b, t)
  {
    Regroup(a, b, t);
    Regroup(out, more, Unescaped(t));
  }

  lemma {:induction false} PlainDecodes(front: Bytes, t: Bytes)
    requires 92 !in front && 34 !in front
    ensures Decodes(front, front, t) && KeepsClean(front, t)
  {
    if front == [] {
      assert front + t == t;
    } else {
      var c, later := front[0], front[1..];
      PlainDecodes(later, t);
      SingleDecodes([c], Plain(c), later + t);
      DecodesJoin([c], [c], later, later, t);
      assert front == [c] + later;
    }
  }

  lemma {:induction false} CodeFirst(digits: Bytes, t: Bytes)
    requires HexNumber(digits).Some?
    ensures FirstPiece(([92, 117] + digits) + t) == Code(HexNumber(digits).value, digits)
  {
    var whole := ([92, 117] + digits) + t;
    HexIsTable(digits);
    assert whole[2..6] == digits;
    assert Prefix(whole[2..], 4) == digits;
  }

  lemma {:induction false} PairDecodes(high: Bytes, low: Bytes, t: Bytes)
    requires ValidSpelt(HexPair(high, low))
    ensures Decodes(SpeltText(HexPair(high, low)), CodeBytes(Pair(HexNumber(high).value, HexNumber(low).value)), t)
    ensures KeepsClean(SpeltText(HexPair(high, low)), t)
  {
    var first: Bytes, second: Bytes := [92, 117] + high, [92, 117] + low;
    var rest := second + t;
    var whole := first + rest;
    assert (first + second) + t == whole;
    CodeFirst(high, rest);
    CodeFirst(low, t);
    PairOfCodes(whole, rest, t, FirstPiece(whole), FirstPiece(rest));
  }

  lemma {:induction false} PairOfCodes(whole: Bytes, rest: Bytes, t: Bytes, p: Piece, q: Piece)
    requires |whole| >= 6 && |rest| >= 6 && rest == whole[6..] && t == rest[6..]
    requires p == FirstPiece(whole) && q == FirstPiece(rest) && IsHigh(p) && IsLow(q)
    ensures Unescaped(whole) == CodeBytes(Pair(p.code, q.code)) + Unescaped(t)
    ensures IsToken(t) ==> IsToken(whole)
    ensures Clean(Pieces(t)) ==> Clean(Pieces(whole))
  {
    assert whole[12..] == t;
    UnescapedPair(whole, p, q);
    PiecesUnfold(whole, p);
    PiecesUnfold(rest, q);
    if Clean(Pieces(t)) {
      CleanFront(Pieces(rest));
      CleanFront(Pieces(whole));
    }
  }

  lemma {:induction false} NoBackslash(c: Scalar)
    requires c != 92 && c != 34
    ensures 92 !in Utf8(c) && 34 !in Utf8(c)
  {
  }

  lemma {:induction false} ShortIsEscape(letter: Byte)
    requires JsonEscape(letter).Some?
    ensures letter != 117 && 0 < JsonEscape(letter).value < 128
    ensures [ShortByte(letter)] == Utf8(JsonEscape(letter).value)
  {
  }

  lemma {:induction false} CodeIsUtf8(c: Scalar)
    ensures CodeBytes(c) == Utf8(if c == 0 then 0xFFFD else c)
  {
  }

  lemma {:induction false} UnitIsUtf8(code: int)
    requires 0 <= code < 65536
    ensures IsSurrogate(code) <==> High(code) || Low(code)
    ensures UnitBytes(code) == Utf8(if code == 0 || IsSurrogate(code) then 0xFFFD else code)
  {
  }

  lemma {:induction false} HexDecodes(digits: Bytes, t: Bytes, code: int)
    requires HexNumber(digits) == Some(code) && 0 <= code < 65536 && !(High(code) && StartsLow(t))
    ensures Decodes([92, 117] + digits, UnitBytes(code), t)
    ensures !High(code) ==> KeepsClean([92, 117] + digits, t)
  {
    CodeFirst(digits, t);
    SingleDecodes([92, 117] + digits, Code(code, digits), t);
  }

  lemma {:induction false} SpeltDecodes(s: Spelt, t: Bytes)
    requires ValidSpelt(s) && !(LoneHigh(s) && StartsLow(t))
    ensures Decodes(SpeltText(s), SpeltBytes(s), t)
    ensures !s.Lone? ==> KeepsClean(SpeltText(s), t)
  {
    match s
    case Raw(c) =>
      NoBackslash(c);
      PlainDecodes(Utf8(c), t);
    case Escape(letter) =>
      ShortIsEscape(letter);
      SingleDecodes([92, letter], Short(letter), t);
    case Hex(digits) =>
      HexBounds(digits);
      UnitIsUtf8(HexNumber(digits).value);
      HexDecodes(digits, t, HexNumber(digits).value);
    case HexPair(high, low) =>
      CodeIsUtf8(Pair(HexNumber(high).value, HexNumber(low).value));
      PairDecodes(high, low, t);
    case Lone(digits) =>
      HexBounds(digits);
      UnitIsUtf8(HexNumber(digits).value);
      HexDecodes(digits, t, HexNumber(digits).value);
  }

  lemma {:induction false} LowFirst(s: Spelt, t: Bytes)
    requires ValidSpelt(s) && StartsLow(SpeltText(s) + t)
    ensures LoneLow(s)
  {
    match s
    case Raw(c) => NoBackslash(c);
    case Escape(letter) => ShortIsEscape(letter);
    case Hex(digits) =>
      HexBounds(digits);
      UnitIsUtf8(HexNumber(digits).value);
      CodeFirst(digits, t);
    case HexPair(high, low) =>
      Regroup([92, 117] + high, [92, 117] + low, t);
      CodeFirst(high, ([92, 117] + low) + t);
    case Lone(digits) => CodeFirst(digits, t);
  }

  // ---- Whole strings

  /**
   On every well-formed string the walking decoder gives the UTF-8 bytes of the characters the string stands for, with NUL
   and every lone surrogate replaced by U+FFFD; the splitting decoder gives the same exactly when it skips nothing.
   */
  lemma {:induction false} DecodersMean(spelling: seq<Spelt>)
    requires AllValid(spelling)
    ensures IsToken(SpellingText(spelling))
    ensures Unescaped(SpellingText(spelling)) == Utf8All(WithoutNul(SpellingScalars(spelling)))
    ensures Emitted(SpellingText(spelling)) == Utf8All(WithoutNul(SpellingScalars(spelling)))
       <==> Clean(Pieces(SpellingText(spelling)))
  {
    if spelling != [] {
      var s, rest := spelling[0], spelling[1..];
      TailIsValid(spelling);
      DecodersMean(rest);
      NoPairAtFront(spelling, rest);
      SpeltDecodes(s, SpellingText(rest));
    }
    DecodersAgree(SpellingText(spelling));
  }

  lemma {:induction false} NoPairAtFront(spelling: seq<Spelt>, rest: seq<Spelt>)
    requires AllValid(spelling) && spelling != [] && rest == spelling[1..]
    ensures StartsLow(SpellingText(rest)) ==> !LoneHigh(spelling[0])
  {
    if StartsLow(SpellingText(rest)) {
      var i := 1;
      assert rest[0] == spelling[i] && spelling[0] == spelling[i - 1];
      LowFirst(rest[0], SpellingText(rest[1..]));
    }
  }

  lemma {:induction false} TailIsValid(spelling: seq<Spelt>)
    requires AllValid(spelling) && spelling != []
    ensures AllValid(spelling[1..])
  {
    var rest := spelling[1..];
    forall i | 0 < i < |rest| ensures !(LoneHigh(rest[i - 1]) && LoneLow(rest[i])) {
      assert rest[i - 1] == spelling[i] && rest[i] == spelling[i + 1];
    }
  }

  lemma {:induction false} NothingSkipped(spelling: seq<Spelt>)
    requires AllValid(spelling) && forall i :: 0 <= i < |spelling| ==> !spelling[i].Lone?
    ensures Clean(Pieces(SpellingText(spelling)))
  {
    if spelling != [] {
      TailIsValid(spelling);
      NothingSkipped(spelling[1..]);
      SpeltDecodes(spelling[0], SpellingText(spelling[1..]));
    }
  }

  /** On every well-formed string whose surrogate escapes come in adjacent pairs, both decoders give that. */
  lemma {:induction false} DecodersMeanRfc(spelling: seq<Spelt>)
    requires AllValid(spelling) && forall i :: 0 <= i < |spelling| ==> !spelling[i].Lone?
    ensures Unescaped(SpellingText(spelling)) == Utf8All(WithoutNul(SpellingScalars(spelling)))
    ensures Emitted(SpellingText(spelling)) == Utf8All(WithoutNul(SpellingScalars(spelling)))
  {
    DecodersMean(spelling);
    NothingSkipped(spelling);
  }

  // ---- What is not well-formed

  /** An escape that JSON does not know stands for its letter, in both decoders. */
  lemma {:induction false} UnknownEscape(letter: Byte, t: Bytes)
    requires JsonEscape(letter).None? && letter != 'u' as int
    ensures Unescaped([92, letter] + t) == [letter] + Unescaped(t)
    ensures Emitted([92, letter] + t) == [letter] + Emitted(t)
  {
    var whole: Bytes := [92, letter] + t;
    assert whole[2..] == t;
    UnescapedSingle(whole, Short(letter), 2);
    EmitOfShort(whole);
  }

  /** A code that is not four hexadecimal digits stays as it is written, and so does what follows. */
  lemma {:induction false} BadHexStays(t: Bytes)
    requires |t| < 4 || HexNumber(t[..4]).None?
    ensures Unescaped([92, 117] + t) == [92, 117] + Unescaped(t)
  {
    var whole: Bytes := [92, 117] + t;
    assert whole[2..] == t;
    HexIsTable(Prefix(t, 4));
    UnescapedSingle(whole, BadCode, 2);
  }
}
