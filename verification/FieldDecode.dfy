/**
 The two string decoders of scripts/json-field.awk. One walks the token character by character, the other splits it
 at backslashes and writes out the pieces. Both are put in terms of one decomposition of the token.
 */
module FieldDecode {
  import opened Bytes
  import opened Options
  import opened Unicode
  import opened Characters
  import opened Sequences

  const BACKSLASH: Byte := 92
  const LETTER_U: Byte := 117

  // ---- Hexadecimal and UTF-8

  /** Four hex digits as a number, and nothing for anything else. */
  function HexCode(d: seq<int>): (r: Option<int>)
    ensures r.Some? ==> 0 <= r.value < 65536
  {
    if AreHex(d) then Some(Hex4(d)) else None
  }

  /** The digit loop, with -1 for anything else. */
  method HexVal(digits: seq<int>) returns (total: int)
    ensures total == match HexCode(digits) case None => -1 case Some(n) => n
  {
    if |digits| != 4 { return -1; }
    total := 0;
    for i := 0 to 4
      invariant forall k :: 0 <= k < i ==> IsHex(digits[k])
      invariant total == Horner(digits, i)
    {
      if !IsHex(digits[i]) { return -1; }
      total := total * 16 + HexDigit(digits[i]);
    }
    HornerOfFour(digits);
  }

  lemma {:induction false} HornerOfFour(digits: seq<int>)
    requires |digits| == 4 && forall k :: 0 <= k < 4 ==> IsHex(digits[k])
    ensures HexCode(digits) == Some(Horner(digits, 4))
  {
    assert Horner(digits, 1) == HexDigit(digits[0]);
    assert Horner(digits, 2) == Horner(digits, 1) * 16 + HexDigit(digits[1]);
    assert Horner(digits, 3) == Horner(digits, 2) * 16 + HexDigit(digits[2]);
  }

  function Horner(digits: seq<int>, n: nat): int
    requires n <= |digits| && forall k :: 0 <= k < n ==> IsHex(digits[k])
  {
    if n == 0 then 0 else Horner(digits, n - 1) * 16 + HexDigit(digits[n - 1])
  }

  const REPLACEMENT: Bytes := [239, 191, 189]

  /** A code point as UTF-8, with NUL written as U+FFFD. */
  function CodeBytes(code: int): (r: Bytes)
    requires 0 <= code < 1114112
    ensures 1 <= |r| <= 4
  {
    if code == 0 then REPLACEMENT
    else if code < 128 then [code]
    else if code < 2048 then [192 + code / 64, 128 + code % 64]
    else if code < 65536 then [224 + code / 4096, 128 + code % 4096 / 64, 128 + code % 64]
    else [240 + code / 262144, 128 + code % 262144 / 4096, 128 + code % 4096 / 64, 128 + code % 64]
  }

  /** A single escaped code unit: a surrogate on its own becomes U+FFFD. */
  function UnitBytes(code: int): (r: Bytes)
    requires 0 <= code < 65536
    ensures 1 <= |r| <= 3
  {
    if High(code) || Low(code) then REPLACEMENT else CodeBytes(code)
  }

  function ShortByte(letter: Byte): Byte
  {
    if letter == 110 then 10
    else if letter == 116 then 9
    else if letter == 114 then 13
    else if letter == 98 then 8
    else if letter == 102 then 12
    else letter
  }

  // ---- The decomposition of a token

  datatype Piece =
    | Plain(b: Byte)
    | Short(letter: Byte)
    | Code(code: int, digits: Bytes)
    | BadCode
    | Dangling

  function Prefix(t: Bytes, n: nat): Bytes
  {
    if |t| <= n then t else t[..n]
  }

  function Drop(t: Bytes, n: nat): Bytes
  {
    if |t| <= n then [] else t[n..]
  }

  function FirstPiece(t: Bytes): (p: Piece)
    requires t != []
    ensures p.Code? ==> 0 <= p.code < 65536 && |p.digits| == 4 && |t| >= 6
  {
    if t[0] != BACKSLASH then Plain(t[0])
    else if |t| == 1 then Dangling
    else if t[1] != LETTER_U then Short(t[1])
    else if HexCode(Prefix(t[2..], 4)).Some? then Code(HexCode(Prefix(t[2..], 4)).value, t[2..6])
    else BadCode
  }

  function PieceText(p: Piece): (r: Bytes)
    ensures |r| > 0
  {
    match p
    case Plain(b) => [b]
    case Short(letter) => [BACKSLASH, letter]
    case Code(_, digits) => [BACKSLASH, LETTER_U] + digits
    case BadCode => [BACKSLASH, LETTER_U]
    case Dangling => [BACKSLASH]
  }

  function Pieces(t: Bytes): seq<Piece>
  {
    if t == [] then []
    else
      var p := FirstPiece(t);
      [p] + Pieces(t[|PieceText(p)|..])
  }

  /** A string token that has been closed does not end in the middle of an escape. */
  predicate Closed(t: Bytes)
  {
    Dangling !in Pieces(t)
  }

  // ---- Character by character

  predicate IsHigh(p: Piece) { p.Code? && High(p.code) }

  predicate IsLow(p: Piece) { p.Code? && Low(p.code) }

  /** What one piece decodes to on its own. */
  function PieceBytes(p: Piece): Bytes
  {
    match p
    case Plain(b) => [b]
    case Short(letter) => [ShortByte(letter)]
    case Code(code, _) => if 0 <= code < 65536 then UnitBytes(code) else []
    case BadCode => [BACKSLASH, LETTER_U]
    case Dangling => []
  }

  /** A high surrogate directly followed by a low one is one code point. */
  function Walked(pieces: seq<Piece>): Bytes
  {
    if pieces == [] then []
    else if |pieces| > 1 && IsHigh(pieces[0]) && IsLow(pieces[1]) then
      CodeBytes(Pair(pieces[0].code, pieces[1].code)) + Walked(pieces[2..])
    else PieceBytes(pieces[0]) + Walked(pieces[1..])
  }

  function Unescaped(t: Bytes): Bytes
  {
    Walked(Pieces(t))
  }

  lemma {:induction false} PiecesUnfold(t: Bytes, p: Piece)
    requires t != [] && p == FirstPiece(t)
    ensures |PieceText(p)| <= |t|
    ensures Pieces(t) == [p] + Pieces(t[|PieceText(p)|..])
    ensures Pieces(t)[0] == p
    ensures Pieces(t)[1..] == Pieces(t[|PieceText(p)|..])
  {
  }

  ghost predicate StartsPair(t: Bytes)
    requires t != []
  {
    IsHigh(FirstPiece(t)) && |t| > 6 && IsLow(FirstPiece(t[6..]))
  }

  lemma {:induction false} UnescapedSingle(t: Bytes, p: Piece, n: nat)
    requires t != [] && p == FirstPiece(t) && n == |PieceText(p)|
    requires !StartsPair(t)
    ensures n <= |t|
    ensures Unescaped(t) == PieceBytes(p) + Unescaped(t[n..])
  {
    PiecesUnfold(t, p);
    if IsHigh(p) && |t| > 6 {
      PiecesUnfold(t[6..], FirstPiece(t[6..]));
    }
  }

  lemma {:induction false} UnescapedPair(t: Bytes, p: Piece, q: Piece)
    requires t != [] && p == FirstPiece(t) && StartsPair(t) && q == FirstPiece(t[6..])
    ensures |t| >= 12
    ensures Unescaped(t) == CodeBytes(Pair(p.code, q.code)) + Unescaped(t[12..])
  {
    PiecesUnfold(t, p);
    PiecesUnfold(t[6..], q);
    assert t[6..][6..] == t[12..];
    assert Pieces(t)[2..] == Pieces(t[12..]);
  }

  lemma {:induction false} Suffix(text: Bytes, index: nat, k: nat)
    requires index + k <= |text|
    ensures text[index..][k..] == text[index + k..]
  {
  }

  /** One step of the walk: some pieces are taken off the text and their bytes are written. */
  method Next(text: Bytes, index: nat) returns (bytes: Bytes, next: nat)
    requires index < |text|
    ensures index < next <= |text|
    ensures Unescaped(text[index..]) == bytes + Unescaped(text[next..])
  {
    ghost var t := text[index..];
    ghost var p := FirstPiece(t);
    if text[index] != BACKSLASH {
      UnescapedSingle(t, p, 1);
      Suffix(text, index, 1);
      return [text[index]], index + 1;
    }
    if index + 1 == |text| {
      UnescapedSingle(t, p, 1);
      Suffix(text, index, 1);
      return [], index + 1;
    }
    if text[index + 1] == LETTER_U {
      bytes, next := NextCode(text, index);
      return;
    }
    UnescapedSingle(t, p, 2);
    Suffix(text, index, 2);
    return [ShortByte(text[index + 1])], index + 2;
  }

  /** The step at a `\\u`. */
  method NextCode(text: Bytes, index: nat) returns (bytes: Bytes, next: nat)
    requires index + 1 < |text| && text[index] == BACKSLASH && text[index + 1] == LETTER_U
    ensures index < next <= |text|
    ensures Unescaped(text[index..]) == bytes + Unescaped(text[next..])
  {
    ghost var t := text[index..];
    ghost var p := FirstPiece(t);
    Suffix(text, index, 2);
    var code := HexVal(Prefix(text[index + 2..], 4));
    if code < 0 {
      UnescapedSingle(t, p, 2);
      return [BACKSLASH, LETTER_U], index + 2;
    }
    bytes, next := NextUnit(text, index, code, p);
  }

  /** A code unit, and the low surrogate directly after it if it is a high one. */
  method NextUnit(text: Bytes, index: nat, code: int, ghost p: Piece) returns (bytes: Bytes, next: nat)
    requires index + 6 <= |text| && p == FirstPiece(text[index..]) && p.Code? && p.code == code
    ensures index < next <= |text|
    ensures Unescaped(text[index..]) == bytes + Unescaped(text[next..])
  {
    ghost var t := text[index..];
    Suffix(text, index, 6);
    if High(code) && Prefix(text[index + 6..], 2) == [BACKSLASH, LETTER_U] {
      Suffix(text, index + 6, 2);
      var low := HexVal(Prefix(text[index + 8..], 4));
      if Low(low) {
        UnescapedPair(t, p, FirstPiece(text[index + 6..]));
        Suffix(text, index, 12);
        return CodeBytes(Pair(code, low)), index + 12;
      }
    }
    UnescapedSingle(t, p, 6);
    return UnitBytes(code), index + 6;
  }

  /** The decoder that walks the token with an index. */
  method Unescape(text: Bytes) returns (out: Bytes)
    ensures out == Unescaped(text)
  {
    out := [];
    var index := 0;
    while index < |text|
      invariant index <= |text|
      invariant out + Unescaped(text[index..]) == Unescaped(text)
      decreases |text| - index
    {
      var bytes, next := Next(text, index);
      Regroup(out, bytes, Unescaped(text[next..]));
      out := out + bytes;
      index := next;
    }
  }
}
