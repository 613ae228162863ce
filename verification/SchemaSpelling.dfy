/**
 JSON spellings, following sections 2 to 7 of RFC 8259 restricted to integers.

 A spelling is a tree that records the white space, the order of members and the way every character is written. It
 has a text it stands for, a value it means and a condition under which it is one at all: digits without leading
 zeros, escapes of the standard, no surrogate out of place and no key twice in one object.

 The lemmas here are about its strings, numbers and white space; those about whole trees build on them.
 */
module SchemaSpelling {
  import opened Options
  import opened Unicode
  import opened Canonical
  import opened SchemaJson
  import opened Characters
  import opened Sequences

  datatype Piece = Plain(u: Unit) | Short(letter: Unit) | Hex(digits: seq<Unit>)

  datatype Core =
    | NullCore
    | BoolCore(b: bool)
    | TextCore(pieces: seq<Piece>)
    | NumberCore(negative: bool, digits: seq<Unit>)
    | EmptyArray(inside: Text)
    | ArrayCore(items: seq<Doc>)
    | EmptyObject(inside: Text)
    | ObjectCore(pairs: seq<Pair>)

  datatype Doc = Doc(before: Text, core: Core, after: Text)

  datatype Pair = Pair(before: Text, key: seq<Piece>, gap: Text, value: Doc)

  // ---- Text

  function PieceText(p: Piece): Text
  {
    match p
    case Plain(u) => [u]
    case Short(letter) => [BACKSLASH, letter]
    case Hex(digits) => [BACKSLASH, 117] + digits
  }

  function PiecesText(pieces: seq<Piece>): Text
  {
    if pieces == [] then [] else PieceText(pieces[0]) + PiecesText(pieces[1..])
  }

  function Quoted(pieces: seq<Piece>): Text
  {
    [QUOTE] + (PiecesText(pieces) + [QUOTE])
  }

  function Sign(negative: bool): Text
  {
    if negative then [MINUS] else []
  }

  function CoreText(c: Core): Text
    decreases c, 0
  {
    match c
    case NullCore => NULL_TEXT
    case BoolCore(b) => if b then TRUE_TEXT else FALSE_TEXT
    case TextCore(pieces) => Quoted(pieces)
    case NumberCore(negative, digits) => Sign(negative) + digits
    case EmptyArray(inside) => [OPEN_BRACKET] + (inside + [CLOSE_BRACKET])
    case ArrayCore(items) => [OPEN_BRACKET] + ItemsText(items)
    case EmptyObject(inside) => [OPEN_BRACE] + (inside + [CLOSE_BRACE])
    case ObjectCore(pairs) => [OPEN_BRACE] + PairsText(pairs)
  }

  function DocText(d: Doc): Text
    decreases d, 1
  {
    d.before + (CoreText(d.core) + d.after)
  }

  /** The items with commas between them, and the closing bracket. */
  function ItemsText(items: seq<Doc>): Text
    decreases items, 1
  {
    if items == [] then []
    else DocText(items[0]) + (if |items| == 1 then [CLOSE_BRACKET] else [COMMA] + ItemsText(items[1..]))
  }

  function PairText(p: Pair): Text
    decreases p, 1
  {
    p.before + (Quoted(p.key) + (p.gap + ([COLON] + DocText(p.value))))
  }

  function PairsText(pairs: seq<Pair>): Text
    decreases pairs, 1
  {
    if pairs == [] then []
    else PairText(pairs[0]) + (if |pairs| == 1 then [CLOSE_BRACE] else [COMMA] + PairsText(pairs[1..]))
  }

  // ---- Meaning

  function PieceUnit(p: Piece): Unit
  {
    match p
    case Plain(u) => u
    case Short(letter) => if ShortEscape(letter).Some? then ShortEscape(letter).value else 0
    case Hex(d) => if AreHex(d) then Hex4(d) else 0
  }

  function PiecesValue(pieces: seq<Piece>): Text
  {
    if pieces == [] then [] else [PieceUnit(pieces[0])] + PiecesValue(pieces[1..])
  }

  function CoreValue(c: Core): Value
    decreases c, 0
  {
    match c
    case NullCore => Null
    case BoolCore(b) => Bool(b)
    case TextCore(pieces) => Str(PiecesValue(pieces))
    case NumberCore(negative, digits) => Num(Signed(negative, DecimalValue(digits)))
    case EmptyArray(_) => Arr([])
    case ArrayCore(items) => Arr(ItemsValue(items))
    case EmptyObject(_) => Obj([])
    case ObjectCore(pairs) => Obj(PairsValue(pairs))
  }

  function ItemsValue(items: seq<Doc>): seq<Value>
    decreases items, 0
  {
    if items == [] then [] else [CoreValue(items[0].core)] + ItemsValue(items[1..])
  }

  function PairValue(p: Pair): Member
    decreases p, 0
  {
    Member(PiecesValue(p.key), CoreValue(p.value.core))
  }

  function PairsValue(pairs: seq<Pair>): seq<Member>
    decreases pairs, 0
  {
    if pairs == [] then [] else [PairValue(pairs[0])] + PairsValue(pairs[1..])
  }

  // ---- Which trees are spellings

  predicate ValidPiece(p: Piece)
  {
    match p
    case Plain(u) => u >= 32 && u != QUOTE && u != BACKSLASH
    case Short(letter) => ShortEscape(letter).Some?
    case Hex(d) => AreHex(d)
  }

  predicate ValidPieces(pieces: seq<Piece>)
  {
    forall i | 0 <= i < |pieces| :: ValidPiece(pieces[i])
  }

  predicate ValidString(pieces: seq<Piece>)
  {
    ValidPieces(pieces) && WellFormed(PiecesValue(pieces))
  }

  predicate ValidDigits(digits: seq<Unit>)
  {
    && |digits| > 0 && (forall i | 0 <= i < |digits| :: IsDigit(digits[i]))
    && (digits[0] == 48 ==> |digits| == 1)
    && DecimalValue(digits) <= MAX_SAFE
  }

  predicate ValidCore(c: Core)
    decreases c, 0
  {
    match c
    case NullCore => true
    case BoolCore(_) => true
    case TextCore(pieces) => ValidString(pieces)
    case NumberCore(_, digits) => ValidDigits(digits)
    case EmptyArray(inside) => AllSpace(inside)
    case ArrayCore(items) => |items| > 0 && forall i | 0 <= i < |items| :: ValidDoc(items[i])
    case EmptyObject(inside) => AllSpace(inside)
    case ObjectCore(pairs) => |pairs| > 0 && (forall i | 0 <= i < |pairs| :: ValidPair(pairs[i])) && KeysDiffer(pairs, {})
  }

  predicate ValidDoc(d: Doc)
    decreases d, 1
  {
    AllSpace(d.before) && ValidCore(d.core) && AllSpace(d.after)
  }

  predicate ValidPair(p: Pair)
    decreases p, 1
  {
    AllSpace(p.before) && ValidString(p.key) && AllSpace(p.gap) && ValidDoc(p.value)
  }

  /** The keys differ from each other, as decoded, and from those in `seen`. */
  predicate KeysDiffer(pairs: seq<Pair>, seen: set<Text>)
  {
    && (forall i | 0 <= i < |pairs| :: PiecesValue(pairs[i].key) !in seen)
    && (forall i, j | 0 <= i < j < |pairs| :: PiecesValue(pairs[i].key) != PiecesValue(pairs[j].key))
  }

  // ---- Space

  lemma {:induction false} SpaceSkips(ws: Text, s: Text)
    requires AllSpace(ws)
    ensures SkipSpace(ws + s) == SkipSpace(s)
  {
    if ws == [] {
      assert ws + s == s;
    } else {
      assert (ws + s)[1..] == ws[1..] + s;
      SpaceSkips(ws[1..], s);
    }
  }

  lemma {:induction false} SkipTwice(s: Text)
    ensures SkipSpace(SkipSpace(s)) == SkipSpace(s)
  {
  }

  lemma {:induction false} ValueSkips(s: Text)
    ensures ReadValue(SkipSpace(s)) == ReadValue(s)
  {
    SkipTwice(s);
  }

  lemma {:induction false} SkipsTo(s: Text, u: int)
    requires Begins(s, u) && !IsSpace(u)
    ensures SkipSpace(s) == s
  {
  }

  /** What was skipped is space. */
  lemma {:induction false} Skipped(s: Text) returns (ws: Text)
    ensures AllSpace(ws) && s == ws + SkipSpace(s)
  {
    if s != [] && IsSpace(s[0]) {
      var rest := Skipped(s[1..]);
      ws := [s[0]] + rest;
    } else {
      ws := [];
    }
  }

  // ---- Strings

  lemma {:induction false} UnescapePieces(pieces: seq<Piece>)
    requires ValidPieces(pieces)
    ensures Unescape(PiecesText(pieces)) == Some(PiecesValue(pieces))
  {
    if pieces != [] {
      UnescapePieces(pieces[1..]);
      var p, rest := pieces[0], PiecesText(pieces[1..]);
      var s := PieceText(p) + rest;
      match p {
        case Plain(u) => assert s[1..] == rest;
        case Short(letter) => assert s[2..] == rest;
        case Hex(digits) => assert s[2..6] == digits && s[6..] == rest;
      }
    }
  }

  lemma {:induction false} ScanPieces(s: Text, i: nat, pieces: seq<Piece>, rest: Text, end: nat)
    requires ValidPieces(pieces) && i <= |s| && s[i..] == PiecesText(pieces) + ([QUOTE] + rest)
    requires end == i + |PiecesText(pieces)| + 1
    ensures ScanEnd(s, i) == Some(end)
    decreases |pieces|
  {
    if pieces == [] {
      assert s[i] == s[i..][0];
    } else {
      var p, tail := pieces[0], PiecesText(pieces[1..]);
      Regroup(PieceText(p), tail, [QUOTE] + rest);
      CutAt(s, i, PieceText(p), tail + ([QUOTE] + rest));
      ScanPiece(s, i, p);
      ScanPieces(s, i + |PieceText(p)|, pieces[1..], rest, end);
    }
  }

  lemma {:induction false} CutAt(s: Text, i: nat, head: Text, tail: Text)
    requires i <= |s| && s[i..] == head + tail
    ensures i + |head| <= |s| && s[i..i + |head|] == head && s[i + |head|..] == tail
  {
    assert s[i..][..|head|] == head && s[i..][|head|..] == tail;
  }

  lemma {:induction false} ScanPiece(s: Text, i: nat, p: Piece)
    requires ValidPiece(p) && i + |PieceText(p)| <= |s| && s[i..i + |PieceText(p)|] == PieceText(p)
    ensures ScanEnd(s, i) == ScanEnd(s, i + |PieceText(p)|)
  {
    var t := PieceText(p);
    assert s[i] == t[0];
    if p.Hex? {
      assert t[2] == p.digits[0] && t[3] == p.digits[1] && t[4] == p.digits[2] && t[5] == p.digits[3];
      assert s[i + 2] == t[2] && s[i + 3] == t[3] && s[i + 4] == t[4] && s[i + 5] == t[5];
      assert ScanEnd(s, i) == ScanEnd(s, i + 2);
      assert ScanEnd(s, i + 2) == ScanEnd(s, i + 3) == ScanEnd(s, i + 4) == ScanEnd(s, i + 5) == ScanEnd(s, i + 6);
    }
  }

  lemma {:induction false} StringReads(pieces: seq<Piece>, rest: Text)
    requires ValidString(pieces)
    ensures Begins(Quoted(pieces) + rest, QUOTE)
    ensures ReadString(Quoted(pieces) + rest) == Some(Read(PiecesValue(pieces), rest))
  {
    var s, t := Quoted(pieces) + rest, PiecesText(pieces);
    assert s[1..] == t + ([QUOTE] + rest);
    var end := |t| + 2;
    ScanPieces(s, 1, pieces, rest, end);
    assert s[1..end - 1] == t && s[end..] == rest;
    UnescapePieces(pieces);
  }

  lemma {:induction false} UnescapeSpells(s: Text) returns (pieces: seq<Piece>)
    requires Unescape(s).Some?
    ensures ValidPieces(pieces) && PiecesText(pieces) == s && PiecesValue(pieces) == Unescape(s).value
  {
    if s == [] {
      pieces := [];
    } else if s[0] != BACKSLASH {
      var rest := UnescapeSpells(s[1..]);
      pieces := [Plain(s[0])] + rest;
      assert s == [s[0]] + s[1..];
    } else if |s| >= 6 && s[1] == 117 && IsHex(s[2]) && IsHex(s[3]) && IsHex(s[4]) && IsHex(s[5]) {
      var rest := UnescapeSpells(s[6..]);
      pieces := [Hex(s[2..6])] + rest;
      assert s == [BACKSLASH, 117] + s[2..6] + s[6..];
    } else {
      var rest := UnescapeSpells(s[2..]);
      pieces := [Short(s[1])] + rest;
      assert s == [BACKSLASH, s[1]] + s[2..];
    }
  }

  lemma {:induction false} CutString(s: Text, end: nat, inner: Text)
    requires 1 < end <= |s| && s[0] == QUOTE && s[end - 1] == QUOTE && inner == s[1..end - 1]
    ensures s == [QUOTE] + (inner + [QUOTE]) + s[end..]
  {
  }

  lemma {:induction false} StringSpells(s: Text, read: Read<Text>) returns (pieces: seq<Piece>)
    requires Begins(s, QUOTE) && ReadString(s) == Some(read)
    ensures ValidString(pieces) && PiecesValue(pieces) == read.value
    ensures s == Quoted(pieces) + read.rest
  {
    var end := ScanEnd(s, 1).value;
    pieces := UnescapeSpells(s[1..end - 1]);
    CutString(s, end, s[1..end - 1]);
  }

  // ---- Numbers

  /** What may follow a value: the end, space, a comma or a closing bracket or brace. */
  predicate Delimited(rest: Text)
  {
    rest == [] || IsSpace(rest[0]) || rest[0] == COMMA || rest[0] == CLOSE_BRACKET || rest[0] == CLOSE_BRACE
  }

  lemma {:induction false} RunOfDigits(digits: seq<Unit>, rest: Text)
    requires forall i :: 0 <= i < |digits| ==> IsDigit(digits[i])
    requires Delimited(rest)
    ensures DigitRun(digits + rest) == |digits|
  {
    if digits == [] {
      assert digits + rest == rest;
    } else {
      assert (digits + rest)[1..] == digits[1..] + rest;
      RunOfDigits(digits[1..], rest);
    }
  }

  lemma {:induction false} NumberReads(negative: bool, digits: seq<Unit>, rest: Text, s: Text)
    requires ValidDigits(digits) && Delimited(rest) && s == Sign(negative) + digits + rest
    ensures ReadNumber(s) == Some(Read(Num(Signed(negative, DecimalValue(digits))), rest))
  {
    var t := digits + rest;
    RunOfDigits(digits, rest);
    assert t[..|digits|] == digits && t[|digits|..] == rest;
    if negative {
      assert s[1..] == t;
    } else {
      assert s == t;
    }
  }

  lemma {:induction false} TakenDigits(t: Text, n: nat)
    requires n == NumberLength(t) > 0 && DecimalValue(t[..n]) <= MAX_SAFE
    ensures ValidDigits(t[..n]) && t == t[..n] + t[n..]
  {
    assert t[..n][0] == t[0];
  }

  lemma {:induction false} NumberSpells(s: Text, read: Read<Value>) returns (c: Core)
    requires ReadNumber(s) == Some(read)
    ensures c.NumberCore? && ValidDigits(c.digits) && read.value == Num(Signed(c.negative, DecimalValue(c.digits)))
    ensures s == Sign(c.negative) + c.digits + read.rest
  {
    var negative := Begins(s, MINUS);
    var t := if negative then s[1..] else s;
    var n := NumberLength(t);
    TakenDigits(t, n);
    c := NumberCore(negative, t[..n]);
    SignedText(s, negative, t, n);
  }

  lemma {:induction false} SignedText(s: Text, negative: bool, t: Text, n: nat)
    requires negative == Begins(s, MINUS) && t == (if negative then s[1..] else s) && n <= |t|
    ensures s == Sign(negative) + t[..n] + t[n..]
  {
    assert t == t[..n] + t[n..];
  }
}
