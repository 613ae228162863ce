/** What the texts mean that `parseSchemaJson` accepts, against numerals, tables and literals written for the purpose. */
module SchemaMeaning {
  import opened Options
  import opened Unicode
  import opened Characters
  import opened Canonical
  import opened SchemaJson
  import opened SchemaSpelling
  import opened SchemaRoundTrip

  // ---- Numbers

  /** The numeral of an integer: decimal digits, behind a minus sign when it is negative. */
  function IntegerText(i: int): string
  {
    if i < 0 then "-" + Decimal(-i) else Decimal(i)
  }

  lemma {:induction false} DecimalDigits(n: nat, d: seq<int>)
    requires d == Ascii(Decimal(n))
    ensures |d| > 0 && (forall k :: 0 <= k < |d| ==> IsDigit(d[k])) && DecimalValue(d) == n
    ensures n > 0 ==> d[0] != 48
    ensures n == 0 ==> d == [48]
  {
    var s := Decimal(n);
    if n < 10 {
      assert d == [48 + n] && d[..0] == [];
    } else {
      var front := Ascii(Decimal(n / 10));
      DecimalDigits(n / 10, front);
      DecimalIsAscii(n);
      AsciiLonger(Decimal(n / 10), (48 + n % 10) as char);
      assert d == front + [48 + n % 10];
      assert d[..|d| - 1] == front;
    }
  }

  lemma {:induction false} DecimalIsAscii(n: nat)
    ensures forall k :: 0 <= k < |Decimal(n)| ==> 48 <= Decimal(n)[k] as int <= 57
  {
    if n >= 10 {
      DecimalIsAscii(n / 10);
    }
  }

  lemma {:induction false} AsciiLonger(s: string, c: char)
    requires c as int < 128
    ensures Ascii(s + [c]) == Ascii(s) + [c as int]
  {
    if s == "" {
      assert s + [c] == [c];
      assert [c][1..] == "";
    } else {
      AsciiLonger(s[1..], c);
      assert (s + [c])[1..] == s[1..] + [c];
    }
  }

  /** Every text of digits without a leading zero is the numeral of its value. */
  lemma {:induction false} DigitsAreDecimal(d: seq<Unit>)
    requires |d| > 0 && (forall k :: 0 <= k < |d| ==> IsDigit(d[k])) && (d[0] == 48 ==> |d| == 1)
    ensures DecimalValue(d) >= 0 && d == Ascii(Decimal(DecimalValue(d)))
    ensures d[0] != 48 ==> DecimalValue(d) > 0
  {
    var n := |d| - 1;
    var front := d[..n];
    if n == 0 {
      assert front == [];
    } else {
      DigitsAreDecimal(front);
      var v := DecimalValue(front);
      assert DecimalValue(d) == v * 10 + (d[n] - 48);
      assert DecimalValue(d) / 10 == v && DecimalValue(d) % 10 == d[n] - 48;
      AsciiLonger(Decimal(v), (48 + DecimalValue(d) % 10) as char);
    }
  }

  /**
   A spelling of a number is the numeral of an integer of at most 2^53 - 1 and means it, except that a minus sign before
   zero means minus zero.
   */
  lemma {:induction false} NumberMeans(negative: bool, digits: seq<Unit>) returns (n: int)
    requires ValidCore(NumberCore(negative, digits))
    ensures 0 <= n <= 9007199254740991 && digits == Ascii(Decimal(n))
    ensures CoreValue(NumberCore(negative, digits)) ==
      Num(if negative && n == 0 then NegativeZero else Int(if negative then -n else n))
  {
    NumberUnfolds(negative, digits);
    n := MagnitudeMeans(digits);
  }

  lemma {:induction false} NumberUnfolds(negative: bool, digits: seq<Unit>)
    requires ValidCore(NumberCore(negative, digits))
    ensures ValidDigits(digits)
    ensures CoreValue(NumberCore(negative, digits)) == Num(Signed(negative, DecimalValue(digits)))
  {
  }

  lemma {:induction false} MagnitudeMeans(digits: seq<Unit>) returns (n: int)
    requires ValidDigits(digits)
    ensures n == DecimalValue(digits) && 0 <= n <= 9007199254740991 && digits == Ascii(Decimal(n))
  {
    DigitsAreDecimal(digits);
    n := DecimalValue(digits);
  }

  lemma {:induction false} BareReads(c: Core, text: Text)
    requires ValidCore(c) && text == CoreText(c)
    ensures ReadText(text) == Some(CoreValue(c))
  {
    var d := Doc([], c, []);
    assert DocText(d) == text;
    SpellingIsRead(d);
  }

  /** The numeral of every integer up to 2^53 - 1 in size is parsed as that integer. */
  lemma {:induction false} IntegerIsRead(i: int)
    requires -9007199254740991 <= i <= 9007199254740991
    ensures |Ascii(IntegerText(i))| > 0 && ReadText(Ascii(IntegerText(i))) == Some(Num(Int(i)))
  {
    var n := if i < 0 then -i else i;
    var digits: Text := Ascii(Decimal(n));
    DecimalDigits(n, digits);
    if i < 0 {
      MinusFirst(Decimal(n));
    }
    BareReads(NumberCore(i < 0, digits), Ascii(IntegerText(i)));
  }

  lemma {:induction false} MinusFirst(s: string)
    ensures Ascii("-" + s) == [45] + Ascii(s)
  {
    assert ("-" + s)[1..] == s;
  }

  /** And the numeral of a greater one is refused. */
  lemma {:induction false} TooGreatIsRefused(i: int)
    requires i < -9007199254740991 || i > 9007199254740991
    ensures ReadText(Ascii(IntegerText(i))) == None
  {
    var n := if i < 0 then -i else i;
    var digits: Text := Ascii(Decimal(n));
    DecimalDigits(n, digits);
    if i < 0 {
      MinusFirst(Decimal(n));
    }
    AllDigits(digits);
    var text: Text := Ascii(IntegerText(i));
    NoNumber(i < 0, digits, text);
  }

  lemma {:induction false} AllDigits(d: Text)
    requires forall k :: 0 <= k < |d| ==> IsDigit(d[k])
    ensures DigitRun(d) == |d|
  {
    if d != [] {
      AllDigits(d[1..]);
    }
  }

  lemma {:induction false} NoNumber(negative: bool, digits: Text, text: Text)
    requires digits != [] && IsDigit(digits[0]) && digits[0] != 48 && DigitRun(digits) == |digits|
    requires DecimalValue(digits) > MAX_SAFE && text == (if negative then [45] else []) + digits
    ensures ReadText(text) == None
  {
    NumberTooGreat(negative, digits, text);
    assert !IsSpace(text[0]);
    OnlyANumber(text);
  }

  lemma {:induction false} NumberTooGreat(negative: bool, digits: Text, text: Text)
    requires digits != [] && IsDigit(digits[0]) && digits[0] != 48 && DigitRun(digits) == |digits|
    requires DecimalValue(digits) > MAX_SAFE && text == (if negative then [45] else []) + digits
    ensures text[0] == 45 || IsDigit(text[0])
    ensures ReadNumber(text) == None
  {
    var t := if negative then text[1..] else text;
    assert t == digits;
    assert digits[..|digits|] == digits;
  }

  /** What begins like a number is nothing else. */
  lemma {:induction false} OnlyANumber(text: Text)
    requires text != [] && (text[0] == 45 || IsDigit(text[0])) && ReadNumber(text) == None
    ensures ReadText(text) == None
  {
    assert SkipSpace(text) == text;
    assert !(NULL_TEXT <= text) && !(TRUE_TEXT <= text) && !(FALSE_TEXT <= text);
  }

  // ---- Strings

  /** The text of a string with one escape in it. */
  function Escaped(inside: seq<Unit>): Text
  {
    [34] + ([92] + inside + [34])
  }

  lemma {:induction false} OnePiece(p: Piece, inside: seq<Unit>, u: Unit)
    requires ValidPiece(p) && PieceText(p) == [92] + inside && PieceUnit(p) == u && !High(u) && !Low(u)
    ensures ReadText(Escaped(inside)) == Some(Str([u]))
  {
    var pieces := [p];
    assert pieces[1..] == [];
    assert PiecesText(pieces) == [92] + inside;
    assert PiecesValue(pieces) == [u];
    assert [u][1..] == [];
    BareReads(TextCore(pieces), Escaped(inside));
  }

  /** The two-character escapes are those of section 7 of RFC 8259, and no letter but u is another. */
  lemma {:induction false} EscapeMeans(letter: Unit)
    ensures JsonEscape(letter).Some? ==> ReadText(Escaped([letter])) == Some(Str([JsonEscape(letter).value]))
    ensures JsonEscape(letter).Some? <==> ValidPiece(Short(letter))
    ensures ValidPiece(Short(letter)) ==> PieceUnit(Short(letter)) == JsonEscape(letter).value
  {
    if JsonEscape(letter).Some? {
      OnePiece(Short(letter), [letter], JsonEscape(letter).value);
    }
  }

  /** A code is the number its four hexadecimal digits write. */
  lemma {:induction false} HexMeans(d: seq<Unit>)
    ensures ValidPiece(Hex(d)) <==> HexNumber(d).Some?
    ensures HexNumber(d).Some? ==> PieceUnit(Hex(d)) == HexNumber(d).value
    ensures HexNumber(d).Some? && !(0xD800 <= HexNumber(d).value <= 0xDFFF) ==>
      ReadText(Escaped([117] + d)) == Some(Str([PieceUnit(Hex(d))]))
  {
    HexIsTable(d);
    if HexNumber(d).Some? && !(0xD800 <= HexNumber(d).value <= 0xDFFF) {
      assert [92] + ([117] + d) == [92, 117] + d;
      OnePiece(Hex(d), [117] + d, HexNumber(d).value);
    }
  }

  /** A string is well-formed exactly when it is the code units of Unicode scalar values. */
  lemma {:induction false} WellFormedMeans(text: Text)
    ensures WellFormed(text) <==> exists scalars :: Units(scalars) == text
  {
    if WellFormed(text) {
      UnitsOfScalars(text);
    }
    if exists scalars :: Units(scalars) == text {
      var scalars :| Units(scalars) == text;
      ScalarsOfUnits(scalars);
    }
  }

  // ---- Literals and marks

  lemma {:induction false} NullMeans(text: Text)
    requires text == Ascii("null")
    ensures ReadText(text) == Some(Null)
  {
    AsciiIs("null", NULL_TEXT);
    BareReads(NullCore, text);
  }

  lemma {:induction false} TrueMeans(text: Text)
    requires text == Ascii("true")
    ensures ReadText(text) == Some(Bool(true))
  {
    AsciiIs("true", TRUE_TEXT);
    BareReads(BoolCore(true), text);
  }

  lemma {:induction false} FalseMeans(text: Text)
    requires text == Ascii("false")
    ensures ReadText(text) == Some(Bool(false))
  {
    AsciiIs("false", FALSE_TEXT);
    BareReads(BoolCore(false), text);
  }

  lemma {:induction false} EmptyMeans(brackets: Text, braces: Text)
    requires brackets == Ascii("[]") && braces == Ascii("{}")
    ensures ReadText(brackets) == Some(Arr([])) && ReadText(braces) == Some(Obj([]))
  {
    AsciiIs("[]", [91, 93]);
    AsciiIs("{}", [123, 125]);
    assert CoreText(EmptyArray([])) == [91, 93] && CoreText(EmptyObject([])) == [123, 125];
    BareReads(EmptyArray([]), brackets);
    BareReads(EmptyObject([]), braces);
  }

  /** The marks between parts. */
  lemma {:induction false} MarksAre()
    ensures QUOTE == '"' as int && BACKSLASH == '\\' as int && MINUS == '-' as int
    ensures COMMA == ',' as int && COLON == ':' as int
    ensures OPEN_BRACKET == '[' as int && CLOSE_BRACKET == ']' as int
    ensures OPEN_BRACE == '{' as int && CLOSE_BRACE == '}' as int
  {
  }
}
