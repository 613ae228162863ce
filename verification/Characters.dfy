/** Characters of text, as bytes or code units: white space, hexadecimal digits and decimal numerals. */
module Characters {
  import opened Options

  /** The white space of section 2 of RFC 8259. */
  predicate IsSpace(u: int) { u == 32 || u == 9 || u == 13 || u == 10 }

  predicate AllSpace(s: seq<int>)
  {
    forall i :: 0 <= i < |s| ==> IsSpace(s[i])
  }

  predicate IsHex(u: int) { 48 <= u <= 57 || 65 <= u <= 70 || 97 <= u <= 102 }

  function HexDigit(u: int): (r: int)
    requires IsHex(u)
    ensures 0 <= r < 16
  {
    if u <= 57 then u - 48 else if u <= 70 then u - 55 else u - 87
  }

  /** Four hexadecimal digits. */
  predicate AreHex(d: seq<int>)
  {
    |d| == 4 && IsHex(d[0]) && IsHex(d[1]) && IsHex(d[2]) && IsHex(d[3])
  }

  function Hex4(d: seq<int>): (r: int)
    requires AreHex(d)
    ensures 0 <= r < 65536
  {
    HexDigit(d[0]) * 4096 + HexDigit(d[1]) * 256 + HexDigit(d[2]) * 16 + HexDigit(d[3])
  }

  function Decimal(n: nat): string
  {
    if n < 10 then [(48 + n) as char] else Decimal(n / 10) + [(48 + n % 10) as char]
  }

  /** Decimal digits, without a zero in front. */
  predicate IsNumeral(s: string)
  {
    s != "" && (forall i :: 0 <= i < |s| ==> '0' <= s[i] <= '9') && (s[0] == '0' ==> s == "0")
  }

  /** The number a decimal numeral stands for, by the weight of its digits. */
  function Numeral(s: string): int
  {
    if s == "" then 0 else Numeral(s[..|s| - 1]) * 10 + (s[|s| - 1] as int - 48)
  }

  lemma {:induction false} DecimalInverts(n: nat)
    ensures Numeral(Decimal(n)) == n && IsNumeral(Decimal(n))
    ensures n > 0 ==> Decimal(n)[0] != '0'
  {
    if n < 10 {
      assert Decimal(n)[..0] == "";
    } else {
      DecimalInverts(n / 10);
      assert Decimal(n)[..|Decimal(n)| - 1] == Decimal(n / 10);
    }
  }

  /** A text in ASCII; what is not has a question mark. */
  function Ascii(text: string): (r: seq<int>)
    ensures |r| == |text| && forall i :: 0 <= i < |r| ==> 0 <= r[i] < 128
    ensures forall i :: 0 <= i < |text| && text[i] as int < 128 ==> r[i] == text[i] as int
  {
    if text == "" then [] else [if text[0] as int < 128 then text[0] as int else 63] + Ascii(text[1..])
  }

  lemma {:induction false} AsciiIs(text: string, r: seq<int>)
    requires |r| == |text| && forall i :: 0 <= i < |text| ==> r[i] == text[i] as int < 128
    ensures Ascii(text) == r
  {
  }

  /** The two-character escapes of section 7 of RFC 8259, by the letter after the backslash. */
  function JsonEscape(letter: int): Option<int>
  {
    if letter == '"' as int then Some('"' as int)
    else if letter == '\\' as int then Some('\\' as int)
    else if letter == '/' as int then Some('/' as int)
    else if letter == 'b' as int then Some(8)
    else if letter == 'f' as int then Some(12)
    else if letter == 'n' as int then Some('\n' as int)
    else if letter == 'r' as int then Some('\r' as int)
    else if letter == 't' as int then Some('\t' as int)
    else None
  }

  /** A hexadecimal digit, by table. */
  function HexTable(u: int): Option<int>
  {
    match u
    case 48 => Some(0)
    case 49 => Some(1)
    case 50 => Some(2)
    case 51 => Some(3)
    case 52 => Some(4)
    case 53 => Some(5)
    case 54 => Some(6)
    case 55 => Some(7)
    case 56 => Some(8)
    case 57 => Some(9)
    case 97 => Some(10)
    case 98 => Some(11)
    case 99 => Some(12)
    case 100 => Some(13)
    case 101 => Some(14)
    case 102 => Some(15)
    case 65 => Some(10)
    case 66 => Some(11)
    case 67 => Some(12)
    case 68 => Some(13)
    case 69 => Some(14)
    case 70 => Some(15)
    case _ => None
  }

  /** Four digits of the table and the number they write, the most significant first. */
  function HexNumber(d: seq<int>): Option<int>
  {
    if |d| == 4 && HexTable(d[0]).Some? && HexTable(d[1]).Some? && HexTable(d[2]).Some? && HexTable(d[3]).Some? then
      Some(((HexTable(d[0]).value * 16 + HexTable(d[1]).value) * 16 + HexTable(d[2]).value) * 16 + HexTable(d[3]).value)
    else None
  }

  lemma {:induction false} DigitIsInTable(u: int)
    ensures IsHex(u) == HexTable(u).Some?
    ensures IsHex(u) ==> HexTable(u) == Some(HexDigit(u))
  {
  }

  /** Reading four digits is what the table says. */
  lemma {:induction false} HexIsTable(d: seq<int>)
    ensures AreHex(d) == HexNumber(d).Some?
    ensures AreHex(d) ==> HexNumber(d) == Some(Hex4(d))
  {
    forall u ensures IsHex(u) == HexTable(u).Some? && (IsHex(u) ==> HexTable(u) == Some(HexDigit(u))) {
      DigitIsInTable(u);
    }
  }

  /** The white space of JSON is the blank, the tab and the two line ends. */
  lemma {:induction false} SpaceIs(u: int)
    ensures IsSpace(u) <==> u == ' ' as int || u == '\t' as int || u == '\n' as int || u == '\r' as int
  {
  }
}
