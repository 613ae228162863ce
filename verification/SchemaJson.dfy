/**
 The grammar that `parseSchemaJson` of clients/node/contract-manifest.mjs accepts, as functions from the text that
 is left to a value and the text after it. The text is a sequence of UTF-16 code units.
 */
module SchemaJson {
  import opened Options
  import opened Unicode
  import opened Canonical
  import opened Characters

  const QUOTE := 34
  const BACKSLASH := 92
  const COMMA := 44
  const COLON := 58
  const OPEN_BRACKET := 91
  const CLOSE_BRACKET := 93
  const OPEN_BRACE := 123
  const CLOSE_BRACE := 125
  const MINUS := 45

  datatype Read<T> = Read(value: T, rest: Text)

  predicate Begins(s: Text, u: int)
  {
    s != [] && s[0] == u
  }

  predicate IsDigit(u: int) { 48 <= u <= 57 }

  function SkipSpace(s: Text): (r: Text)
    ensures |r| <= |s|
    ensures r == [] || !IsSpace(r[0])
  {
    if s != [] && IsSpace(s[0]) then SkipSpace(s[1..]) else s
  }

  // ---- Strings

  /** The one-letter escapes: quote, backslash, slash, b, f, n, r and t. */
  function ShortEscape(u: int): Option<Unit>
  {
    if u == 34 || u == 92 || u == 47 then Some(u)
    else if u == 98 then Some(8)
    else if u == 102 then Some(12)
    else if u == 110 then Some(10)
    else if u == 114 then Some(13)
    else if u == 116 then Some(9)
    else None
  }

  /** Where the scan for the closing quote ends, counted from the opening quote; an escaped character is skipped. */
  function ScanEnd(s: Text, i: nat): (r: Option<nat>)
    ensures r.Some? ==> i < r.value <= |s| && s[r.value - 1] == QUOTE
    decreases |s| - i
  {
    if i >= |s| then None
    else if s[i] == BACKSLASH then ScanEnd(s, i + 2)
    else if s[i] == QUOTE then Some(i + 1)
    else ScanEnd(s, i + 1)
  }

  /** What JSON makes of the characters between the quotes. */
  function Unescape(s: Text): Option<Text>
  {
    if s == [] then Some([])
    else if s[0] < 32 || s[0] == QUOTE then None
    else if s[0] != BACKSLASH then Push(s[0], Unescape(s[1..]))
    else if |s| >= 6 && s[1] == 117 && IsHex(s[2]) && IsHex(s[3]) && IsHex(s[4]) && IsHex(s[5]) then
      Push(Hex4(s[2..6]), Unescape(s[6..]))
    else if |s| >= 2 && ShortEscape(s[1]).Some? then Push(ShortEscape(s[1]).value, Unescape(s[2..]))
    else None
  }

  function Push(u: Unit, rest: Option<Text>): Option<Text>
  {
    if rest.None? then None else Some([u] + rest.value)
  }

  predicate WellFormed(text: Text)
  {
    Scalars(text).Some?
  }

  function ReadString(s: Text): (r: Option<Read<Text>>)
    requires Begins(s, QUOTE)
    ensures r.Some? ==> |r.value.rest| < |s|
  {
    var end := ScanEnd(s, 1);
    if end.None? then None
    else
      var text := Unescape(s[1..end.value - 1]);
      if text.None? || !WellFormed(text.value) then None else Some(Read(text.value, s[end.value..]))
  }

  // ---- Numbers and literals

  function DigitRun(s: Text): (r: nat)
    ensures r <= |s|
    ensures forall i :: 0 <= i < r ==> IsDigit(s[i])
    ensures r < |s| ==> !IsDigit(s[r])
  {
    if s != [] && IsDigit(s[0]) then 1 + DigitRun(s[1..]) else 0
  }

  /** How many characters the number pattern takes after the sign: a lone zero, or digits not led by zero. */
  function NumberLength(s: Text): (r: nat)
    ensures r <= |s|
    ensures forall i :: 0 <= i < r ==> IsDigit(s[i])
  {
    if s == [] then 0 else if s[0] == 48 then 1 else DigitRun(s)
  }

  function DecimalValue(digits: seq<int>): int
  {
    if digits == [] then 0 else DecimalValue(digits[..|digits| - 1]) * 10 + (digits[|digits| - 1] - 48)
  }

  function Signed(negative: bool, n: int): Number
  {
    if negative && n == 0 then NegativeZero else Int(if negative then -n else n)
  }

  function ReadNumber(s: Text): (r: Option<Read<Value>>)
    ensures r.Some? ==> |r.value.rest| < |s|
  {
    var negative := Begins(s, MINUS);
    var t := if negative then s[1..] else s;
    var n := NumberLength(t);
    if n == 0 || DecimalValue(t[..n]) > MAX_SAFE then None
    else Some(Read(Num(Signed(negative, DecimalValue(t[..n]))), t[n..]))
  }

  const NULL_TEXT: Text := [110, 117, 108, 108]
  const TRUE_TEXT: Text := [116, 114, 117, 101]
  const FALSE_TEXT: Text := [102, 97, 108, 115, 101]

  // ---- Values

  function ReadValue(text: Text): (r: Option<Read<Value>>)
    ensures r.Some? ==> |r.value.rest| < |text|
    decreases |text|, 1
  {
    var s := SkipSpace(text);
    if Begins(s, QUOTE) then
      var read := ReadString(s);
      if read.None? then None else Some(Read(Str(read.value.value), read.value.rest))
    else if Begins(s, OPEN_BRACE) then
      var t := SkipSpace(s[1..]);
      if Begins(t, CLOSE_BRACE) then Some(Read(Obj([]), t[1..]))
      else
        var members := ReadMembers(t, {});
        if members.None? then None else Some(Read(Obj(members.value.value), members.value.rest))
    else if Begins(s, OPEN_BRACKET) then
      var t := SkipSpace(s[1..]);
      if Begins(t, CLOSE_BRACKET) then Some(Read(Arr([]), t[1..]))
      else
        var items := ReadItems(t);
        if items.None? then None else Some(Read(Arr(items.value.value), items.value.rest))
    else if NULL_TEXT <= s then Some(Read(Null, s[4..]))
    else if TRUE_TEXT <= s then Some(Read(Bool(true), s[4..]))
    else if FALSE_TEXT <= s then Some(Read(Bool(false), s[5..]))
    else ReadNumber(s)
  }

  /** The items of an array from the next one on, and the closing bracket. */
  function ReadItems(s: Text): (r: Option<Read<seq<Value>>>)
    ensures r.Some? ==> |r.value.rest| < |s|
    decreases |s|, 2
  {
    var item := ReadValue(s);
    if item.None? then None
    else
      var t := SkipSpace(item.value.rest);
      if Begins(t, CLOSE_BRACKET) then Some(Read([item.value.value], t[1..]))
      else if !Begins(t, COMMA) then None
      else
        var more := ReadItems(SkipSpace(t[1..]));
        if more.None? then None else Some(Read([item.value.value] + more.value.value, more.value.rest))
  }

  /** One member: its key, which must not have been seen, a colon and its value. */
  function ReadMember(s: Text, seen: set<Text>): (r: Option<Read<Member>>)
    ensures r.Some? ==> |r.value.rest| < |s|
    ensures r.Some? ==> r.value.value.key !in seen
    decreases |s|, 2
  {
    if !Begins(s, QUOTE) then None
    else
      var key := ReadString(s);
      if key.None? || key.value.value in seen then None
      else
        var t := SkipSpace(key.value.rest);
        if !Begins(t, COLON) then None
        else
          var value := ReadValue(t[1..]);
          if value.None? then None else Some(Read(Member(key.value.value, value.value.value), value.value.rest))
  }

  /** The members of an object from the next one on, and the closing brace. */
  function ReadMembers(s: Text, seen: set<Text>): (r: Option<Read<seq<Member>>>)
    ensures r.Some? ==> |r.value.rest| < |s|
    decreases |s|, 3
  {
    var member := ReadMember(s, seen);
    if member.None? then None
    else
      var t := SkipSpace(member.value.rest);
      if Begins(t, CLOSE_BRACE) then Some(Read([member.value.value], t[1..]))
      else if !Begins(t, COMMA) then None
      else
        var more := ReadMembers(SkipSpace(t[1..]), seen + {member.value.value.key});
        if more.None? then None else Some(Read([member.value.value] + more.value.value, more.value.rest))
  }

  /** A whole text is one value with space around it. */
  function ReadText(text: Text): Option<Value>
  {
    var value := ReadValue(text);
    if value.None? || SkipSpace(value.value.rest) != [] then None else Some(value.value.value)
  }
}
