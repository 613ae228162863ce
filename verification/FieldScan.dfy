/**
 The scanner of scripts/json-field.awk as an automaton that reads one byte at a time: string tokens with their
 escapes, container depth, the key at each depth and the last string bound to each requested field.
 */
module FieldScan {
  import opened Bytes
  import opened Options
  import opened FieldDecode
  import opened FieldEmit
  import opened FieldAgreement
  import opened Sequences
  import opened Characters

  const QUOTE: Byte := 34
  const COLON: Byte := 58

  /** The containing member and the fields to try in order. */
  datatype Names = Names(container: Bytes, wanted: seq<Bytes>)

  /** Between strings, with the string that was closed but not yet told a key or a value; or within a string. */
  datatype Mode = Outside(pending: Option<Bytes>) | Inside(raw: Bytes, escaped: bool)

  datatype Scan = Scan(mode: Mode, depth: int, keys: map<int, Bytes>, found: map<Bytes, Bytes>, unreadable: bool)

  const START: Scan := Scan(Outside(None), 0, map[], map[], false)

  function Bracket(c: int): int
  {
    if c == 123 || c == 91 then 1 else if c == 125 || c == 93 then -1 else 0
  }

  /** Opening less closing brackets. */
  function Delta(text: Bytes): int
  {
    if text == [] then 0 else Bracket(text[0]) + Delta(text[1..])
  }

  function Longest(least: nat, names: seq<Bytes>): nat
  {
    if names == [] then least
    else
      var last, before := names[|names| - 1], Longest(least, names[..|names| - 1]);
      if |last| > before then |last| else before
  }

  /** The length of the longest name looked for. */
  function LongestName(names: Names): nat
  {
    Longest(|names.container|, names.wanted)
  }

  /** A string of more than 4096 pieces between quotes, or too many bytes. */
  predicate Oversize(raw: Bytes)
  {
    QuoteCount(raw) + 1 > 4096 || |raw| + 1 > 65536
  }

  function Kept(raw: Bytes): Bytes
  {
    if Oversize(raw) then [] else raw
  }

  function KeyAt(keys: map<int, Bytes>, depth: int): Bytes
  {
    if depth in keys then keys[depth] else []
  }

  predicate Selected(names: Names, depth: int, keys: map<int, Bytes>)
  {
    depth == 2 && KeyAt(keys, 1) == names.container && KeyAt(keys, 2) in names.wanted
  }

  function BindKey(names: Names, s: Scan, raw: Bytes): Scan
  {
    var keys := s.keys[s.depth := DecodedKey(Kept(raw), LongestName(names))];
    var found :=
      if s.depth == 1 && keys[1] == names.container then map[]
      else if Selected(names, s.depth, keys) then s.found - {keys[2]}
      else s.found;
    s.(mode := Outside(None), keys := keys, found := found)
  }

  function BindValue(names: Names, s: Scan, raw: Bytes): Scan
  {
    if !Selected(names, s.depth, s.keys) then s.(mode := Outside(None))
    else if Oversize(raw) then s.(mode := Outside(None), unreadable := true)
    else s.(mode := Outside(None), found := s.found[KeyAt(s.keys, 2) := raw])
  }

  /** A closed string that no colon follows is a value. */
  function Settle(names: Names, s: Scan): Scan
  {
    if s.mode.Outside? && s.mode.pending.Some? then BindValue(names, s, s.mode.pending.value) else s
  }

  function Char(names: Names, s: Scan, c: Byte): Scan
  {
    match s.mode
    case Inside(raw, escaped) =>
      if escaped then s.(mode := Inside(raw + [c], false))
      else if c == QUOTE then s.(mode := Outside(Some(raw)))
      else s.(mode := Inside(raw + [c], c == BACKSLASH))
    case Outside(pending) =>
      if c == QUOTE then Settle(names, s).(mode := Inside([], false))
      else if IsSpace(c) then s
      else if c == COLON then if pending.Some? then BindKey(names, s, pending.value) else s
      else
        var settled := Settle(names, s);
        settled.(depth := settled.depth + Bracket(c))
  }

  function Chars(names: Names, s: Scan, text: Bytes): Scan
    decreases |text|
  {
    if text == [] then s else Chars(names, Char(names, s, text[0]), text[1..])
  }

  lemma {:induction false} CharsJoin(names: Names, s: Scan, a: Bytes, b: Bytes)
    ensures Chars(names, s, a + b) == Chars(names, Chars(names, s, a), b)
    decreases |a|
  {
    if a == [] {
      assert a + b == b;
    } else {
      CharsJoin(names, Char(names, s, a[0]), a[1..], b);
      assert (a + b)[1..] == a[1..] + b;
    }
  }

  lemma {:induction false} CharsOne(names: Names, s: Scan, c: Byte)
    ensures Chars(names, s, [c]) == Char(names, s, c)
  {
    assert [c][1..] == [];
  }

  // ---- The answer

  function FirstFound(wanted: seq<Bytes>, found: map<Bytes, Bytes>): Option<Bytes>
  {
    if wanted == [] then None
    else if wanted[0] in found then Some(found[wanted[0]])
    else FirstFound(wanted[1..], found)
  }

  /** The exit status and what is printed. */
  datatype Answer = Answer(status: int, out: Bytes)

  function Answered(names: Names, s: Scan): Answer
  {
    var settled := Settle(names, s);
    if settled.unreadable then Answer(65, [])
    else match FirstFound(names.wanted, settled.found)
      case None => Answer(0, [])
      case Some(raw) => Answer(0, Emitted(raw))
  }

  /** The end of the input closes whatever its last byte left open. */
  function Supplied(text: Bytes): Bytes
  {
    if text == [] || text[|text| - 1] == QUOTE then text else text + [QUOTE]
  }

  function Read(names: Names, text: Bytes): Answer
  {
    Answered(names, Chars(names, START, Supplied(text)))
  }

  // ---- A record is what lies between two quotes

  /** An odd number of backslashes at the end. */
  function Odd(text: Bytes): bool
  {
    text != [] && text[|text| - 1] == BACKSLASH && !Odd(text[..|text| - 1])
  }

  /** The quote after a record is escaped exactly when the record ends in an odd number of backslashes. */
  lemma {:induction false} InsideRecord(names: Names, s: Scan, text: Bytes)
    requires s.mode.Inside? && !s.mode.escaped && QUOTE !in text
    ensures Chars(names, s, text) == s.(mode := Inside(s.mode.raw + text, Odd(text)))
  {
    if text == [] {
      assert s.mode.raw + text == s.mode.raw;
    } else {
      var n := |text| - 1;
      InsideRecord(names, s, text[..n]);
      CharsJoin(names, s, text[..n], [text[n]]);
      CharsOne(names, Chars(names, s, text[..n]), text[n]);
      assert text == text[..n] + [text[n]];
      Regroup(s.mode.raw, text[..n], [text[n]]);
    }
  }

  /** A record within a string closes the string, or goes on with an escaped quote. */
  lemma {:induction false} StringRecord(names: Names, s: Scan, text: Bytes)
    requires s.mode.Inside? && !s.mode.escaped && QUOTE !in text
    ensures Odd(text) ==> Chars(names, s, text + [QUOTE]) == s.(mode := Inside(s.mode.raw + text + [QUOTE], false))
    ensures !Odd(text) ==> Chars(names, s, text + [QUOTE]) == s.(mode := Outside(Some(s.mode.raw + text)))
  {
    InsideRecord(names, s, text);
    CharsJoin(names, s, text, [QUOTE]);
    CharsOne(names, Chars(names, s, text), QUOTE);
  }

  /** White space and then a colon. */
  predicate ColonFirst(text: Bytes)
  {
    text != [] && (text[0] == COLON || (IsSpace(text[0]) && ColonFirst(text[1..])))
  }

  /** What the text after a closed string says about it. */
  function Classified(names: Names, s: Scan, colon: bool): Scan
  {
    if s.mode.Outside? && s.mode.pending.Some? && colon then BindKey(names, s, s.mode.pending.value)
    else Settle(names, s)
  }

  lemma {:induction false} OneOutside(names: Names, s: Scan, c: Byte, later: bool, colon: bool)
    requires s.mode.Outside? && c != QUOTE
    requires colon == (c == COLON || (IsSpace(c) && later))
    ensures Char(names, s, c).mode.Outside?
    ensures Classified(names, Char(names, s, c), later)
         == Classified(names, s, colon).(depth := Classified(names, s, colon).depth + Bracket(c))
  {
    if s.mode.pending.Some? && c != COLON && !IsSpace(c) {
      assert Settle(names, s).mode == Outside(None);
    }
  }

  /** A record between strings tells the string before it, moves the depth and opens the next string. */
  lemma {:induction false} OutsideRecord(names: Names, s: Scan, text: Bytes, after: Scan)
    requires s.mode.Outside? && QUOTE !in text
    requires after == Classified(names, s, ColonFirst(text))
    ensures Chars(names, s, text + [QUOTE]) == after.(depth := after.depth + Delta(text), mode := Inside([], false))
    decreases |text|
  {
    if text == [] {
      assert text + [QUOTE] == [QUOTE];
      CharsOne(names, s, QUOTE);
    } else {
      var next := Char(names, s, text[0]);
      OneOutside(names, s, text[0], ColonFirst(text[1..]), ColonFirst(text));
      assert (text + [QUOTE])[1..] == text[1..] + [QUOTE];
      OutsideRecord(names, next, text[1..], Classified(names, next, ColonFirst(text[1..])));
    }
  }
}
