/**
 Lines of terminal output: which bytes the two notices are, and what a line counts as, whether a line feed ends it or a
 carriage return and a line feed.
 */
module NoticeLines {
  import opened Bytes
  import opened Lines
  import opened Characters
  import opened Notices

  // ---- The notices are short lines of printable characters

  predicate Printable(text: string)
  {
    forall i :: 0 <= i < |text| ==> 32 <= text[i] as int < 127
  }

  lemma {:induction false} PrintableJoin(a: string, b: string)
    requires Printable(a) && Printable(b)
    ensures Printable(a + b)
  {
  }

  lemma {:induction false} PrefixesArePrintable()
    ensures Printable(IMPORT_PREFIX) && |IMPORT_PREFIX| == 37
    ensures Printable(MANIFEST_PREFIX) && |MANIFEST_PREFIX| == 34
  {
    ImportIsPrintable();
    ManifestIsPrintable();
  }

  lemma {:induction false} ImportIsPrintable()
    ensures Printable(IMPORT_PREFIX) && |IMPORT_PREFIX| == 37
  {
  }

  lemma {:induction false} ManifestIsPrintable()
    ensures Printable(MANIFEST_PREFIX) && |MANIFEST_PREFIX| == 34
  {
  }

  lemma {:induction false} SourceIsPrintable()
    ensures Printable(SOURCE) && |SOURCE| == 44
    ensures Printable(" rev=") && Printable(" digest=") && Printable(".")
  {
  }

  lemma {:induction false} RevisionIsPrintable()
    ensures Printable(REVISION) && |REVISION| == 40
  {
  }

  lemma {:induction false} PathIsPrintable()
    ensures Printable(PATH) && |PATH| == 44
  {
  }

  lemma {:induction false} PressIsPrintable()
    ensures Printable(PRESS) && |PRESS| == 26
  {
  }

  lemma {:induction false} FirstIsPrintable()
    ensures Printable(FIRST) && |FIRST| == 196
  {
    PrefixesArePrintable();
    SourceIsPrintable();
    RevisionIsPrintable();
    PathIsPrintable();
    PressIsPrintable();
    PrintableJoin(IMPORT_PREFIX, SOURCE);
    PrintableJoin(IMPORT_PREFIX + SOURCE, " rev=");
    PrintableJoin(IMPORT_PREFIX + SOURCE + " rev=", REVISION);
    PrintableJoin(IMPORT_PREFIX + SOURCE + " rev=" + REVISION, PATH);
    PrintableJoin(IMPORT_PREFIX + SOURCE + " rev=" + REVISION + PATH, PRESS);
  }

  lemma {:induction false} SecondIsPrintable()
    ensures Printable(SECOND_HEAD) && |SECOND_HEAD| == 86
    ensures Printable(SECOND_TAIL) && |SECOND_TAIL| == 27
  {
    PrefixesArePrintable();
    SourceIsPrintable();
    PressIsPrintable();
    PrintableJoin(MANIFEST_PREFIX, SOURCE);
    PrintableJoin(MANIFEST_PREFIX + SOURCE, " digest=");
    PrintableJoin(".", PRESS);
  }

  /** A line that is short enough, with nothing in it that ends a line. */
  predicate IsLine(line: Bytes)
  {
    0 < |line| <= LONGEST_LINE && forall i :: 0 <= i < |line| ==> 32 <= line[i] < 127
  }

  lemma {:induction false} FirstIsLine(line: Bytes)
    requires IsFirst(line)
    ensures IsLine(line)
  {
    FirstIsPrintable();
    forall i | 0 <= i < |line| ensures 32 <= line[i] < 127 {
      assert line[i] == FIRST[i] as int;
    }
  }

  lemma {:induction false} SecondIsLine(line: Bytes)
    requires IsSecond(line)
    ensures IsLine(line)
  {
    SecondIsPrintable();
    var n := |SECOND_HEAD|;
    forall i | 0 <= i < |line| ensures 32 <= line[i] < 127 {
      if i < n {
        assert line[i] == SECOND_HEAD[i] as int;
      } else if i < n + 64 {
        assert LowerHex(line[i]);
      } else {
        assert line[n + 64..][i - n - 64] == SECOND_TAIL[i - n - 64] as int;
      }
    }
  }

  // ---- What is seen in them

  /** A complete line after complete lines is one more line. */
  lemma {:induction false} SplitMore(stream: Bytes, line: Bytes, longer: Bytes, lines: seq<Bytes>, more: seq<Bytes>)
    requires SplitLines(stream, LF) == Split(lines, []) && LF !in line
    requires longer == stream + line + [LF] && more == lines + [line]
    ensures SplitLines(longer, LF) == Split(more, [])
  {
    SplitIsSplit(stream, LF);
    assert more[..|lines|] == lines;
    assert Joined(more, LF) == Joined(lines, LF) + line + [LF];
    SplitIsUnique(longer, LF, Split(more, []));
  }

  lemma {:induction false} NoticesMore(lines: seq<Bytes>, line: Bytes)
    ensures AllLineNotices(lines + [line]) == AllLineNotices(lines) + LineNotices(line)
  {
    assert (lines + [line])[..|lines|] == lines;
  }

  lemma {:induction false} SeenInLines(stream: Bytes, lines: seq<Bytes>)
    requires SplitLines(stream, LF) == Split(lines, [])
    ensures Seen(stream) == AllLineNotices(lines)
  {
    assert RestNotices([]) == [];
  }

  lemma {:induction false} OneLine(first: Bytes, x: Bytes)
    requires LF !in first && x == first + [LF]
    ensures SplitLines(x, LF) == Split([first], [])
  {
    assert SplitLines<Byte>([], LF) == Split([], []);
    assert [] + first + [LF] == x;
    SplitMore([], first, x, [], [first]);
  }

  lemma {:induction false} OneIsSeen(first: Bytes)
    ensures AllLineNotices([first]) == LineNotices(first)
  {
    assert [first][..0] == [];
  }

  lemma {:induction false} AnotherIsSeen(first: Bytes, second: Bytes, x: Bytes, stream: Bytes)
    requires SplitLines(x, LF) == Split([first], []) && AllLineNotices([first]) == [First]
    requires LF !in second && LineNotices(second) == [Second] && stream == x + second + [LF]
    ensures SplitLines(stream, LF) == Split([first, second], []) && AllLineNotices([first, second]) == EXPECTED
  {
    assert [first] + [second] == [first, second];
    SplitMore(x, second, stream, [first], [first, second]);
    NoticesMore([first], second);
  }

  lemma {:induction false} BothAreSeen(first: Bytes, second: Bytes, x: Bytes, stream: Bytes)
    requires LF !in first && LineNotices(first) == [First]
    requires LF !in second && LineNotices(second) == [Second]
    requires x == first + [LF] && stream == x + second + [LF]
    ensures Seen(x) == [First] && Seen(stream) == EXPECTED
  {
    OneLine(first, x);
    OneIsSeen(first);
    SeenInLines(x, [first]);
    AnotherIsSeen(first, second, x, stream);
    SeenInLines(stream, [first, second]);
  }

  // ---- The notices as texts

  predicate LowerHexDigits(digits: Bytes)
  {
    |digits| == 64 && forall i :: 0 <= i < 64 ==> HexTable(digits[i]).Some? && !('A' as int <= digits[i] <= 'F' as int)
  }

  lemma {:induction false} LowerHexIsTable(b: Byte)
    ensures LowerHex(b) <==> HexTable(b).Some? && !('A' as int <= b <= 'F' as int)
  {
    DigitIsInTable(b);
  }

  lemma {:induction false} AsciiIsText(text: string)
    requires Printable(text)
    ensures |Ascii(text)| == |text| && forall i :: 0 <= i < |text| ==> Ascii(text)[i] == text[i] as int
  {
  }

  lemma {:induction false} StartsMeans(line: Bytes, text: string)
    requires Printable(text)
    ensures StartsWith(line, text) <==> Ascii(text) <= line
  {
    AsciiIsText(text);
    if StartsWith(line, text) {
      assert line[..|text|] == Ascii(text);
    }
  }

  /** The first notice is one text. */
  lemma {:induction false} FirstMeans(line: Bytes)
    ensures IsFirst(line) <==> line == Ascii(FIRST)
  {
    FirstIsPrintable();
    AsciiIsText(FIRST);
  }

  ghost predicate IsSpelt(line: Bytes, head: string, digits: Bytes, tail: string)
  {
    LowerHexDigits(digits) && line == Ascii(head) + digits + Ascii(tail)
  }

  /** The second has 64 hexadecimal digits in it, in lower case. */
  lemma {:induction false} SecondMeans(line: Bytes)
    ensures IsSecond(line) <==> exists digits: Bytes :: IsSpelt(line, SECOND_HEAD, digits, SECOND_TAIL)
  {
    SecondIsPrintable();
    DigitsMean(line, SECOND_HEAD, SECOND_TAIL);
  }

  lemma {:induction false} DigitsMean(line: Bytes, head: string, tail: string)
    requires Printable(head) && Printable(tail)
    ensures HasDigits(line, head, tail) <==> exists digits: Bytes :: IsSpelt(line, head, digits, tail)
  {
    forall b: Byte ensures LowerHex(b) <==> HexTable(b).Some? && !('A' as int <= b <= 'F' as int) {
      LowerHexIsTable(b);
    }
    if HasDigits(line, head, tail) {
      var n := |head|;
      PartsOfLine(line, head, tail, line[n..n + 64]);
      assert IsSpelt(line, head, line[n..n + 64], tail);
    }
    if digits: Bytes :| IsSpelt(line, head, digits, tail) {
      LineOfParts(line, head, tail, digits);
    }
  }

  lemma {:induction false} PartsOfLine(line: Bytes, head: string, tail: string, digits: Bytes)
    requires Printable(head) && Printable(tail) && HasDigits(line, head, tail) && digits == line[|head|..|head| + 64]
    ensures |digits| == 64 && forall i :: 0 <= i < 64 ==> LowerHex(digits[i])
    ensures line == Ascii(head) + digits + Ascii(tail)
  {
    AsciiIsText(head);
    AsciiIsText(tail);
    assert line[..|head|] == Ascii(head);
    assert line[|head| + 64..] == Ascii(tail);
  }

  lemma {:induction false} LineOfParts(line: Bytes, head: string, tail: string, digits: Bytes)
    requires Printable(head) && Printable(tail) && line == Ascii(head) + digits + Ascii(tail)
    requires |digits| == 64 && forall i :: 0 <= i < 64 ==> LowerHex(digits[i])
    ensures HasDigits(line, head, tail)
  {
    AsciiIsText(head);
    AsciiIsText(tail);
    assert line[|head| + 64..] == Ascii(tail);
  }

  /** A line is like a notice when it begins with one of the two prefixes. */
  lemma {:induction false} PrefixedMeans(line: Bytes)
    ensures Prefixed(line) <==> Ascii(IMPORT_PREFIX) <= line || Ascii(MANIFEST_PREFIX) <= line
  {
    PrefixesArePrintable();
    EitherMeans(line, IMPORT_PREFIX, MANIFEST_PREFIX);
  }

  lemma {:induction false} EitherMeans(line: Bytes, one: string, other: string)
    requires Printable(one) && Printable(other)
    ensures StartsEither(line, one, other) <==> Ascii(one) <= line || Ascii(other) <= line
  {
    StartsMeans(line, one);
    StartsMeans(line, other);
  }

  // ---- How a line ends

  /** Bytes of a line that is not overlong are gathered. */
  lemma {:induction false} Gathers(s: State, line: Bytes)
    requires s.pending == [] && !s.discarding && LF !in line && |line| <= 8192
    ensures OnBytes(s, line) == s.(pending := line)
  {
    if line != [] {
      var n := |line| - 1;
      Gathers(s, line[..n]);
      assert line == line[..n] + [line[n]];
    }
  }

  /** A complete line counts as itself, and nothing of it is left. */
  lemma {:induction false} LineCounts(s: State, line: Bytes)
    requires s.pending == [] && !s.discarding && LF !in line && |line| <= 8192
    ensures OnBytes(s, line + [10]) == OnLine(s, StripCr(line)).(pending := [])
  {
    Gathers(s, line);
    assert (line + [10])[..|line|] == line;
    OnLineIgnoresPending(s, line);
  }

  lemma {:induction false} OnLineIgnoresPending(s: State, line: Bytes)
    ensures OnLine(s.(pending := line), StripCr(line)).(pending := []) == OnLine(s, StripCr(line)).(pending := [])
  {
  }

  /** A carriage return before the line feed is no part of the line. */
  lemma {:induction false} CarriageReturnEndsLine(s: State, line: Bytes)
    requires s.pending == [] && !s.discarding && LF !in line && |line| + 1 <= 8192
    requires line == [] || line[|line| - 1] != 13
    ensures OnBytes(s, line + [13, 10]) == OnBytes(s, line + [10]) == OnLine(s, line).(pending := [])
  {
    LineCounts(s, line);
    OneCarriageReturn(line);
    LineCounts(s, line + [13]);
    assert line + [13, 10] == (line + [13]) + [10];
  }

  /** And of two before it only the last is not. */
  lemma {:induction false} OneCarriageReturn(line: Bytes)
    ensures StripCr(line + [13]) == line
    ensures line == [] || line[|line| - 1] != 13 ==> StripCr(line) == line
  {
    assert (line + [13])[..|line|] == line;
  }

  // ---- Single lines

  predicate IsLineEnd(end: Bytes)
  {
    end == [10] || end == [13, 10]
  }

  /** The line that an end leaves in the stream. */
  function WithReturn(line: Bytes, end: Bytes): Bytes
  {
    if end == [13, 10] then line + [13] else line
  }

  lemma {:induction false} EndsInLineFeed(line: Bytes, end: Bytes)
    requires IsLineEnd(end)
    ensures line + end == WithReturn(line, end) + [LF]
  {
  }

  lemma {:induction false} WholeLine(line: Bytes, end: Bytes)
    requires IsLine(line) && |line| < LONGEST_LINE && IsLineEnd(end)
    ensures StripCr(WithReturn(line, end)) == line && LF !in WithReturn(line, end)
    ensures |WithReturn(line, end)| <= LONGEST_LINE
  {
    OneCarriageReturn(line);
  }

  lemma {:induction false} FirstCounts(line: Bytes, end: Bytes)
    requires IsFirst(line) && IsLineEnd(end)
    ensures LF !in WithReturn(line, end) && LineNotices(WithReturn(line, end)) == [First]
  {
    FirstIsLine(line);
    FirstIsPrintable();
    WholeLine(line, end);
  }

  lemma {:induction false} SecondCounts(line: Bytes, end: Bytes)
    requires IsSecond(line) && IsLineEnd(end)
    ensures LF !in WithReturn(line, end) && LineNotices(WithReturn(line, end)) == [Second]
  {
    SecondIsLine(line);
    SecondIsPrintable();
    WholeLine(line, end);
    if IsFirst(line) {
      ExactNoticesArePrefixed(line);
    }
  }

  /** Each notice is seen, alone and complete, whichever way its line ends. */
  lemma {:induction false} NoticeIsSeen(line: Bytes, end: Bytes)
    requires IsLineEnd(end)
    ensures IsFirst(line) ==> Seen(line + end) == [First]
    ensures IsSecond(line) ==> Seen(line + end) == [Second]
  {
    var whole := WithReturn(line, end);
    EndsInLineFeed(line, end);
    if IsFirst(line) {
      FirstCounts(line, end);
      OneLineIsSeen(whole, line + end);
    }
    if IsSecond(line) {
      SecondCounts(line, end);
      OneLineIsSeen(whole, line + end);
    }
  }

  lemma {:induction false} OneLineIsSeen(line: Bytes, stream: Bytes)
    requires LF !in line && stream == line + [LF]
    ensures Seen(stream) == LineNotices(line)
  {
    OneLine(line, stream);
    OneIsSeen(line);
    SeenInLines(stream, [line]);
  }

  /** A line of more than 8192 bytes is never a notice, and is out of place as soon as it is like one. */
  lemma {:induction false} OverlongCounts(line: Bytes)
    requires LF !in line && |line| > 8192
    ensures Seen(line) == Seen(line + [10]) == if Prefixed(line) then [Bad] else []
  {
    SplitIsUnique(line, LF, Split([], line));
    assert Seen(line) == RestNotices(line);
    OneLineIsSeen(line, line + [10]);
  }

  /** A shorter line that is like a notice and is none is out of place, and any other is nothing. */
  lemma {:induction false} OtherLineCounts(line: Bytes, end: Bytes)
    requires IsLine(line) && |line| < 8192 && IsLineEnd(end) && !IsFirst(line) && !IsSecond(line)
    ensures Seen(line + end) == if Prefixed(line) then [Bad] else []
  {
    WholeLine(line, end);
    EndsInLineFeed(line, end);
    OneLineIsSeen(WithReturn(line, end), line + end);
  }

  // ---- Such lines exist

  function Zeros(n: nat): (r: Bytes)
    ensures |r| == n && forall i :: 0 <= i < n ==> r[i] == 48
  {
    if n == 0 then [] else Zeros(n - 1) + [48]
  }

  const FIRST_LINE: Bytes := Ascii(FIRST)

  const SECOND_LINE: Bytes := Ascii(SECOND_HEAD) + Zeros(64) + Ascii(SECOND_TAIL)

  lemma {:induction false} NoticesExist()
    ensures IsFirst(FIRST_LINE) && IsSecond(SECOND_LINE)
  {
    FirstMeans(FIRST_LINE);
    SecondIsPrintable();
    ZerosAreDigits(SECOND_LINE, SECOND_HEAD, SECOND_TAIL);
  }

  lemma {:induction false} ZerosAreDigits(line: Bytes, head: string, tail: string)
    requires Printable(head) && Printable(tail) && line == Ascii(head) + Zeros(64) + Ascii(tail)
    ensures HasDigits(line, head, tail)
  {
    LineOfParts(line, head, tail, Zeros(64));
  }
}
