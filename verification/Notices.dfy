/**
 The notice automaton of scripts/attended-pty.py: it reads terminal output byte by byte and counts the two exact
 notices it may answer, in their order. Anything else that begins like a notice is a failure.
 */
module Notices {
  import opened Bytes
  import opened Options
  import opened Lines
  import opened Sequences

  const IMPORT_PREFIX := "Authorize pinned public skill import:"
  const MANIFEST_PREFIX := "Admit exact public skill manifest:"

  const SOURCE := " source=https://github.com/openai/skills.git"
  const REVISION := "49f948faa9258a0c61caceaf225e179651397431"
  const PATH := " path=skills/.curated/security-threat-model."
  const PRESS := " Type yes and press Enter."

  const FIRST := IMPORT_PREFIX + SOURCE + " rev=" + REVISION + PATH + PRESS

  const SECOND_HEAD := MANIFEST_PREFIX + SOURCE + " digest="
  const SECOND_TAIL := "." + PRESS

  const LF: Byte := 10
  const CR: Byte := 13
  const LONGEST_LINE := 8192

  predicate StartsWith(line: Bytes, text: string)
  {
    |text| <= |line| && forall i | 0 <= i < |text| :: line[i] == text[i] as int
  }

  predicate StartsEither(line: Bytes, one: string, other: string)
  {
    StartsWith(line, one) || StartsWith(line, other)
  }

  predicate Prefixed(line: Bytes)
  {
    StartsEither(line, IMPORT_PREFIX, MANIFEST_PREFIX)
  }

  predicate IsFirst(line: Bytes)
  {
    |line| == |FIRST| && StartsWith(line, FIRST)
  }

  predicate LowerHex(b: Byte)
  {
    48 <= b <= 57 || 97 <= b <= 102
  }

  /** 64 hexadecimal digits between two texts. */
  predicate HasDigits(line: Bytes, head: string, tail: string)
  {
    var n := |head|;
    && |line| == n + 64 + |tail|
    && StartsWith(line, head)
    && (forall i | n <= i < n + 64 :: LowerHex(line[i]))
    && StartsWith(line[n + 64..], tail)
  }

  predicate IsSecond(line: Bytes)
  {
    HasDigits(line, SECOND_HEAD, SECOND_TAIL)
  }

  function StripCr(line: Bytes): Bytes
  {
    if |line| > 0 && line[|line| - 1] == CR then line[..|line| - 1] else line
  }

  // ---- What the automaton is for

  datatype Notice = First | Second | Bad

  /** How a complete line counts; an overlong line is never one of the two exact notices. */
  function LineNotices(line: Bytes): seq<Notice>
  {
    if |line| > LONGEST_LINE then (if Prefixed(line) then [Bad] else [])
    else if IsFirst(StripCr(line)) then [First]
    else if IsSecond(StripCr(line)) then [Second]
    else if Prefixed(StripCr(line)) then [Bad]
    else []
  }

  /** An unterminated line already counts once it is overlong. */
  function RestNotices(rest: Bytes): seq<Notice>
  {
    if |rest| > LONGEST_LINE && Prefixed(rest) then [Bad] else []
  }

  function AllLineNotices(lines: seq<Bytes>): seq<Notice>
  {
    if lines == [] then [] else AllLineNotices(lines[..|lines| - 1]) + LineNotices(lines[|lines| - 1])
  }

  /** The notices in a stream of output, by its lines and with no state. */
  function Seen(stream: Bytes): seq<Notice>
  {
    var split := SplitLines(stream, LF);
    AllLineNotices(split.lines) + RestNotices(split.rest)
  }

  const EXPECTED: seq<Notice> := [First, Second]

  // ---- The automaton

  datatype Failure = MalformedNotice | UnexpectedNotice

  datatype State = State(pending: Bytes, discarding: bool, answers: nat, failure: Option<Failure>)

  const START := State([], false, 0, None)

  function OnLine(state: State, line: Bytes): State
  {
    if IsFirst(line) && state.answers == 0 then state.(answers := 1)
    else if IsSecond(line) && state.answers == 1 then state.(answers := 2)
    else if IsFirst(line) || IsSecond(line) || Prefixed(line) then state.(failure := Some(UnexpectedNotice))
    else state
  }

  function OnByte(state: State, byte: Byte): State
  {
    if byte == LF then
      var after := if state.discarding then state else OnLine(state, StripCr(state.pending));
      after.(pending := [], discarding := false)
    else if state.discarding then state
    else if |state.pending| + 1 > LONGEST_LINE then
      state.(pending := [], discarding := true,
             failure := if Prefixed(state.pending + [byte]) then Some(MalformedNotice) else state.failure)
    else state.(pending := state.pending + [byte])
  }

  function OnBytes(state: State, data: Bytes): State
  {
    if data == [] then state else OnByte(OnBytes(state, data[..|data| - 1]), data[|data| - 1])
  }

  class Watcher {
    var pending: Bytes
    var discarding: bool
    var answers: nat
    var failure: Option<Failure>

    ghost function View(): State
      reads this
    {
      State(pending, discarding, answers, failure)
    }

    constructor ()
      ensures View() == START
    {
      pending, discarding, answers, failure := [], false, 0, None;
    }

    method Feed(data: Bytes)
      modifies this
      ensures View() == OnBytes(old(View()), data)
    {
      for i := 0 to |data|
        invariant View() == OnBytes(old(View()), data[..i])
      {
        assert data[..i + 1][..i] == data[..i];
        var byte := data[i];
        if byte == LF {
          if !discarding {
            Line(StripCr(pending));
          }
          pending := [];
          discarding := false;
        } else if !discarding {
          pending := pending + [byte];
          if |pending| > LONGEST_LINE {
            if Prefixed(pending) {
              failure := Some(MalformedNotice);
            }
            pending := [];
            discarding := true;
          }
        }
      }
      assert data[..|data|] == data;
    }

    method Line(line: Bytes)
      modifies this`answers, this`failure
      ensures View() == OnLine(old(View()), line)
    {
      var first, second := IsFirst(line), IsSecond(line);
      if first && answers == 0 {
        answers := 1;
        return;
      }
      if second && answers == 1 {
        answers := 2;
        return;
      }
      if first || second || Prefixed(line) {
        failure := Some(UnexpectedNotice);
      }
    }
  }

  // ---- The automaton does what it is for

  /** What the automaton makes of the notices seen: how many it counts and whether it fails. */
  ghost predicate Judges(state: State, seen: seq<Notice>)
  {
    && (state.failure.None? <==> seen <= EXPECTED)
    && (state.failure.None? ==> state.answers == |seen|)
    && state.answers <= 2
  }

  /** The state after a stream, in terms of its lines and notices. */
  ghost predicate Reads(state: State, stream: Bytes)
  {
    var rest := SplitLines(stream, LF).rest;
    && state.discarding == (|rest| > LONGEST_LINE)
    && state.pending == (if |rest| > LONGEST_LINE then [] else rest)
    && Judges(state, Seen(stream))
  }

  lemma {:induction false} ExactNoticesArePrefixed(line: Bytes)
    ensures IsFirst(line) ==> StartsWith(line, IMPORT_PREFIX) && Prefixed(line) && !IsSecond(line)
    ensures IsSecond(line) ==> StartsWith(line, MANIFEST_PREFIX) && Prefixed(line)
  {
    assert FIRST[..|IMPORT_PREFIX|] == IMPORT_PREFIX && SECOND_HEAD[..|MANIFEST_PREFIX|] == MANIFEST_PREFIX;
    if IsFirst(line) {
      forall i | 0 <= i < |IMPORT_PREFIX| ensures line[i] == IMPORT_PREFIX[i] as int {
        assert FIRST[i] == FIRST[..|IMPORT_PREFIX|][i];
      }
      assert line[1] == IMPORT_PREFIX[1] as int;
    }
    if IsSecond(line) {
      forall i | 0 <= i < |MANIFEST_PREFIX| ensures line[i] == MANIFEST_PREFIX[i] as int {
        assert SECOND_HEAD[i] == SECOND_HEAD[..|MANIFEST_PREFIX|][i];
      }
      assert line[1] == MANIFEST_PREFIX[1] as int;
    }
  }

  /** One more notice, or none. */
  lemma {:induction false} JudgesOneMore(state: State, seen: seq<Notice>, line: Bytes)
    requires Judges(state, seen) && |line| <= LONGEST_LINE
    ensures Judges(OnLine(state, StripCr(line)), seen + LineNotices(line))
  {
    ExactNoticesArePrefixed(StripCr(line));
    var more := LineNotices(line);
    if more != [] {
      assert seen + more <= EXPECTED <==> seen <= EXPECTED && |seen| < 2 && more[0] == EXPECTED[|seen|] by {
        if seen + more <= EXPECTED {
          assert EXPECTED[|seen|] == (seen + more)[|seen|];
          assert EXPECTED[..|seen|] == seen;
        }
      }
    } else {
      assert seen + more == seen;
    }
  }

  lemma {:induction false} BadFails(state: State, seen: seq<Notice>)
    requires Judges(state, seen)
    ensures Judges(state.(failure := Some(MalformedNotice)), seen + [Bad])
  {
    assert (seen + [Bad])[|seen|] == Bad;
  }

  lemma {:induction false} ByteReads(state: State, stream: Bytes, byte: Byte)
    requires Reads(state, stream)
    ensures Reads(OnByte(state, byte), stream + [byte])
  {
    SplitExtends(stream, byte, LF);
    var before, after := SplitLines(stream, LF), SplitLines(stream + [byte], LF);
    var next := OnByte(state, byte);
    if byte == LF {
      assert after.lines[..|before.lines|] == before.lines;
      assert AllLineNotices(after.lines) == AllLineNotices(before.lines) + LineNotices(before.rest);
      if state.discarding {
        assert Seen(stream + [byte]) == Seen(stream);
      } else {
        assert Seen(stream) == AllLineNotices(before.lines);
        JudgesOneMore(state, Seen(stream), before.rest);
        assert Seen(stream + [byte]) == Seen(stream) + LineNotices(before.rest);
      }
    } else if state.discarding {
      assert Prefixed(after.rest) <==> Prefixed(before.rest);
      assert Seen(stream + [byte]) == Seen(stream);
    } else if |state.pending| + 1 > LONGEST_LINE {
      assert Seen(stream) == AllLineNotices(before.lines);
      assert after.rest == state.pending + [byte];
      if Prefixed(after.rest) {
        BadFails(state, Seen(stream));
        assert Seen(stream + [byte]) == Seen(stream) + [Bad];
      } else {
        assert Seen(stream + [byte]) == Seen(stream);
      }
    } else {
      assert Seen(stream + [byte]) == Seen(stream);
    }
  }

  lemma {:induction false} StartReads()
    ensures Reads(START, [])
  {
    assert SplitLines<Byte>([], LF) == Split([], []);
    assert Seen([]) == [];
  }

  /**
   Over every output stream: the automaton has not failed exactly when the notices seen, overlong ones included,
   are the two expected ones in order, as far as they go; and then it has counted each of them.
   */
  lemma {:induction false} AutomatonReads(stream: Bytes, state: State)
    requires state == OnBytes(START, stream)
    ensures Reads(state, stream)
  {
    if stream == [] {
      StartReads();
    } else {
      var n := |stream| - 1;
      var before := OnBytes(START, stream[..n]);
      AutomatonReads(stream[..n], before);
      ByteReads(before, stream[..n], stream[n]);
      AllButLast(stream);
    }
  }

  /** How the output is cut into reads makes no difference. */
  lemma {:induction false} ReadsJoin(state: State, first: Bytes, second: Bytes)
    ensures OnBytes(OnBytes(state, first), second) == OnBytes(state, first + second)
    decreases |second|
  {
    if second == [] {
      assert first + second == first;
    } else {
      var n := |second| - 1;
      ReadsJoin(state, first, second[..n]);
      assert (first + second)[..|first| + n] == first + second[..n];
    }
  }
}
