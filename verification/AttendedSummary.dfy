/** What the summary of an attended run says, and which reason a failed run gives. */
module AttendedSummary {
  import opened Bytes
  import opened Options
  import opened Characters
  import opened Lines
  import opened Attended

  // ---- The lines of the summary

  predicate OneLine(s: string) { '\n' !in s }

  lemma {:induction false} DecimalIsOneLine(n: nat)
    ensures OneLine(Decimal(n))
  {
    if n >= 10 {
      DecimalIsOneLine(n / 10);
    }
  }

  lemma {:induction false} OneMoreLine(stream: string, lines: seq<string>, line: string)
    requires SplitLines(stream, '\n') == Split(lines, "") && OneLine(line)
    ensures SplitLines(stream + line + ['\n'], '\n') == Split(lines + [line], "")
  {
    SplitIsSplit(stream, '\n');
    var longer := lines + [line];
    assert longer[..|lines|] == lines;
    assert stream + [] == stream;
    SplitIsUnique(stream + line + ['\n'], '\n', Split(longer, ""));
  }

  lemma {:induction false} ThreeLines(a: string, b: string, c: string, stream: string)
    requires OneLine(a) && OneLine(b) && OneLine(c)
    requires stream == "\n" + a + "\n" + b + "\n" + c + "\n"
    ensures SplitLines(stream, '\n') == Split(["", a, b, c], "")
  {
    var blank: string := "\n";
    assert blank[..0] == "" && SplitLines(blank, '\n') == Split([""], "");
    OneMoreLine(blank, [""], a);
    var first := blank + a + ['\n'];
    OneMoreLine(first, ["", a], b);
    var second := first + b + ['\n'];
    OneMoreLine(second, ["", a, b], c);
    assert second + c + ['\n'] == stream;
    assert ["", a, b] + [c] == ["", a, b, c];
  }

  /** A line that gives a number under a name. */
  predicate Gives(line: string, name: string, n: nat)
  {
    name <= line && IsNumeral(line[|name|..]) && Numeral(line[|name|..]) == n
  }

  lemma {:induction false} NumberGives(name: string, n: nat)
    requires OneLine(name)
    ensures Gives(name + Decimal(n), name, n) && OneLine(name + Decimal(n))
  {
    DecimalIsOneLine(n);
    DecimalInverts(n);
    assert (name + Decimal(n))[|name|..] == Decimal(n);
  }

  /** Each reason has its own name. */
  predicate Names(name: string, failure: Failure)
  {
    && (name == "malformed_notice" <==> failure == NoticeFailure(Notices.MalformedNotice))
    && (name == "unexpected_or_malformed_notice" <==> failure == NoticeFailure(Notices.UnexpectedNotice))
    && (name == "terminal_not_closed" <==> failure == TerminalNotClosed)
    && (name == "interrupted" <==> failure == Interrupted)
    && (name == "missing_attended_notice" <==> failure == MissingNotice)
    && (name == "release_check_failed" <==> failure == ReleaseFailed)
  }

  lemma {:induction false} LengthsName(name: string, failure: Failure)
    requires name == FailureName(failure)
    ensures |name| == match failure
                      case NoticeFailure(MalformedNotice) => 16
                      case NoticeFailure(UnexpectedNotice) => 30
                      case TerminalNotClosed => 19
                      case Interrupted => 11
                      case MissingNotice => 23
                      case ReleaseFailed => 20
  {
  }

  lemma {:induction false} FailureNames(name: string, failure: Failure)
    requires name == FailureName(failure)
    ensures Names(name, failure)
  {
    LengthsName(name, failure);
  }

  lemma {:induction false} NameIsOneLine(name: string, failure: Failure)
    requires name == FailureName(failure)
    ensures OneLine(name)
  {
  }

  predicate GivesReason(line: string, failure: Failure)
  {
    var name := "ATTENDED_FAILURE=";
    name <= line && Names(line[|name|..], failure)
  }

  lemma {:induction false} Unlabelled(before: string, name: string, line: string)
    requires line == before + name
    ensures before <= line && line[|before|..] == name
  {
  }

  lemma {:induction false} ReasonGives(line: string, failure: Failure)
    requires line == "ATTENDED_FAILURE=" + FailureName(failure)
    ensures OneLine(line) && GivesReason(line, failure)
  {
    var name := FailureName(failure);
    Unlabelled("ATTENDED_FAILURE=", name, line);
    FailureNames(name, failure);
    NameIsOneLine(name, failure);
  }

  lemma {:induction false} ExitGives(line: string, releaseExit: Option<nat>)
    requires line == "RELEASE_EXIT=" + (if releaseExit.Some? then Decimal(releaseExit.value) else "unavailable")
    ensures OneLine(line)
    ensures releaseExit.Some? ==> Gives(line, "RELEASE_EXIT=", releaseExit.value)
    ensures releaseExit.None? ==> line == "RELEASE_EXIT=unavailable"
  {
    if releaseExit.Some? {
      NumberGives("RELEASE_EXIT=", releaseExit.value);
    }
  }

  lemma {:induction false} Regroup(
    before: string, newline: string, name: string, text: string, labelled: string, line: string)
    requires labelled == newline + name && line == name + text
    ensures before + labelled + text == before + newline + line
  {
  }

  lemma {:induction false} LabelledLines(
    p: string, x: string, q: string, y: string, r: string, z: string, p': string, q': string, r': string, four: string)
    requires p' == "\n" + p && q' == "\n" + q && r' == "\n" + r
    requires OneLine(p + x) && OneLine(q + y) && OneLine(r + z)
    requires four == p' + x + q' + y + r' + z + "\n"
    ensures SplitLines(four, '\n') == Split(["", p + x, q + y, r + z], "")
  {
    var a, b, c := p + x, q + y, r + z;
    Regroup("", "\n", p, x, p', a);
    Regroup("\n" + a, "\n", q, y, q', b);
    Regroup("\n" + a + "\n" + b, "\n", r, z, r', c);
    assert "" + p' + x == p' + x && "" + "\n" + a == "\n" + a;
    ThreeLines(a, b, c, four);
  }

  lemma {:induction false} Labels(p: string, q: string, r: string, p': string, q': string, r': string)
    requires p == "RELEASE_EXIT=" && q == "ATTENDED_ANSWERS=" && r == "DURATION_S="
    requires p' == "\nRELEASE_EXIT=" && q' == "\nATTENDED_ANSWERS=" && r' == "\nDURATION_S="
    ensures p' == "\n" + p && q' == "\n" + q && r' == "\n" + r && OneLine(p) && OneLine(q) && OneLine(r)
  {
  }

  predicate GivesNumbers(lines: seq<string>, releaseExit: Option<nat>, answers: nat, seconds: nat)
  {
    && |lines| >= 4 && lines[0] == ""
    && (releaseExit.Some? ==> Gives(lines[1], "RELEASE_EXIT=", releaseExit.value))
    && (releaseExit.None? ==> lines[1] == "RELEASE_EXIT=unavailable")
    && Gives(lines[2], "ATTENDED_ANSWERS=", answers) && Gives(lines[3], "DURATION_S=", seconds)
  }

  /** The lines before the reason. */
  lemma {:induction false} NumbersAreLines(
    releaseExit: Option<nat>, answers: nat, seconds: nat, p: string, q: string, r: string,
    p': string, q': string, r': string, exit: string, four: string, lines: seq<string>)
    requires p == "RELEASE_EXIT=" && q == "ATTENDED_ANSWERS=" && r == "DURATION_S="
    requires p' == "\n" + p && q' == "\n" + q && r' == "\n" + r && OneLine(p) && OneLine(q) && OneLine(r)
    requires exit == if releaseExit.Some? then Decimal(releaseExit.value) else "unavailable"
    requires four == p' + exit + q' + Decimal(answers) + r' + Decimal(seconds) + "\n"
    requires lines == ["", p + exit, q + Decimal(answers), r + Decimal(seconds)]
    ensures SplitLines(four, '\n') == Split(lines, "") && GivesNumbers(lines, releaseExit, answers, seconds)
  {
    ExitGives(lines[1], releaseExit);
    NumberGives(q, answers);
    NumberGives(r, seconds);
    LabelledLines(p, exit, q, Decimal(answers), r, Decimal(seconds), p', q', r', four);
  }

  /** A text without a reason, or with one in a line of its own. */
  lemma {:induction false} ReasonIsLine(four: string, numbers: seq<string>, failure: Option<Failure>, text: string)
    requires SplitLines(four, '\n') == Split(numbers, "")
    requires text == if failure.Some? then four + ("ATTENDED_FAILURE=" + FailureName(failure.value)) + ['\n'] else four
    ensures failure.None? ==> SplitLines(text, '\n') == Split(numbers, "")
    ensures failure.Some? ==> exists line: string ::
      SplitLines(text, '\n') == Split(numbers + [line], "") && GivesReason(line, failure.value)
  {
    if failure.Some? {
      var line := "ATTENDED_FAILURE=" + FailureName(failure.value);
      ReasonGives(line, failure.value);
      OneMoreLine(four, numbers, line);
    }
  }

  lemma {:induction false} SummaryIs(
    releaseExit: Option<nat>, answers: nat, seconds: nat, failure: Option<Failure>, exit: string, four: string)
    requires exit == if releaseExit.Some? then Decimal(releaseExit.value) else "unavailable"
    requires four == "\nRELEASE_EXIT=" + exit + "\nATTENDED_ANSWERS=" + Decimal(answers)
                     + "\nDURATION_S=" + Decimal(seconds) + "\n"
    ensures Summary(releaseExit, answers, seconds, failure) ==
            if failure.Some? then four + ("ATTENDED_FAILURE=" + FailureName(failure.value)) + ['\n'] else four
  {
  }

  /** The lines of the summary give back what it was made of. */
  lemma {:induction false} SummaryMeans(
    releaseExit: Option<nat>, answers: nat, seconds: nat, failure: Option<Failure>, lines: seq<string>, rest: string)
    requires SplitLines(Summary(releaseExit, answers, seconds, failure), '\n') == Split(lines, rest)
    ensures rest == "" && |lines| == (if failure.Some? then 5 else 4)
    ensures GivesNumbers(lines, releaseExit, answers, seconds)
    ensures failure.Some? ==> GivesReason(lines[4], failure.value)
  {
    var p, q, r := "RELEASE_EXIT=", "ATTENDED_ANSWERS=", "DURATION_S=";
    var p', q', r' := "\nRELEASE_EXIT=", "\nATTENDED_ANSWERS=", "\nDURATION_S=";
    var exit := if releaseExit.Some? then Decimal(releaseExit.value) else "unavailable";
    var four := p' + exit + q' + Decimal(answers) + r' + Decimal(seconds) + "\n";
    var numbers := ["", p + exit, q + Decimal(answers), r + Decimal(seconds)];
    Labels(p, q, r, p', q', r');
    NumbersAreLines(releaseExit, answers, seconds, p, q, r, p', q', r', exit, four, numbers);
    SummaryIs(releaseExit, answers, seconds, failure, exit, four);
    ReasonIsLine(four, numbers, failure, Summary(releaseExit, answers, seconds, failure));
  }

  // ---- The reason of a failed run

  lemma {:induction false} FollowsAlways(chunks: seq<Bytes>)
    ensures Follows(chunks, Notices.OnBytes(Notices.START, Flatten(chunks)), Schedule(chunks), FirstFailure(chunks))
  {
    if chunks != [] {
      var n := |chunks| - 1;
      LastRead(chunks, n);
      FollowsAlways(chunks[..n]);
      Notices.ReadsJoin(Notices.START, Flatten(chunks[..n]), chunks[n]);
      NothingTakenBack(Notices.OnBytes(Notices.START, Flatten(chunks[..n])), chunks[n]);
    }
  }

  lemma {:induction false} FirstIsOfNotice(chunks: seq<Bytes>)
    ensures FirstFailure(chunks).Some? ==> FirstFailure(chunks).value.NoticeFailure?
  {
    if chunks != [] {
      FirstIsOfNotice(chunks[..|chunks| - 1]);
    }
  }

  /** A run that read only expected notices, in order. */
  ghost predicate InOrder(chunks: seq<Bytes>)
  {
    Notices.Seen(Flatten(chunks)) <= Notices.EXPECTED
  }

  /** Both came, and each could be answered. */
  ghost predicate BothAnswered(chunks: seq<Bytes>)
  {
    Notices.Seen(Flatten(chunks)) == Notices.EXPECTED && TwoChances(chunks)
  }

  /** Of several things that went wrong the reason given is the first in this order, and only that one. */
  lemma {:induction false} ReasonIs(
    chunks: seq<Bytes>, interrupted: bool, terminalOpen: bool, releaseExit: Option<nat>, reason: Option<Failure>)
    requires reason == Verdict(chunks, interrupted, terminalOpen, releaseExit)
    ensures !InOrder(chunks) <==> reason.Some? && reason.value.NoticeFailure?
    ensures reason == Some(TerminalNotClosed) <==> InOrder(chunks) && terminalOpen
    ensures reason == Some(Interrupted) <==> InOrder(chunks) && !terminalOpen && interrupted
    ensures reason == Some(MissingNotice) <==>
      InOrder(chunks) && !terminalOpen && !interrupted && !BothAnswered(chunks)
    ensures reason == Some(ReleaseFailed) <==>
      InOrder(chunks) && !terminalOpen && !interrupted && BothAnswered(chunks) && releaseExit != Some(0)
  {
    FollowsAlways(chunks);
    FirstIsOfNotice(chunks);
    var seen := Notices.Seen(Flatten(chunks));
    Notices.AutomatonReads(Flatten(chunks), Notices.OnBytes(Notices.START, Flatten(chunks)));
    if seen <= Notices.EXPECTED {
      ScheduleCounts(chunks);
      assert |seen| == 2 ==> seen == Notices.EXPECTED;
    }
  }
}
