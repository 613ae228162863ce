/** Two runs that read the same two notices: one cut between them, which succeeds, and one not cut, which fails. */
module AttendedExamples {
  import opened Bytes
  import opened Options
  import opened Notices
  import opened NoticeLines
  import opened Attended

  // ---- One read or two

  /** A read that brings something and leaves the notices in order. */
  lemma {:induction false} OneMoreRead(front: seq<Bytes>, data: Bytes, chunks: seq<Bytes>)
    requires chunks == front + [data] && data != [] && Seen(Flatten(chunks)) <= EXPECTED
    ensures Schedule(chunks) ==
      if |Seen(Flatten(chunks))| > |Schedule(front)| then Schedule(front) + [|front|] else Schedule(front)
    ensures FirstFailure(chunks) == FirstFailure(front)
  {
    assert chunks[..|front|] == front;
    AutomatonReads(Flatten(chunks), OnBytes(START, Flatten(chunks)));
  }

  /**
   Both notices, in order and complete, in a single read: one answer is typed and the run fails for want of the second.
   The same bytes in two reads, cut between the lines: both answers are typed and the run succeeds.
   */
  lemma {:induction false} CuttingDecides(
    first: Bytes, end: Bytes, second: Bytes, end': Bytes, x: Bytes, y: Bytes)
    requires IsFirst(first) && IsSecond(second) && IsLineEnd(end) && IsLineEnd(end')
    requires x == first + end && y == second + end'
    ensures Seen(Flatten([x + y])) == Seen(Flatten([x, y])) == EXPECTED
    ensures Schedule([x + y]) == [0]
    ensures Verdict([x + y], false, false, Some(0)) == Some(MissingNotice)
    ensures Schedule([x, y]) == [0, 1]
    ensures Verdict([x, y], false, false, Some(0)) == None
  {
    var a, b := WithReturn(first, end), WithReturn(second, end');
    FirstCounts(first, end);
    SecondCounts(second, end');
    EndsInLineFeed(first, end);
    EndsInLineFeed(second, end');
    assert x + y == x + b + [LF];
    BothAreSeen(a, b, x, x + y);
    AnsweredOnce(x, y, x + y);
    AnsweredTwice(x, y);
  }

  lemma {:induction false} AnsweredOnce(x: Bytes, y: Bytes, stream: Bytes)
    requires stream == x + y && x != [] && Seen(stream) == EXPECTED
    ensures Flatten([stream]) == stream && Schedule([stream]) == [0]
    ensures Verdict([stream], false, false, Some(0)) == Some(MissingNotice)
  {
    FlattenOne(x, y);
    OneMoreRead([], stream, [stream]);
  }

  lemma {:induction false} AnsweredTwice(x: Bytes, y: Bytes)
    requires x != [] && y != [] && Seen(x) == [First] && Seen(x + y) == EXPECTED
    ensures Flatten([x, y]) == x + y && Schedule([x, y]) == [0, 1]
    ensures Verdict([x, y], false, false, Some(0)) == None
  {
    FlattenOne(x, y);
    OneMoreRead([], x, [x]);
    OneMoreRead([x], y, [x, y]);
  }

  lemma {:induction false} FlattenOne(x: Bytes, y: Bytes)
    ensures Flatten([x]) == x && Flatten([x + y]) == x + y && Flatten([x, y]) == x + y
  {
    assert [x][1..] == [] && [x + y][1..] == [] && [x, y][1..] == [y] && [y][1..] == [];
  }

  /** A run in which both notices were seen in order and that fails, and one of the same output that succeeds. */
  lemma {:induction false} SameOutputOtherVerdict(end: Bytes, end': Bytes, x: Bytes, y: Bytes)
    requires IsLineEnd(end) && IsLineEnd(end') && x == FIRST_LINE + end && y == SECOND_LINE + end'
    ensures Seen(x + y) == EXPECTED && Flatten([x + y]) == Flatten([x, y]) == x + y
    ensures Verdict([x + y], false, false, Some(0)) == Some(MissingNotice)
    ensures Verdict([x, y], false, false, Some(0)) == None
  {
    NoticesExist();
    CuttingDecides(FIRST_LINE, end, SECOND_LINE, end', x, y);
    FlattenOne(x, y);
  }
}
