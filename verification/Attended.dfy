/** The controller loop of scripts/attended-pty.py. */
module Attended {
  import opened Bytes
  import opened Options
  import opened Redaction
  import opened RedactionStream
  import opened RedactionGuarantees
  import PtyRedactor
  import Notices
  import opened Characters

  // Every read goes to the notice automaton and the redactor, an answer is typed when the automaton has counted a new
  // notice, and a summary closes the transcript. Reads, the child's exit, interruption and elapsed time are inputs.

  datatype Failure =
    | NoticeFailure(notice: Notices.Failure)
    | TerminalNotClosed
    | Interrupted
    | MissingNotice
    | ReleaseFailed

  function FailureName(failure: Failure): string
  {
    match failure
    case NoticeFailure(MalformedNotice) => "malformed_notice"
    case NoticeFailure(UnexpectedNotice) => "unexpected_or_malformed_notice"
    case TerminalNotClosed => "terminal_not_closed"
    case Interrupted => "interrupted"
    case MissingNotice => "missing_attended_notice"
    case ReleaseFailed => "release_check_failed"
  }

  function Summary(releaseExit: Option<nat>, answers: nat, seconds: nat, failure: Option<Failure>): string
  {
    "\nRELEASE_EXIT=" + (if releaseExit.Some? then Decimal(releaseExit.value) else "unavailable") +
    "\nATTENDED_ANSWERS=" + Decimal(answers) +
    "\nDURATION_S=" + Decimal(seconds) + "\n" +
    (if failure.Some? then "ATTENDED_FAILURE=" + FailureName(failure.value) + "\n" else "")
  }

  function Or(failure: Option<Failure>, condition: bool, other: Failure): Option<Failure>
  {
    if failure.None? && condition then Some(other) else failure
  }

  /** Reading more never takes back a failure or an answer. */
  lemma {:induction false} NothingTakenBack(state: Notices.State, data: Bytes)
    ensures state.failure.Some? ==> Notices.OnBytes(state, data).failure.Some?
    ensures state.answers <= Notices.OnBytes(state, data).answers
  {
    if data != [] {
      NothingTakenBack(state, data[..|data| - 1]);
    }
  }

  lemma {:induction false} OneFinalFeed(
    keys: set<Bytes>, width: nat, marker: Bytes, content: Bytes, step: Step)
    requires step == Advance(keys, width, marker, content, 0, true)
    ensures step.output == OneShot(keys, marker, content) && step.held == Held([], 0)
  {
    AdvanceReaches(keys, width, marker, content, 0, true, step);
  }

  /** Flushing and then feeding a text whose first byte is in no key is redacting everything in one piece. */
  lemma {:induction false} FlushThenText(
    keys: set<Bytes>, width: nat, marker: Bytes, chunks: seq<Bytes>, fed: Step, rest: Step, text: Bytes, last: Step)
    requires Fits(keys, width) && fed == RedactionStream.Feed(keys, width, marker, chunks)
    requires rest == Advance(keys, width, marker, fed.held.bytes, fed.held.covered, true)
    requires last == Advance(keys, width, marker, text, 0, true)
    requires |text| > 0 && forall key :: key in keys ==> text[0] !in key
    ensures fed.output + rest.output + last.output == OneShot(keys, marker, Flatten(chunks) + text)
  {
    ChunkIndependence(keys, width, marker, chunks);
    OneFinalFeed(keys, width, marker, text, last);
    FlushJoins(keys, marker, Flatten(chunks), text);
  }

  lemma {:induction false} OneMoreFlush(
    keys: set<Bytes>, width: nat, marker: Bytes, chunks: seq<Bytes>, fed: Step, rest: Step)
    requires fed == RedactionStream.Feed(keys, width, marker, chunks)
    requires rest == Advance(keys, width, marker, fed.held.bytes, fed.held.covered, true)
    ensures rest.held == Held([], 0)
  {
    AdvanceReaches(keys, width, marker, fed.held.bytes, fed.held.covered, true, rest);
  }

  // ---- When an answer is typed

  /** The notices in everything read up to and including read `r`. */
  ghost function SeenBy(chunks: seq<Bytes>, r: nat): seq<Notices.Notice>
    requires r < |chunks|
  {
    Notices.Seen(Flatten(chunks[..r + 1]))
  }

  /**
   The reads after which an answer is typed: a read that brings something, with no notice out of place so far and more
   notices seen than answers typed before.
   */
  ghost function Schedule(chunks: seq<Bytes>): (r: seq<nat>)
    ensures |r| <= |chunks|
  {
    if chunks == [] then []
    else
      var n := |chunks| - 1;
      var before, seen := Schedule(chunks[..n]), Notices.Seen(Flatten(chunks));
      if chunks[n] != [] && seen <= Notices.EXPECTED && |seen| > |before| then before + [n] else before
  }

  /** The failure of the automaton after the first read at which it had failed. */
  ghost function FirstFailure(chunks: seq<Bytes>): Option<Failure>
  {
    if chunks == [] then None
    else
      var before := FirstFailure(chunks[..|chunks| - 1]);
      var failure := Notices.OnBytes(Notices.START, Flatten(chunks)).failure;
      if before.None? && failure.Some? then Some(NoticeFailure(failure.value)) else before
  }

  lemma {:induction false} TakeAll(chunks: seq<Bytes>)
    ensures chunks[..|chunks|] == chunks
  {
  }

  lemma {:induction false} TakeOne(chunks: seq<Bytes>, i: nat)
    requires i < |chunks|
    ensures |chunks[..i]| == i && chunks[..i + 1] == chunks[..i] + [chunks[i]]
  {
  }

  lemma {:induction false} LastRead(chunks: seq<Bytes>, n: nat)
    requires |chunks| == n + 1
    ensures chunks == chunks[..n] + [chunks[n]] && chunks[..n + 1] == chunks
    ensures Flatten(chunks) == Flatten(chunks[..n]) + chunks[n]
  {
    assert chunks == chunks[..n] + [chunks[n]];
    FlattenAppend(chunks[..n], chunks[n]);
  }

  /** Reading on never takes back a notice, nor one out of place. */
  lemma {:induction false} SeenGrows(first: Bytes, more: Bytes)
    requires Notices.Seen(first + more) <= Notices.EXPECTED
    ensures Notices.Seen(first) <= Notices.EXPECTED
    ensures |Notices.Seen(first)| <= |Notices.Seen(first + more)|
  {
    var before := Notices.OnBytes(Notices.START, first);
    Notices.ReadsJoin(Notices.START, first, more);
    NothingTakenBack(before, more);
    Notices.AutomatonReads(first, before);
    Notices.AutomatonReads(first + more, Notices.OnBytes(before, more));
  }

  /** At read `i` something came, and at least `n` notices had been seen. */
  ghost predicate Chance(chunks: seq<Bytes>, i: int, n: nat)
  {
    0 <= i < |chunks| && chunks[i] != [] && |SeenBy(chunks, i)| >= n
  }

  ghost predicate OneChance(chunks: seq<Bytes>, until: int)
  {
    exists i :: i < until && Chance(chunks, i, 1)
  }

  /** A read by which both notices had been seen, after one by which a notice had been. */
  ghost predicate TwoChances(chunks: seq<Bytes>)
  {
    exists j :: SecondChance(chunks, j)
  }

  ghost predicate SecondChance(chunks: seq<Bytes>, j: int)
  {
    Chance(chunks, j, 2) && OneChance(chunks, j)
  }

  lemma {:induction false} ChanceStays(chunks: seq<Bytes>, n: nat, i: int, k: nat)
    requires |chunks| == n + 1 && i < n
    ensures Chance(chunks[..n], i, k) <==> Chance(chunks, i, k)
  {
    if 0 <= i {
      assert chunks[..n][..i + 1] == chunks[..i + 1];
    }
  }

  lemma {:induction false} ChancesStay(chunks: seq<Bytes>, n: nat, until: int)
    requires |chunks| == n + 1 && until <= n
    ensures OneChance(chunks[..n], until) <==> OneChance(chunks, until)
  {
    if OneChance(chunks[..n], until) {
      var i :| i < until && Chance(chunks[..n], i, 1);
      ChanceStays(chunks, n, i, 1);
    }
    if OneChance(chunks, until) {
      var i :| i < until && Chance(chunks, i, 1);
      ChanceStays(chunks, n, i, 1);
    }
  }

  lemma {:induction false} OneChanceMore(chunks: seq<Bytes>, n: nat)
    requires |chunks| == n + 1
    ensures OneChance(chunks, n + 1) <==> OneChance(chunks[..n], n) || Chance(chunks, n, 1)
  {
    ChancesStay(chunks, n, n);
    if OneChance(chunks, n) {
      var i :| i < n && Chance(chunks, i, 1);
      assert i < n + 1 && Chance(chunks, i, 1);
    }
  }

  lemma {:induction false} SecondChanceStays(chunks: seq<Bytes>, n: nat, j: int)
    requires |chunks| == n + 1
    ensures SecondChance(chunks[..n], j) <==> j < n && SecondChance(chunks, j)
  {
    if j < n {
      ChanceStays(chunks, n, j, 2);
      ChancesStay(chunks, n, j);
    }
  }

  lemma {:induction false} TwoChancesMore(chunks: seq<Bytes>, n: nat)
    requires |chunks| == n + 1
    ensures TwoChances(chunks) <==> TwoChances(chunks[..n]) || (OneChance(chunks[..n], n) && Chance(chunks, n, 2))
  {
    ChancesStay(chunks, n, n);
    assert SecondChance(chunks, n) <==> OneChance(chunks[..n], n) && Chance(chunks, n, 2);
    if TwoChances(chunks[..n]) {
      var j :| SecondChance(chunks[..n], j);
      SecondChanceStays(chunks, n, j);
    }
    if TwoChances(chunks) {
      var j :| SecondChance(chunks, j);
      SecondChanceStays(chunks, n, j);
    }
  }

  lemma {:induction false} ScheduleOneMore(chunks: seq<Bytes>, n: nat)
    requires |chunks| == n + 1 && Notices.Seen(Flatten(chunks)) <= Notices.EXPECTED
    ensures Chance(chunks, n, |Schedule(chunks[..n])| + 1) ==> |Schedule(chunks)| == |Schedule(chunks[..n])| + 1
    ensures !Chance(chunks, n, |Schedule(chunks[..n])| + 1) ==> Schedule(chunks) == Schedule(chunks[..n])
    ensures Chance(chunks, n, |Schedule(chunks)| + 1) ==> |Schedule(chunks)| < |Notices.Seen(Flatten(chunks))|
    ensures |Schedule(chunks)| == |Schedule(chunks[..n])| + 1 ==> |Schedule(chunks)| <= |Notices.Seen(Flatten(chunks))|
  {
    LastRead(chunks, n);
  }

  /** With no notice out of place, one answer is typed if there is a chance to, and two if there are two in order. */
  lemma {:induction false} ScheduleCounts(chunks: seq<Bytes>)
    requires Notices.Seen(Flatten(chunks)) <= Notices.EXPECTED
    ensures |Schedule(chunks)| <= |Notices.Seen(Flatten(chunks))|
    ensures |Schedule(chunks)| >= 1 <==> OneChance(chunks, |chunks|)
    ensures |Schedule(chunks)| >= 2 <==> TwoChances(chunks)
  {
    if chunks != [] {
      var n := |chunks| - 1;
      LastRead(chunks, n);
      SeenGrows(Flatten(chunks[..n]), chunks[n]);
      ScheduleCounts(chunks[..n]);
      ScheduleOneMore(chunks, n);
      OneChanceMore(chunks, n);
      TwoChancesMore(chunks, n);
    }
  }

  /** When the first notice comes only with the last read, both are never answered. */
  lemma {:induction false} TooLateToAnswer(chunks: seq<Bytes>)
    requires chunks != [] && Notices.Seen(Flatten(chunks[..|chunks| - 1])) == []
    ensures |Schedule(chunks)| < 2
  {
    var n := |chunks| - 1;
    LastRead(chunks, n);
    ScheduleCounts(chunks[..n]);
  }

  /** An answer typed after read `r` was due: that many notices had come, all of them expected and in order. */
  ghost predicate Due(chunks: seq<Bytes>, r: nat, answer: nat)
    requires r < |chunks|
  {
    SeenBy(chunks, r) <= Notices.EXPECTED && answer < |SeenBy(chunks, r)|
  }

  ghost predicate AllDue(chunks: seq<Bytes>, answeredAt: seq<nat>)
  {
    && (forall i :: 0 <= i < |answeredAt| ==> answeredAt[i] < |chunks| && Due(chunks, answeredAt[i], i))
    && (forall i, j :: 0 <= i < j < |answeredAt| ==> answeredAt[i] < answeredAt[j])
  }

  lemma {:induction false} OneStays(chunks: seq<Bytes>, n: nat, r: nat, answer: nat)
    requires |chunks| == n + 1 && r < n
    ensures Due(chunks[..n], r, answer) <==> Due(chunks, r, answer)
  {
    assert chunks[..n][..r + 1] == chunks[..r + 1];
  }

  lemma {:induction false} DueStays(chunks: seq<Bytes>, n: nat, answeredAt: seq<nat>)
    requires |chunks| == n + 1 && AllDue(chunks[..n], answeredAt)
    ensures AllDue(chunks, answeredAt)
  {
    forall i | 0 <= i < |answeredAt| ensures answeredAt[i] < |chunks| && Due(chunks, answeredAt[i], i) {
      OneStays(chunks, n, answeredAt[i], i);
    }
  }

  lemma {:induction false} DueNow(chunks: seq<Bytes>, n: nat, answeredAt: seq<nat>)
    requires |chunks| == n + 1 && AllDue(chunks, answeredAt) && Due(chunks, n, |answeredAt|)
    requires forall i :: 0 <= i < |answeredAt| ==> answeredAt[i] < n
    ensures AllDue(chunks, answeredAt + [n])
  {
    var longer, m := answeredAt + [n], |answeredAt|;
    assert longer[m] == n;
    forall i | 0 <= i < m + 1 ensures longer[i] < |chunks| && Due(chunks, longer[i], i) {
      if i < m { assert longer[i] == answeredAt[i]; }
    }
    forall i, j | 0 <= i < j < m + 1 ensures longer[i] < longer[j] {
      assert longer[i] == answeredAt[i];
    }
  }

  /** Answers never exceed the notices seen, and none is typed after a failure. */
  lemma {:induction false} ScheduleIsDue(chunks: seq<Bytes>)
    ensures AllDue(chunks, Schedule(chunks))
  {
    if chunks != [] {
      var n := |chunks| - 1;
      var before := Schedule(chunks[..n]);
      LastRead(chunks, n);
      ScheduleIsDue(chunks[..n]);
      DueStays(chunks, n, before);
      if Schedule(chunks) != before {
        DueNow(chunks, n, before);
      }
    }
  }

  // ---- The controller

  /** How the controller and the automaton stand after some reads. */
  ghost predicate Follows(
    chunks: seq<Bytes>, view: Notices.State, answeredAt: seq<nat>, failure: Option<Failure>)
  {
    && view == Notices.OnBytes(Notices.START, Flatten(chunks))
    && answeredAt == Schedule(chunks)
    && failure == FirstFailure(chunks) && failure.Some? == view.failure.Some?
  }

  /** An empty read is no output. */
  lemma {:induction false} FollowsNothing(
    chunks: seq<Bytes>, longer: seq<Bytes>, view: Notices.State, answeredAt: seq<nat>, failure: Option<Failure>)
    requires Follows(chunks, view, answeredAt, failure) && longer == chunks + [[]]
    ensures Follows(longer, view, answeredAt, failure)
  {
    LastRead(longer, |chunks|);
    assert longer[..|chunks|] == chunks;
    assert Flatten(longer) == Flatten(chunks);
  }

  /** A read that brings something is answered exactly when the schedule says so. */
  lemma {:induction false} FollowsOneMore(
    chunks: seq<Bytes>, data: Bytes, longer: seq<Bytes>, before: Notices.State, after: Notices.State, answeredAt: seq<nat>,
    failure: Option<Failure>, answeredAt': seq<nat>, failure': Option<Failure>)
    requires data != [] && longer == chunks + [data]
    requires Follows(chunks, before, answeredAt, failure) && after == Notices.OnBytes(before, data)
    requires answeredAt' == if after.failure.None? && after.answers > |answeredAt| then answeredAt + [|chunks|] else answeredAt
    requires failure' == if failure.None? && after.failure.Some? then Some(NoticeFailure(after.failure.value)) else failure
    ensures Follows(longer, after, answeredAt', failure')
  {
    LastRead(longer, |chunks|);
    assert longer[..|chunks|] == chunks;
    NothingTakenBack(before, data);
    Notices.ReadsJoin(Notices.START, Flatten(chunks), data);
    ScheduledNow(chunks, data, longer, after, answeredAt, answeredAt');
  }

  lemma {:induction false} ScheduledNow(
    chunks: seq<Bytes>, data: Bytes, longer: seq<Bytes>, after: Notices.State, answeredAt: seq<nat>, answeredAt': seq<nat>)
    requires data != [] && longer == chunks + [data] && longer[..|chunks|] == chunks && answeredAt == Schedule(chunks)
    requires after == Notices.OnBytes(Notices.START, Flatten(longer))
    requires answeredAt' == if after.failure.None? && after.answers > |answeredAt| then answeredAt + [|chunks|] else answeredAt
    ensures answeredAt' == Schedule(longer)
  {
    Notices.AutomatonReads(Flatten(longer), after);
  }

  /** One read that brings something: a first failure stops the run, a newly counted notice gets one answer. */
  method React(
    watcher: Notices.Watcher, data: Bytes, answeredAt: seq<nat>, failure: Option<Failure>,
    read: nat, ghost chunks: seq<Bytes>, ghost longer: seq<Bytes>)
    returns (answeredAt': seq<nat>, failure': Option<Failure>)
    requires data != [] && read == |chunks| && longer == chunks + [data]
    requires Follows(chunks, watcher.View(), answeredAt, failure)
    modifies watcher
    ensures Follows(longer, watcher.View(), answeredAt', failure')
  {
    ghost var before := watcher.View();
    watcher.Feed(data);
    NothingTakenBack(before, data);
    answeredAt', failure' := answeredAt, failure;
    if watcher.failure.Some? && failure.None? {
      failure' := Some(NoticeFailure(watcher.failure.value));
    } else if watcher.failure.None? && watcher.answers > |answeredAt| {
      answeredAt' := answeredAt + [read];
    }
    FollowsOneMore(chunks, data, longer, before, watcher.View(), answeredAt, failure, answeredAt', failure');
  }

  /** The transcript and what the redactor holds are those of feeding the chunks. */
  ghost predicate HasFed(redactor: PtyRedactor.Redactor, chunks: seq<Bytes>, transcript: Bytes)
    reads redactor
  {
    && redactor.Valid()
    && RedactionStream.Feed(KeySet(redactor.keys), redactor.width, redactor.replacement, chunks)
       == Step(transcript, Held(redactor.pending, redactor.covered))
  }

  /** Redacting one read and appending it to the transcript. */
  method Publish(
    redactor: PtyRedactor.Redactor, data: Bytes, published: Bytes, ghost chunks: seq<Bytes>, ghost longer: seq<Bytes>)
    returns (transcript: Bytes)
    requires HasFed(redactor, chunks, published) && longer == chunks + [data]
    modifies redactor
    ensures HasFed(redactor, longer, transcript)
  {
    ghost var fed := Step(published, Held(redactor.pending, redactor.covered));
    var out := redactor.Feed(data, false);
    transcript := published + out;
    FeedOneMore(KeySet(redactor.keys), redactor.width, redactor.replacement, chunks, data, fed,
                Step(out, Held(redactor.pending, redactor.covered)));
  }

  lemma {:induction false} SameText(fed: seq<Bytes>, chunks: seq<Bytes>, data: Bytes)
    requires Flatten(fed) == Flatten(chunks)
    ensures Flatten(fed + [data]) == Flatten(chunks + [data])
    ensures data == [] ==> Flatten(fed) == Flatten(chunks + [data])
  {
    FlattenAppend(fed, data);
    FlattenAppend(chunks, data);
  }

  /** One read goes to the automaton and to the redactor; an empty one says that there is nothing to read now. */
  method OnRead(
    redactor: PtyRedactor.Redactor, watcher: Notices.Watcher, data: Bytes, published: Bytes, answeredAt: seq<nat>,
    failure: Option<Failure>, read: nat, ghost chunks: seq<Bytes>, ghost longer: seq<Bytes>, ghost fed: seq<Bytes>)
    returns (transcript: Bytes, answeredAt': seq<nat>, failure': Option<Failure>, ghost fed': seq<Bytes>)
    requires read == |chunks| && longer == chunks + [data]
    requires HasFed(redactor, fed, published) && Flatten(fed) == Flatten(chunks)
    requires Follows(chunks, watcher.View(), answeredAt, failure)
    modifies redactor, watcher
    ensures HasFed(redactor, fed', transcript) && Flatten(fed') == Flatten(longer)
    ensures Follows(longer, watcher.View(), answeredAt', failure')
  {
    SameText(fed, chunks, data);
    transcript, answeredAt', failure', fed' := published, answeredAt, failure, fed;
    if data == [] {
      FollowsNothing(chunks, longer, watcher.View(), answeredAt, failure);
    } else {
      fed' := fed + [data];
      answeredAt', failure' := React(watcher, data, answeredAt, failure, read, chunks, longer);
      transcript := Publish(redactor, data, published, fed, fed');
    }
  }

  /**
   The reading loop. Answers are typed exactly as scheduled, and a failure of the automaton is kept from the first read
   on.
   */
  method Watch(redactor: PtyRedactor.Redactor, watcher: Notices.Watcher, chunks: seq<Bytes>)
    returns (transcript: Bytes, answeredAt: seq<nat>, failure: Option<Failure>, ghost fed: seq<Bytes>)
    requires HasFed(redactor, [], []) && watcher.View() == Notices.START
    modifies redactor, watcher
    ensures HasFed(redactor, fed, transcript) && Flatten(fed) == Flatten(chunks)
    ensures Follows(chunks, watcher.View(), answeredAt, failure)
  {
    transcript, answeredAt, failure, fed := [], [], None, [];
    for i := 0 to |chunks|
      invariant HasFed(redactor, fed, transcript) && Flatten(fed) == Flatten(chunks[..i])
      invariant Follows(chunks[..i], watcher.View(), answeredAt, failure)
    {
      TakeOne(chunks, i);
      transcript, answeredAt, failure, fed := OnRead(
        redactor, watcher, chunks[i], transcript, answeredAt, failure, i, chunks[..i], chunks[..i + 1], fed);
    }
    TakeAll(chunks);
  }

  /** Flushing the redactor and publishing a last text that begins with a line feed. */
  method Conclude(redactor: PtyRedactor.Redactor, ghost chunks: seq<Bytes>, published: Bytes, text: Bytes)
    returns (transcript: Bytes)
    requires HasFed(redactor, chunks, published)
    requires |text| > 0 && forall key :: key in redactor.keys ==> text[0] !in key
    modifies redactor
    ensures transcript == OneShot(KeySet(redactor.keys), redactor.replacement, Flatten(chunks) + text)
    ensures forall key :: key in redactor.keys ==> !Contains(transcript, key)
  {
    ghost var K, fed := KeySet(redactor.keys), Step(published, Held(redactor.pending, redactor.covered));
    assert redactor.pending + [] == redactor.pending;
    var rest := redactor.Feed([], true);
    ghost var flushed := Step(rest, Held(redactor.pending, redactor.covered));
    OneMoreFlush(K, redactor.width, redactor.replacement, chunks, fed, flushed);
    assert [] + text == text;
    var last := redactor.Feed(text, true);
    transcript := published + rest + last;
    PtyRedactor.WidthFits(redactor.keys);
    FlushThenText(K, redactor.width, redactor.replacement, chunks, fed, flushed, text,
                  Step(last, Held(redactor.pending, redactor.covered)));
    forall key | key in redactor.keys ensures !Contains(transcript, key) {
      NoKeySurvives(K, redactor.replacement, Flatten(chunks) + text, key);
    }
  }

  /** The first thing that went wrong. */
  ghost function Verdict(
    chunks: seq<Bytes>, interrupted: bool, terminalOpen: bool, releaseExit: Option<nat>): Option<Failure>
  {
    var failure := Or(Or(FirstFailure(chunks), terminalOpen, TerminalNotClosed), interrupted, Interrupted);
    Or(Or(failure, |Schedule(chunks)| != 2, MissingNotice), releaseExit != Some(0), ReleaseFailed)
  }

  /** A run succeeds exactly when both notices came, in order and in time to be answered one after the other. */
  lemma {:induction false} SuccessMeans(
    chunks: seq<Bytes>, interrupted: bool, terminalOpen: bool, releaseExit: Option<nat>, view: Notices.State)
    requires Follows(chunks, view, Schedule(chunks), FirstFailure(chunks))
    ensures Verdict(chunks, interrupted, terminalOpen, releaseExit).None? <==>
      && Notices.Seen(Flatten(chunks)) == Notices.EXPECTED && TwoChances(chunks)
      && releaseExit == Some(0) && !interrupted && !terminalOpen
  {
    var seen := Notices.Seen(Flatten(chunks));
    Notices.AutomatonReads(Flatten(chunks), view);
    if seen <= Notices.EXPECTED {
      ScheduleCounts(chunks);
      assert |seen| == 2 ==> seen == Notices.EXPECTED;
    }
  }

  /**
   A whole attended run. The transcript is the redaction of everything read followed by the summary, so no key
   is in it; answers are typed exactly as scheduled; and the run succeeds exactly when both notices came in order, with a
   read that brought something for each of them, and nothing else went wrong.
   */
  method Attend(
    redactor: PtyRedactor.Redactor, watcher: Notices.Watcher, chunks: seq<Bytes>, interrupted: bool,
    terminalOpen: bool, releaseExit: Option<nat>, seconds: nat)
    returns (transcript: Bytes, answeredAt: seq<nat>, failure: Option<Failure>, exit: nat)
    requires redactor.Valid() && redactor.pending == [] && redactor.covered == 0
    requires forall key :: key in redactor.keys ==> 10 !in key
    requires watcher.View() == Notices.START
    modifies redactor, watcher
    ensures answeredAt == Schedule(chunks)
    ensures failure == Verdict(chunks, interrupted, terminalOpen, releaseExit)
    ensures transcript == OneShot(KeySet(redactor.keys), redactor.replacement, Flatten(chunks) +
                                  Ascii(Summary(releaseExit, |answeredAt|, seconds, failure)))
    ensures forall key :: key in redactor.keys ==> !Contains(transcript, key)
    ensures exit == 0 <==> && Notices.Seen(Flatten(chunks)) == Notices.EXPECTED && TwoChances(chunks)
                           && releaseExit == Some(0) && !interrupted && !terminalOpen
  {
    ghost var fed;
    transcript, answeredAt, failure, fed := Watch(redactor, watcher, chunks);
    SuccessMeans(chunks, interrupted, terminalOpen, releaseExit, watcher.View());
    failure := Or(failure, terminalOpen, TerminalNotClosed);
    failure := Or(failure, interrupted, Interrupted);
    failure := Or(failure, |answeredAt| != 2, MissingNotice);
    failure := Or(failure, releaseExit != Some(0), ReleaseFailed);
    var summary := Summary(releaseExit, |answeredAt|, seconds, failure);
    assert summary[0] == '\n';
    transcript := Conclude(redactor, fed, transcript, Ascii(summary));
    exit := if failure.None? then 0 else 1;
  }
}
