/** The invariants of the connection, kept by every step and so true of every run. */
module DaemonRuns {
  import opened Options
  import opened Lines
  import opened Daemon
  import opened DaemonGate
  import opened DaemonStance
  import opened DaemonDelivery
  import opened DaemonRouting
  import opened DaemonWaiting

  /** Everything but the cutting of lines and the history of the negotiation. */
  ghost predicate Kept(w: World)
  {
    && Ids(w.wire, w.nextRequest)
    && Requests(w.wire, w.pending, w.outcomes, w.awaiting, w.ended.Some?)
    && Gate(w.wire, w.outcomes, w.awaiting, w.init, w.closed)
    && RoutedIn(w)
    && SortedIn(w)
    && WaitingIn(w)
    && (w.ended.Some? ==> w.closed)
  }

  ghost predicate Invariant(w: World, parse: string -> Record)
  {
    && Kept(w) && StanceIn(w)
    && Framed(w.received, w.lines, w.buffer, w.delivered, parse) && '\n' !in w.buffer
  }

  lemma {:induction false} StartIsInvariant(parse: string -> Record)
    ensures Invariant(START, parse)
  {
    assert Sent([]) == {};
  }

  lemma {:induction false} RequestKeeps(w: World, verb: string, overrides: bool, newlineInFrame: bool, next: World)
    requires Kept(w) && next == Request(w, verb, overrides, newlineInFrame)
    ensures Kept(next)
  {
    if Sendable(w, verb, overrides) {
      var frame := Frame(RequestId(w.nextRequest), verb, w.init);
      IdsGrow(w.wire, w.nextRequest, verb, w.init);
      FreshId(w.wire, w.nextRequest);
      assert frame.id !in Sent(w.wire);
      RequestsAfterSend(w, frame);
      RoutedAfterSend(w, frame);
      GateAfterSend(w, frame);
    }
  }

  lemma {:induction false} ContinueKeeps(w: World, frame: Frame, next: World)
    requires Kept(w) && next == Continue(w, frame)
    ensures Kept(next)
  {
    GateAfterContinue(w, frame, next);
    if Resumable(w, frame) {
      RequestsAfterLeaving(w, frame.id);
      assert next == w.(awaiting := w.awaiting - {frame.id}, init := next.init, closed := next.closed);
    }
  }

  lemma {:induction false} RequestsAfterLeaving(w: World, id: string)
    requires Requests(w.wire, w.pending, w.outcomes, w.awaiting, w.ended.Some?) && id in w.outcomes
    ensures Requests(w.wire, w.pending, w.outcomes, w.awaiting - {id}, w.ended.Some?)
  {
  }

  lemma {:induction false} AnswerKeeps(w: World, record: Record, id: string, next: World)
    requires Kept(w) && id in w.pending && record.requestId == Some(id) && SortedIn(next) && RoutedIn(next)
    requires next == DeliverAnswer(w, record, id)
    ensures Kept(next)
  {
    RequestsAfterResolve(w, id, record);
    GateAfterAnswer(w, id, Resolved(record, |w.wire|));
  }

  lemma {:induction false} EventKeeps(w: World, record: Record, next: World)
    requires Kept(w) && SortedIn(next) && RoutedIn(next) && next == DeliverEvent(w, record)
    ensures Kept(next)
  {
    WaitingAfterEvent(w, record, Release(w.(events := w.events + [record])));
  }

  lemma {:induction false} OtherKeeps(w: World, record: Record, to: Destination, next: World)
    requires Kept(w) && SortedIn(next) && RoutedIn(next) && next == DeliverOther(w, record, to)
    ensures Kept(next)
  {
  }

  lemma {:induction false} DeliverKeeps(w: World, record: Record, next: World)
    requires Kept(w) && next == Deliver(w, record)
    ensures Kept(next)
  {
    SortedAfterDeliver(w, record, next);
    RoutedInAfterDeliver(w, record, next);
    var to := Destined(w, record);
    if to.ToEvents? {
      EventKeeps(w, record, next);
    } else if to.ToRequest? {
      AnswerKeeps(w, record, to.id, next);
    } else {
      OtherKeeps(w, record, to, next);
    }
  }

  // ---- The history of the negotiation

  lemma {:induction false} StanceAfterDeliver(w: World, record: Record, next: World)
    requires StanceIn(w) && Permitted(w.wire) && next == Deliver(w, record)
    requires Requests(w.wire, w.pending, w.outcomes, w.awaiting, w.ended.Some?)
    ensures StanceIn(next)
  {
    var to := Destined(w, record);
    DeliverNotes(w, record, next);
    DeliverAppends(w, record, next);
    DeliverLeavesNegotiation(w, record, next);
    if to.ToRequest? {
      StanceAfterAnswer(w, record, to.id, next.outcomes);
    }
    StanceCarries(w, next);
  }

  lemma {:induction false} StanceAfterAnswer(w: World, record: Record, id: string, outcomes: map<string, Outcome>)
    requires StanceIn(w) && Permitted(w.wire) && id in w.pending
    requires Requests(w.wire, w.pending, w.outcomes, w.awaiting, w.ended.Some?)
    requires outcomes == w.outcomes[id := Resolved(record, |w.wire|)]
    ensures Consistent(w.wire, outcomes, w.awaiting, w.init) && Prompt(w.wire, outcomes)
  {
    StanceAfterSettle(w, outcomes);
  }

  lemma {:induction false} StanceCarries(w: World, next: World)
    requires next.wire == w.wire && next.awaiting == w.awaiting && next.init == w.init
    requires Consistent(w.wire, next.outcomes, w.awaiting, w.init) && Prompt(w.wire, next.outcomes)
    ensures StanceIn(next)
  {
  }

  lemma {:induction false} DeliverLeavesNegotiation(w: World, record: Record, next: World)
    requires next == Deliver(w, record)
    ensures next.awaiting == w.awaiting && next.init == w.init
  {
    var to := Destined(w, record);
    if to.ToEvents? {
      assert next == DeliverEvent(w, record);
    } else if to.ToRequest? {
      assert next == DeliverAnswer(w, record, to.id);
    } else {
      assert next == DeliverOther(w, record, to);
    }
  }

  lemma {:induction false} StanceAfterRequest(
    w: World, verb: string, overrides: bool, newlineInFrame: bool, next: World)
    requires StanceIn(w) && Ids(w.wire, w.nextRequest) && next == Request(w, verb, overrides, newlineInFrame)
    requires Requests(w.wire, w.pending, w.outcomes, w.awaiting, w.ended.Some?)
    ensures StanceIn(next)
  {
    var frame := Frame(RequestId(w.nextRequest), verb, w.init);
    RequestFields(w, verb, overrides, newlineInFrame, frame, next);
    if next.wire != w.wire {
      FreshId(w.wire, w.nextRequest);
      assert frame.id !in Sent(w.wire);
      StanceAfterSend(w, frame);
    }
  }

  lemma {:induction false} RequestFields(
    w: World, verb: string, overrides: bool, newlineInFrame: bool, frame: Frame, next: World)
    requires next == Request(w, verb, overrides, newlineInFrame) && frame == Frame(RequestId(w.nextRequest), verb, w.init)
    ensures next.outcomes == w.outcomes
    ensures next.wire == w.wire ==> next.awaiting == w.awaiting && next.init == w.init
    ensures next.wire == w.wire || next.wire == w.wire + [frame]
    ensures next.wire != w.wire ==> next.awaiting == w.awaiting + {frame.id}
    ensures next.wire != w.wire ==> next.init == if Initializes(frame) then Negotiating else w.init
  {
    if Sendable(w, verb, overrides) && !newlineInFrame {
      assert next.wire[|w.wire|] == frame;
    }
  }

  lemma {:induction false} StanceAfterEnded(w: World, next: World)
    requires Kept(w) && StanceIn(w) && next == SocketClosed(w)
    ensures StanceIn(next)
  {
    StanceAfterSettle(w, w.outcomes + map id | id in w.pending :: Rejected(|w.wire|));
  }

  lemma {:induction false} StanceAfterStep(w: World, action: Action, parse: string -> Record, next: World)
    requires Kept(w) && StanceIn(w) && next == Apply(w, action, parse) && !action.DoAbsorb?
    ensures StanceIn(next)
  {
    match action
    case DoRequest(verb, overrides, newlineInFrame) => StanceAfterRequest(w, verb, overrides, newlineInFrame, next);
    case DoContinue(frame) => StanceAfterContinue(w, frame, next);
    case DoSocketClosed => StanceAfterEnded(w, next);
    case _ => RestLeavesNegotiation(w, action, parse, next);
  }

  lemma {:induction false} RestLeavesNegotiation(w: World, action: Action, parse: string -> Record, next: World)
    requires next == Apply(w, action, parse) && (action.DoWait? || action.DoTimeout? || action.DoClose?)
    ensures next.wire == w.wire && next.outcomes == w.outcomes
    ensures next.awaiting == w.awaiting && next.init == w.init
  {
  }

  ghost predicate SameText(w: World, next: World, record: Record)
  {
    && next.received == w.received && next.lines == w.lines && next.buffer == w.buffer
    && next.delivered == w.delivered + [record]
  }

  lemma {:induction false} PartsLeaveText(w: World, record: Record, id: string, to: Destination)
    ensures SameText(w, DeliverEvent(w, record), record)
    ensures SameText(w, DeliverAnswer(w, record, id), record)
    ensures SameText(w, DeliverOther(w, record, to), record)
  {
  }

  lemma {:induction false} DeliverLeavesText(w: World, record: Record, next: World)
    requires next == Deliver(w, record)
    ensures SameText(w, next, record)
  {
    var to := Destined(w, record);
    PartsLeaveText(w, record, if to.ToRequest? then to.id else "", to);
  }

  lemma {:induction false} CutLineKeeps(w: World, newline: nat, parse: string -> Record, next: World)
    requires Kept(w) && StanceIn(w) && Framed(w.received, w.lines, w.buffer, w.delivered, parse)
    requires newline < |w.buffer| && w.buffer[newline] == '\n' && '\n' !in w.buffer[..newline]
    requires next == CutLine(w, newline, parse)
    ensures Kept(next) && StanceIn(next) && Framed(next.received, next.lines, next.buffer, next.delivered, parse)
    ensures |next.buffer| < |w.buffer|
  {
    var line := w.buffer[..newline];
    var cut := w.(buffer := w.buffer[newline + 1..], lines := w.lines + [line]);
    FramedAfterCut(w.received, w.lines, w.buffer, w.delivered, parse, newline);
    if line != "" {
      DeliverKeeps(cut, parse(line), next);
      StanceAfterDeliver(cut, parse(line), next);
      DeliverLeavesText(cut, parse(line), next);
    }
  }

  lemma {:induction false} DrainKeeps(w: World, parse: string -> Record, next: World)
    requires Kept(w) && StanceIn(w) && Framed(w.received, w.lines, w.buffer, w.delivered, parse)
    requires next == Drain(w, parse)
    ensures Invariant(next, parse)
    decreases |w.buffer|
  {
    var newline := IndexOf(w.buffer, '\n');
    if newline.Some? {
      var cut := CutLine(w, newline.value, parse);
      CutLineKeeps(w, newline.value, parse, cut);
      DrainKeeps(cut, parse, next);
    }
  }

  lemma {:induction false} Longer(received: string, lines: seq<string>, buffer: string, chunk: string)
    requires received == Joined(lines, '\n') + buffer
    ensures received + chunk == Joined(lines, '\n') + (buffer + chunk)
  {
  }

  lemma {:induction false} AbsorbKeeps(w: World, chunk: string, parse: string -> Record, next: World)
    requires Invariant(w, parse) && next == Absorb(w, chunk, parse)
    ensures Invariant(next, parse)
  {
    var longer := w.(buffer := w.buffer + chunk, received := w.received + chunk);
    Longer(w.received, w.lines, w.buffer, chunk);
    DrainKeeps(longer, parse, next);
  }

  lemma {:induction false} SocketClosedKeeps(w: World, next: World)
    requires Kept(w) && next == SocketClosed(w)
    ensures Kept(next)
  {
    RequestsAfterClose(w);
    GateAfterSettle(w, next.outcomes);
    ResolvesAfterClose(w.delivered, w.destinations, w.outcomes, w.pending, |w.wire|);
    RoutedAfterEnd(w, next.ended);
    ReleaseKeeps(w, Release(w));
  }

  lemma {:induction false} WaitKeeps(w: World, wants: Record -> bool, next: World)
    requires Kept(w) && next == Wait(w, wants)
    ensures Kept(next)
  {
    WaitingAfterWait(w, wants, next);
  }

  lemma {:induction false} TimeoutKeeps(w: World, token: nat, next: World)
    requires Kept(w) && next == Timeout(w, token)
    ensures Kept(next)
  {
    WaitingAfterTimeout(w, token, next);
  }

  lemma {:induction false} CloseKeeps(w: World, next: World)
    requires Kept(w) && next == Close(w)
    ensures Kept(next)
  {
  }

  ghost predicate TextStays(w: World, next: World)
  {
    next.received == w.received && next.lines == w.lines && next.buffer == w.buffer && next.delivered == w.delivered
  }

  lemma {:induction false} SendingLeavesText(w: World, verb: string, overrides: bool, newlineInFrame: bool, frame: Frame)
    ensures TextStays(w, Request(w, verb, overrides, newlineInFrame))
    ensures TextStays(w, Continue(w, frame))
  {
  }

  lemma {:induction false} WaitingLeavesText(w: World, wants: Record -> bool, token: nat)
    ensures TextStays(w, Wait(w, wants))
    ensures TextStays(w, Timeout(w, token))
  {
  }

  lemma {:induction false} ClosingLeavesText(w: World)
    ensures TextStays(w, Close(w))
    ensures TextStays(w, SocketClosed(w))
  {
  }

  /** Steps other than a chunk leave the text alone. */
  lemma {:induction false} TextUnchanged(w: World, action: Action, parse: string -> Record, next: World)
    requires next == Apply(w, action, parse) && !action.DoAbsorb?
    ensures TextStays(w, next)
  {
    var nobody := Frame("", "", Uninitialized);
    match action
    case DoRequest(verb, overrides, newlineInFrame) => SendingLeavesText(w, verb, overrides, newlineInFrame, nobody);
    case DoContinue(frame) => SendingLeavesText(w, "", false, false, frame);
    case DoWait(wants) => WaitingLeavesText(w, wants, 0);
    case DoTimeout(token) => WaitingLeavesText(w, _ => false, token);
    case DoClose => ClosingLeavesText(w);
    case DoSocketClosed => ClosingLeavesText(w);
  }

  /** Every step keeps the invariants. */
  lemma {:induction false} StepKeeps(w: World, action: Action, parse: string -> Record, next: World)
    requires Invariant(w, parse) && next == Apply(w, action, parse)
    ensures Invariant(next, parse)
  {
    if action.DoAbsorb? {
      AbsorbKeeps(w, action.chunk, parse, next);
    } else {
      TextUnchanged(w, action, parse, next);
      OtherStepKeeps(w, action, parse, next);
      StanceAfterStep(w, action, parse, next);
    }
  }

  lemma {:induction false} OtherStepKeeps(w: World, action: Action, parse: string -> Record, next: World)
    requires Kept(w) && next == Apply(w, action, parse) && !action.DoAbsorb?
    ensures Kept(next)
  {
    match action
    case DoRequest(verb, overrides, newlineInFrame) => RequestKeeps(w, verb, overrides, newlineInFrame, next);
    case DoContinue(frame) => ContinueKeeps(w, frame, next);
    case DoWait(wants) => WaitKeeps(w, wants, next);
    case DoTimeout(token) => TimeoutKeeps(w, token, next);
    case DoClose => CloseKeeps(w, next);
    case DoSocketClosed => SocketClosedKeeps(w, next);
  }

  /** They hold after every run. */
  lemma {:induction false} RunKeeps(actions: seq<Action>, parse: string -> Record, w: World)
    requires w == Run(actions, parse)
    ensures Invariant(w, parse)
  {
    if actions == [] {
      StartIsInvariant(parse);
    } else {
      var n := |actions| - 1;
      RunKeeps(actions[..n], parse, Run(actions[..n], parse));
      StepKeeps(Run(actions[..n], parse), actions[n], parse, w);
    }
  }

  lemma {:induction false} RunOneMore(actions: seq<Action>, action: Action, parse: string -> Record, w: World, next: World)
    requires w == Run(actions, parse) && next == Apply(w, action, parse)
    ensures next == Run(actions + [action], parse)
  {
    assert (actions + [action])[..|actions|] == actions;
  }

  // ---- What the invariants say

  /**
   The negotiation gate, over all runs: a frame other than an initialize request was written in the verified state,
   after a reply to an earlier initialize request that carried the pinned contract; at most one initialize request
   is in flight; and after a reply that carried another contract no frame is written.
   */
  lemma {:induction false} NegotiationGate(actions: seq<Action>, parse: string -> Record, w: World)
    requires w == Run(actions, parse)
    ensures forall j :: 0 <= j < |w.wire| && w.wire[j].verb != INITIALIZE ==>
              w.wire[j].prior == Verified && exists i :: VerifiedBy(w.wire, w.outcomes, i, j)
    ensures forall i, j :: 0 <= i < j < |w.wire| && w.wire[i].verb == w.wire[j].verb == INITIALIZE ==>
              !(w.wire[i].id in w.awaiting && w.wire[j].id in w.awaiting)
    ensures forall i :: Mismatched(w.wire, w.outcomes, i) ==> w.outcomes[w.wire[i].id].at == |w.wire|
  {
    RunKeeps(actions, parse, w);
    forall j | 0 <= j < |w.wire| && w.wire[j].verb != INITIALIZE
      ensures w.wire[j].prior == Verified && exists i :: VerifiedBy(w.wire, w.outcomes, i, j)
    {
      assert !Initializes(w.wire[j]);
      assert VerifiedBefore(w.wire, w.outcomes, j);
    }
    assert forall i :: 0 <= i < |w.wire| ==> (Initializes(w.wire[i]) <==> w.wire[i].verb == INITIALIZE);
  }

  /**
   The state of negotiation, over all runs, is what the frames and the replies that were acted on make it. So a frame
   other than an initialize request rests on a reply with the pinned contract that came before it, and every
   negotiation after that one was answered, harmlessly, before it too.
   */
  lemma {:induction false} NegotiationIsHistory(actions: seq<Action>, parse: string -> Record, w: World)
    requires w == Run(actions, parse)
    ensures w.init == Stance(w.wire, w.outcomes, w.awaiting, |w.wire|)
    ensures forall j :: 0 <= j < |w.wire| ==> w.wire[j].prior == Stance(w.wire, w.outcomes, w.awaiting, j)
    ensures forall j :: 0 <= j < |w.wire| && w.wire[j].verb != INITIALIZE ==>
              BackedBefore(w.wire, w.outcomes, w.awaiting, j)
  {
    RunKeeps(actions, parse, w);
    forall j | 0 <= j < |w.wire| && w.wire[j].verb != INITIALIZE
      ensures BackedBefore(w.wire, w.outcomes, w.awaiting, j)
    {
      assert !Initializes(w.wire[j]);
      var i := VerifiedIsBacked(w.wire, w.outcomes, w.awaiting, j);
    }
  }

  /**
   Request conservation, over all runs. Identities never repeat. A request is pending exactly while the socket has not
   closed and no record other than an event that came after its frame carried its identity; otherwise it was resolved,
   by a delivered record that carries its identity, or rejected when the socket closed.
   */
  lemma {:induction false} RequestConservation(actions: seq<Action>, parse: string -> Record, w: World)
    requires w == Run(actions, parse)
    ensures forall i, j :: 0 <= i < j < |w.wire| ==> w.wire[i].id != w.wire[j].id
    ensures forall i :: 0 <= i < |w.wire| ==> (w.wire[i].id in w.pending <==> w.wire[i].id !in w.outcomes)
    ensures |w.delivered| == |w.marks|
    ensures forall k :: 0 <= k < |w.wire| ==>
              (w.wire[k].id in w.pending <==> Open(w.delivered, w.marks, w.ended, w.wire[k].id, k, |w.delivered|))
    ensures forall id :: id in w.outcomes && w.outcomes[id].Resolved? ==>
              w.outcomes[id].record.requestId == Some(id) && w.outcomes[id].record in w.delivered
    ensures forall id :: id in w.outcomes && w.outcomes[id].Rejected? ==> w.ended.Some?
  {
    RunKeeps(actions, parse, w);
    forall i | 0 <= i < |w.wire| ensures w.wire[i].id in w.pending <==> w.wire[i].id !in w.outcomes {
      assert w.wire[i].id in Sent(w.wire);
    }
    forall id | id in w.outcomes && w.outcomes[id].Resolved? ensures w.outcomes[id].record in w.delivered {
      var i :| 0 <= i < |w.destinations| && w.destinations[i] == ToRequest(id);
      assert w.delivered[i] == w.outcomes[id].record;
    }
  }

  /**
   Routing, over all runs. Every record went where it belongs: an event to the events, the first record to carry the
   identity of an open request to that request, and others to the progress or the notices. Events, progress and notices
   hold theirs in arrival order, and a request that a record went to was resolved by that record and by no other.
   */
  lemma {:induction false} RecordRouting(actions: seq<Action>, parse: string -> Record, w: World)
    requires w == Run(actions, parse)
    ensures |w.delivered| == |w.marks| == |w.destinations|
    ensures forall i :: 0 <= i < |w.destinations| ==>
              w.destinations[i] == Place(w.wire, w.delivered, w.marks, w.ended, i)
    ensures w.events == Picked(w.delivered, w.destinations, ToEvents)
    ensures w.progress == ProgressOf(Picked(w.delivered, w.destinations, ToProgress))
    ensures w.notices == Picked(w.delivered, w.destinations, ToNotices)
    ensures forall i :: 0 <= i < |w.destinations| && w.destinations[i].ToRequest? ==>
              w.destinations[i].id in w.outcomes && w.outcomes[w.destinations[i].id].Resolved?
              && w.outcomes[w.destinations[i].id].record == w.delivered[i]
    ensures forall i, j :: 0 <= i < j < |w.destinations| && w.destinations[i].ToRequest? ==>
              w.destinations[i] != w.destinations[j]
  {
    RunKeeps(actions, parse, w);
  }

  /**
   Framing, over all runs and every cutting of the stream into chunks: what was delivered are the nonempty
   newline-terminated lines of the whole stream, and the buffer is its unterminated rest.
   */
  lemma {:induction false} Framing(actions: seq<Action>, parse: string -> Record, w: World)
    requires w == Run(actions, parse)
    ensures w.delivered == Parsed(SplitLines(w.received, '\n').lines, parse)
    ensures w.buffer == SplitLines(w.received, '\n').rest
  {
    RunKeeps(actions, parse, w);
    FramedIsSplit(w.received, w.lines, w.buffer, w.delivered, parse);
  }

  /**
   Waiting, over all runs: every wait is exactly one of live, answered and timed out; a live one keeps what it asked for
   and no stored event is that; and an answered one got the earliest stored event it asked for.
   */
  lemma {:induction false} WaitsAreAnswered(actions: seq<Action>, parse: string -> Record, w: World)
    requires w == Run(actions, parse)
    ensures Accounted(|w.asked|, Live(w.waiters), w.found.Keys, w.expired)
    ensures forall k :: 0 <= k < |w.waiters| ==> Asking(w.waiters[k], w.asked)
    ensures forall k, i :: 0 <= k < |w.waiters| && 0 <= i < |w.events| ==> !w.waiters[k].wants(w.events[i])
    ensures forall t :: t in w.found ==> t < |w.asked| && IsEarliest(w.events, w.asked[t], w.found[t])
  {
    RunKeeps(actions, parse, w);
    forall k, i | 0 <= k < |w.waiters| && 0 <= i < |w.events| ensures !w.waiters[k].wants(w.events[i]) {
      assert !Wanted(w.events, w.waiters[k].wants);
    }
  }

  /** The text received is the concatenation of the chunks, so only the text matters and not how it was cut. */
  lemma {:induction false} ReceivedIsChunks(actions: seq<Action>, parse: string -> Record)
    ensures Run(actions, parse).received == Chunks(actions)
  {
    if actions != [] {
      var n := |actions| - 1;
      ReceivedIsChunks(actions[..n], parse);
      var w, action := Run(actions[..n], parse), actions[n];
      if action.DoAbsorb? {
        DrainLeavesReceived(w.(buffer := w.buffer + action.chunk, received := w.received + action.chunk), parse);
      } else {
        TextUnchanged(w, action, parse, Run(actions, parse));
      }
    }
  }

  function Chunks(actions: seq<Action>): string
  {
    if actions == [] then ""
    else
      var last := actions[|actions| - 1];
      Chunks(actions[..|actions| - 1]) + (if last.DoAbsorb? then last.chunk else "")
  }

  lemma {:induction false} DrainLeavesReceived(w: World, parse: string -> Record)
    ensures Drain(w, parse).received == w.received
    decreases |w.buffer|
  {
    var newline := IndexOf(w.buffer, '\n');
    if newline.Some? {
      var line := w.buffer[..newline.value];
      var cut := w.(buffer := w.buffer[newline.value + 1..], lines := w.lines + [line]);
      if line != "" {
        DeliverLeavesText(cut, parse(line), Deliver(cut, parse(line)));
      }
      DrainLeavesReceived(CutLine(w, newline.value, parse), parse);
    }
  }

  lemma {:induction false} DrainLeavesWire(w: World, parse: string -> Record)
    ensures Drain(w, parse).wire == w.wire
    decreases |w.buffer|
  {
    var newline := IndexOf(w.buffer, '\n');
    if newline.Some? {
      var line := w.buffer[..newline.value];
      var cut := w.(buffer := w.buffer[newline.value + 1..], lines := w.lines + [line]);
      if line != "" {
        DeliverNotes(cut, parse(line), Deliver(cut, parse(line)));
      }
      DrainLeavesWire(CutLine(w, newline.value, parse), parse);
    }
  }

  lemma {:induction false} AbsorbLeavesWire(w: World, chunk: string, parse: string -> Record)
    ensures Absorb(w, chunk, parse).wire == w.wire && Absorb(w, chunk, parse).received == w.received + chunk
  {
    var longer := w.(buffer := w.buffer + chunk, received := w.received + chunk);
    DrainLeavesWire(longer, parse);
    DrainLeavesReceived(longer, parse);
  }

  /** The last frame of a run has an identity of its own, and was written in the verified state if it had to be. */
  lemma {:induction false} WrittenFrame(
    actions: seq<Action>, parse: string -> Record, w: World, before: seq<Frame>, frame: Frame)
    requires w == Run(actions, parse) && w.wire == before + [frame]
    ensures frame.id !in Sent(before)
    ensures frame.verb != INITIALIZE ==> BackedBefore(w.wire, w.outcomes, w.awaiting, |before|)
  {
    RequestConservation(actions, parse, w);
    NegotiationIsHistory(actions, parse, w);
    assert w.wire[|before|] == frame;
    forall i | 0 <= i < |before| ensures before[i].id != frame.id {
      assert w.wire[i] == before[i];
    }
  }
}
