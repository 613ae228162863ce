/**
 The `DaemonConnection` object of clients/node/daemon-client.mjs: its private fields, updated in place by its methods
 and callbacks, beside a ghost copy of the step system. A valid connection is one whose fields are those of the run of
 the steps taken so far, so everything proved of runs holds of it.
 */
module DaemonConnection {
  import opened Options
  import opened Daemon
  import opened DaemonGate
  import opened DaemonStance
  import opened DaemonWaiting
  import opened DaemonRuns

  // ---- What promises are settled with

  /** The answered waits after some more of them, each with its event, are answered. */
  function Answered(found: map<nat, Record>, released: seq<(nat, Record)>): map<nat, Record>
  {
    if released == [] then found
    else
      var n := |released| - 1;
      Answered(found, released[..n])[released[n].0 := released[n].1]
  }

  /** The outcomes after some more requests, each with its record, are resolved. */
  function Settled(outcomes: map<string, Outcome>, resolved: seq<(string, Record)>, at: nat): map<string, Outcome>
  {
    if resolved == [] then outcomes
    else
      var n := |resolved| - 1;
      Settled(outcomes, resolved[..n], at)[resolved[n].0 := Resolved(resolved[n].1, at)]
  }

  lemma {:induction false} AnsweredJoin(found: map<nat, Record>, a: seq<(nat, Record)>, b: seq<(nat, Record)>)
    ensures Answered(Answered(found, a), b) == Answered(found, a + b)
  {
    if b == [] {
      assert a + b == a;
    } else {
      var n := |b| - 1;
      AnsweredJoin(found, a, b[..n]);
      assert (a + b)[..|a| + n] == a + b[..n];
    }
  }

  lemma {:induction false} ResolvedOne(outcomes: map<string, Outcome>, resolved: seq<(string, Record)>, at: nat)
    requires |resolved| == 1
    ensures Settled(outcomes, resolved, at) == outcomes[resolved[0].0 := Resolved(resolved[0].1, at)]
  {
    assert resolved[..0] == [];
  }

  lemma {:induction false} SettledJoin(
    outcomes: map<string, Outcome>, a: seq<(string, Record)>, b: seq<(string, Record)>, at: nat)
    ensures Settled(Settled(outcomes, a, at), b, at) == Settled(outcomes, a + b, at)
  {
    if b == [] {
      assert a + b == a;
    } else {
      var n := |b| - 1;
      SettledJoin(outcomes, a, b[..n], at);
      assert (a + b)[..|a| + n] == a + b[..n];
    }
  }

  class Connection {
    const parse: string -> Record
    var buffer: string
    var pending: set<string>
    var events: seq<Record>
    var notices: seq<Record>
    var progress: seq<nat>
    var waiters: seq<Waiter>
    var closed: bool
    var nextRequest: nat
    var init: Init
    var nextToken: nat

    ghost var world: World
    ghost var actions: seq<Action>

    /** The fields are those of the step system. */
    ghost predicate Shows()
      reads this
    {
      && buffer == world.buffer && pending == world.pending && events == world.events && notices == world.notices
      && progress == world.progress && waiters == world.waiters && closed == world.closed
      && nextRequest == world.nextRequest && init == world.init && nextToken == world.nextToken
    }

    ghost predicate Valid()
      reads this
    {
      Shows() && world == Run(actions, parse)
    }

    constructor (parse: string -> Record)
      ensures Valid() && this.parse == parse && actions == []
    {
      this.parse := parse;
      buffer, pending, events, notices, progress, waiters := "", {}, [], [], [], [];
      closed, nextRequest, init, nextToken := false, 0, Uninitialized, 0;
      world, actions := START, [];
    }

    // ---- What callers and the socket may do

    /**
     A request up to its await: the frame that was written, unless the request threw. A frame other than an initialize
     request is written only after a reply with the pinned contract.
     */
    method Request(verb: string, overrides: bool, newlineInFrame: bool) returns (r: Option<Frame>)
      requires Valid()
      modifies this
      ensures Valid() && actions == old(actions) + [DoRequest(verb, overrides, newlineInFrame)]
      ensures r.Some? <==> !old(closed) && !overrides && !newlineInFrame
                           && (if verb == "initialize" then old(init) != Negotiating else old(init) == Verified)
      ensures r.None? ==> world.wire == old(world.wire)
      ensures r.Some? ==> world.wire == old(world.wire) + [r.value] && r.value.verb == verb
      ensures r.Some? ==> r.value.id !in old(Sent(world.wire))
      ensures r.Some? && verb != "initialize" ==>
                BackedBefore(world.wire, world.outcomes, world.awaiting, |old(world.wire)|)
    {
      RunOneMore(actions, DoRequest(verb, overrides, newlineInFrame), parse,
                 world, Daemon.Request(world, verb, overrides, newlineInFrame));
      actions := actions + [DoRequest(verb, overrides, newlineInFrame)];
      ghost var before := world.wire;
      if closed { return None; }
      if overrides { return None; }
      if verb != INITIALIZE && init != Verified { return None; }
      if verb == INITIALIZE && init == Negotiating { return None; }
      r := Issue(verb, newlineInFrame);
      if r.Some? {
        WrittenFrame(actions, parse, world, before, r.value);
      }
    }

    /** The code of a request after its await, given how its promise was settled. */
    method Resume(frame: Frame, outcome: Outcome)
      requires Valid() && Resumable(world, frame) && world.outcomes[frame.id] == outcome
      modifies this`init, this`closed, this`world, this`actions
      ensures Valid() && actions == old(actions) + [DoContinue(frame)]
      ensures frame.verb == "initialize" && outcome.Resolved? && IsPinned(outcome.record) ==>
                init == Verified && closed == old(closed)
      ensures (frame.verb == "initialize" && outcome.Resolved? && outcome.record.kind == "initialized"
               && !IsPinned(outcome.record)) ==> init == Refused && closed
      ensures frame.verb == "initialize" && outcome.Resolved? && outcome.record.kind != "initialized" ==>
                closed == old(closed)
                && init == if outcome.record.code == Some("invalid_request")
                              || outcome.record.code == Some("already_initialized") then frame.prior else Refused
      ensures outcome.Rejected? || frame.verb != "initialize" ==> init == old(init) && closed == old(closed)
    {
      Proceed(frame, outcome);
      RunOneMore(actions, DoContinue(frame), parse, old(world), world);
      actions := actions + [DoContinue(frame)];
    }

    /** The earliest stored event that is wanted, or one more waiter. */
    method WaitForEvent(wants: Record -> bool) returns (r: Option<Record>)
      requires Valid()
      modifies this`nextToken, this`waiters, this`world, this`actions
      ensures Valid() && actions == old(actions) + [DoWait(wants)]
      ensures r.Some? ==> IsEarliest(events, wants, r.value) && waiters == old(waiters)
      ensures r.None? ==> !Wanted(events, wants) && waiters == old(waiters) + [Waiter(old(nextToken), wants)]
    {
      r := FindOrWait(wants);
      RunOneMore(actions, DoWait(wants), parse, old(world), world);
      actions := actions + [DoWait(wants)];
    }

    /** The timer of a wait: that waiter leaves, and every other stays. */
    method OnTimeout(token: nat)
      requires Valid()
      modifies this`waiters, this`world, this`actions
      ensures Valid() && actions == old(actions) + [DoTimeout(token)]
      ensures OnlyLeaves(old(waiters), token, waiters)
      ensures token in old(Live(waiters)) ==> token in world.expired
    {
      StopWaiting(token);
      RunOneMore(actions, DoTimeout(token), parse, old(world), world);
      actions := actions + [DoTimeout(token)];
    }

    method CloseByCaller()
      requires Valid()
      modifies this`closed, this`world, this`actions
      ensures Valid() && actions == old(actions) + [DoClose] && closed
    {
      MarkClosed();
      RunOneMore(actions, DoClose, parse, old(world), world);
      actions := actions + [DoClose];
    }

    /** The socket's close event: nothing stays pending, and what was pending is rejected. */
    method OnSocketClose() returns (rejected: set<string>, released: seq<(nat, Record)>)
      requires Valid()
      modifies this`closed, this`pending, this`waiters, this`world, this`actions
      ensures Valid() && actions == old(actions) + [DoSocketClosed]
      ensures closed && pending == {} && world.wire == old(world.wire)
      ensures rejected == old(pending)
      ensures forall id :: id in rejected ==> id in world.outcomes && world.outcomes[id].Rejected?
      ensures world.found == Answered(old(world.found), released)
    {
      rejected, released := RejectAll();
      RunOneMore(actions, DoSocketClosed, parse, old(world), world);
      actions := actions + [DoSocketClosed];
    }

    /** A chunk from the socket: the waits it answers and the requests it resolves, each with its record. */
    method OnData(chunk: string) returns (released: seq<(nat, Record)>, resolved: seq<(string, Record)>)
      requires Valid()
      modifies this`buffer, this`pending, this`events, this`notices, this`progress, this`waiters, this`world, this`actions
      ensures Valid() && actions == old(actions) + [DoAbsorb(chunk)]
      ensures world.wire == old(world.wire) && world.received == old(world.received) + chunk
      ensures world.found == Answered(old(world.found), released)
      ensures world.outcomes == Settled(old(world.outcomes), resolved, |world.wire|)
    {
      AbsorbLeavesWire(world, chunk, parse);
      released, resolved := Absorb(chunk);
      RunOneMore(actions, DoAbsorb(chunk), parse, old(world), world);
      actions := actions + [DoAbsorb(chunk)];
    }

    // ---- The parts of these steps

    /** Writing a frame that may be written, unless it would contain a newline. */
    method Issue(verb: string, newlineInFrame: bool) returns (r: Option<Frame>)
      requires Shows() && Sendable(world, verb, false)
      modifies this`nextRequest, this`init, this`pending, this`world
      ensures Shows() && world == old(Daemon.Request(world, verb, false, newlineInFrame))
      ensures r.Some? <==> !newlineInFrame
      ensures r.Some? ==> r.value == Frame(RequestId(old(nextRequest)), verb, old(init))
    {
      world := Daemon.Request(world, verb, false, newlineInFrame);
      var id := RequestId(nextRequest);
      nextRequest := nextRequest + 1;
      if newlineInFrame { return None; }
      var prior := init;
      if verb == INITIALIZE { init := Negotiating; }
      pending := pending + {id};
      return Some(Frame(id, verb, prior));
    }

    method Proceed(frame: Frame, outcome: Outcome)
      requires Shows() && Resumable(world, frame) && world.outcomes[frame.id] == outcome
      modifies this`init, this`closed, this`world
      ensures Shows() && world == old(Daemon.Continue(world, frame))
    {
      world := Daemon.Continue(world, frame);
      if outcome.Rejected? { return; }
      var reply := outcome.record;
      if frame.verb == INITIALIZE {
        if reply.kind == "initialized" {
          if !Matches(reply) {
            init := Refused;
            closed := true;
            return;
          }
          init := Verified;
        } else {
          init := if reply.code == Some("invalid_request") || reply.code == Some("already_initialized")
                  then frame.prior else Refused;
        }
      }
    }

    method FindOrWait(wants: Record -> bool) returns (r: Option<Record>)
      requires Shows()
      modifies this`nextToken, this`waiters, this`world
      ensures Shows() && world == old(Daemon.Wait(world, wants))
      ensures r.Some? ==> IsEarliest(events, wants, r.value) && waiters == old(waiters)
      ensures r.None? ==> !Wanted(events, wants) && waiters == old(waiters) + [Waiter(old(nextToken), wants)]
    {
      world := Daemon.Wait(world, wants);
      var token := nextToken;
      nextToken := nextToken + 1;
      if Wanted(events, wants) {
        EarliestIsEarliest(events, wants);
        return Some(Earliest(events, wants));
      }
      waiters := waiters + [Waiter(token, wants)];
      return None;
    }

    method StopWaiting(token: nat)
      requires Shows()
      modifies this`waiters, this`world
      ensures Shows() && world == old(Daemon.Timeout(world, token))
      ensures OnlyLeaves(old(waiters), token, waiters)
      ensures token in old(Live(waiters)) ==> token in world.expired
    {
      world := Daemon.Timeout(world, token);
      TimeoutRemoves(old(world), token, world);
      waiters := Without(waiters, token);
      WithoutKeeps(old(waiters), token, waiters);
    }

    method MarkClosed()
      requires Shows()
      modifies this`closed, this`world
      ensures Shows() && world == old(Daemon.Close(world)) && closed
    {
      closed := true;
      world := Daemon.Close(world);
    }

    method RejectAll() returns (rejected: set<string>, released: seq<(nat, Record)>)
      requires Shows()
      modifies this`closed, this`pending, this`waiters, this`world
      ensures Shows() && world == old(Daemon.SocketClosed(world))
      ensures rejected == old(pending) && world.found == Answered(old(world.found), released)
    {
      world := Ended(world);
      closed := true;
      rejected := pending;
      pending := {};
      released := ReleaseWaiters();
    }

    /** The filter over the waiters, as a loop; each waiter that leaves gets the earliest event it wants. */
    method ReleaseWaiters() returns (released: seq<(nat, Record)>)
      requires Shows()
      modifies this`waiters, this`world
      ensures Shows() && world == old(Daemon.Release(world))
      ensures world.found == Answered(old(world.found), released)
    {
      var kept: seq<Waiter> := [];
      released := [];
      for i := 0 to |waiters|
        invariant kept == Remaining(waiters[..i], events)
        invariant Answered(world.found, released) == Satisfied(waiters[..i], events, world.found)
      {
        assert waiters[..i + 1][..i] == waiters[..i];
        if Wanted(events, waiters[i].wants) {
          var gets := (waiters[i].token, Earliest(events, waiters[i].wants));
          assert (released + [gets])[..|released|] == released;
          released := released + [gets];
        } else {
          kept := kept + [waiters[i]];
        }
      }
      assert waiters[..|waiters|] == waiters;
      waiters := kept;
      world := Daemon.Release(world);
    }

    /** One record: an event, the answer to a pending request, or something else. */
    method Deliver(record: Record) returns (released: seq<(nat, Record)>, resolved: seq<(string, Record)>)
      requires Shows()
      modifies this`pending, this`events, this`notices, this`progress, this`waiters, this`world
      ensures Shows() && world == old(Daemon.Deliver(world, record))
      ensures world.wire == old(world.wire)
      ensures world.found == Answered(old(world.found), released)
      ensures world.outcomes == Settled(old(world.outcomes), resolved, |world.wire|)
    {
      released, resolved := [], [];
      if record.kind == "event" {
        events := events + [record];
        world := Noted(world, record, ToEvents).(events := events);
        released := ReleaseWaiters();
        return;
      }
      if record.requestId.Some? && record.requestId.value in pending {
        resolved := [(record.requestId.value, record)];
        ResolvedOne(world.outcomes, resolved, |world.wire|);
        world := DeliverAnswer(world, record, record.requestId.value);
        pending := pending - {record.requestId.value};
        return;
      }
      world := DeliverOther(world, record, Destined(world, record));
      if record.kind == "progress" {
        progress := progress + [record.progress];
      } else {
        notices := notices + [record];
      }
    }

    /** The buffering loop: cut a line at each newline and deliver it unless it is empty. */
    method Absorb(chunk: string) returns (released: seq<(nat, Record)>, resolved: seq<(string, Record)>)
      requires Shows()
      modifies this`buffer, this`pending, this`events, this`notices, this`progress, this`waiters, this`world
      ensures Shows() && world == old(Daemon.Absorb(world, chunk, parse))
      ensures world.wire == old(world.wire)
      ensures world.found == Answered(old(world.found), released)
      ensures world.outcomes == Settled(old(world.outcomes), resolved, |world.wire|)
    {
      ghost var goal := Daemon.Absorb(world, chunk, parse);
      ghost var found, outcomes := world.found, world.outcomes;
      released, resolved := [], [];
      buffer := buffer + chunk;
      world := world.(buffer := buffer, received := world.received + chunk);
      var newline := IndexOf(buffer, '\n');
      while newline.Some?
        invariant Shows() && newline == IndexOf(buffer, '\n')
        invariant Daemon.Drain(world, parse) == goal && world.wire == old(world.wire)
        invariant world.found == Answered(found, released)
        invariant world.outcomes == Settled(outcomes, resolved, |world.wire|)
        decreases |buffer|
      {
        var more, others := TakeLine(newline.value);
        AnsweredJoin(found, released, more);
        SettledJoin(outcomes, resolved, others, |world.wire|);
        released, resolved := released + more, resolved + others;
        newline := IndexOf(buffer, '\n');
      }
    }

    method TakeLine(newline: nat) returns (released: seq<(nat, Record)>, resolved: seq<(string, Record)>)
      requires Shows() && newline < |buffer|
      modifies this`buffer, this`pending, this`events, this`notices, this`progress, this`waiters, this`world
      ensures Shows() && world == old(Daemon.CutLine(world, newline, parse)) && |buffer| < old(|buffer|)
      ensures world.wire == old(world.wire)
      ensures world.found == Answered(old(world.found), released)
      ensures world.outcomes == Settled(old(world.outcomes), resolved, |world.wire|)
    {
      released, resolved := [], [];
      var line := buffer[..newline];
      buffer := buffer[newline + 1..];
      world := world.(buffer := buffer, lines := world.lines + [line]);
      if line != "" {
        DeliverLeavesText(world, parse(line), Daemon.Deliver(world, parse(line)));
        released, resolved := Deliver(parse(line));
      }
    }
  }
}
