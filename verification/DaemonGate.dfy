/**
 What every run of the connection keeps about requests.

 Identities never repeat, and every request is pending or settled exactly once.

 Nothing but an initialize request is written before the pinned contract is verified: the verified state comes only
 from a reply with that contract, a negotiation lasts until the code after its await has run, and a reply with another
 contract leaves the connection closed or about to close.
 */
module DaemonGate {
  import opened Options
  import opened Daemon
  import opened Characters

  // ---- Identities

  /** An identity is the letter n and a decimal numeral. */
  lemma {:induction false} RequestIdIs(n: nat)
    ensures RequestId(n) != "" && RequestId(n)[0] == 'n'
    ensures IsNumeral(RequestId(n)[1..]) && Numeral(RequestId(n)[1..]) == n
  {
    assert RequestId(n)[1..] == Decimal(n);
    DecimalInverts(n);
  }

  lemma {:induction false} RequestIdsDiffer(m: nat, n: nat)
    requires RequestId(m) == RequestId(n)
    ensures m == n
  {
    RequestIdIs(m);
    RequestIdIs(n);
  }

  ghost predicate Used(id: string, n: nat)
  {
    exists k: nat :: k < n && id == RequestId(k)
  }

  ghost predicate Distinct(wire: seq<Frame>)
  {
    forall i, j :: 0 <= i < j < |wire| ==> wire[i].id != wire[j].id
  }

  ghost predicate Ids(wire: seq<Frame>, nextRequest: nat)
  {
    Distinct(wire) && forall i :: 0 <= i < |wire| ==> Used(wire[i].id, nextRequest)
  }

  lemma {:induction false} FreshId(wire: seq<Frame>, n: nat)
    requires Ids(wire, n)
    ensures forall i :: 0 <= i < |wire| ==> wire[i].id != RequestId(n)
  {
    forall i | 0 <= i < |wire| ensures wire[i].id != RequestId(n) {
      var k: nat :| k < n && wire[i].id == RequestId(k);
      if wire[i].id == RequestId(n) { RequestIdsDiffer(k, n); }
    }
  }

  lemma {:induction false} UsedLater(id: string, n: nat)
    requires Used(id, n)
    ensures Used(id, n + 1)
  {
    var k: nat :| k < n && id == RequestId(k);
    assert k < n + 1;
  }

  lemma {:induction false} IdsGrow(wire: seq<Frame>, n: nat, verb: string, prior: Init)
    requires Ids(wire, n)
    ensures Ids(wire, n + 1) && Ids(wire + [Frame(RequestId(n), verb, prior)], n + 1)
  {
    FreshId(wire, n);
    forall i | 0 <= i < |wire| ensures Used(wire[i].id, n + 1) { UsedLater(wire[i].id, n); }
    assert Used(RequestId(n), n + 1);
  }

  // ---- Requests

  ghost function Sent(wire: seq<Frame>): set<string>
  {
    set i | 0 <= i < |wire| :: wire[i].id
  }

  /** Every request sent is exactly one of pending, resolved by a record with its identity, or rejected at close. */
  ghost predicate Requests(
    wire: seq<Frame>, pending: set<string>, outcomes: map<string, Outcome>, awaiting: set<string>, ended: bool)
  {
    && pending !! outcomes.Keys
    && pending + outcomes.Keys == Sent(wire)
    && pending <= awaiting <= Sent(wire)
    && (forall id :: id in outcomes ==> outcomes[id].at <= |wire|)
    && (forall id :: id in outcomes && outcomes[id].Resolved? ==> outcomes[id].record.requestId == Some(id))
    && (forall id :: id in outcomes && outcomes[id].Rejected? ==> ended)
  }

  lemma {:induction false} SentGrows(wire: seq<Frame>, frame: Frame)
    ensures Sent(wire + [frame]) == Sent(wire) + {frame.id}
  {
    var longer := wire + [frame];
    forall id | id in Sent(wire) + {frame.id} ensures id in Sent(longer) {
      if id in Sent(wire) {
        var i :| 0 <= i < |wire| && wire[i].id == id;
        assert longer[i].id == id;
      } else {
        assert longer[|wire|].id == id;
      }
    }
  }

  lemma {:induction false} RequestsAfterSend(w: World, frame: Frame)
    requires Requests(w.wire, w.pending, w.outcomes, w.awaiting, w.ended.Some?) && frame.id !in Sent(w.wire)
    ensures Requests(w.wire + [frame], w.pending + {frame.id}, w.outcomes, w.awaiting + {frame.id}, w.ended.Some?)
  {
    SentGrows(w.wire, frame);
  }

  lemma {:induction false} RequestsAfterResolve(w: World, id: string, record: Record)
    requires Requests(w.wire, w.pending, w.outcomes, w.awaiting, w.ended.Some?)
    requires id in w.pending && record.requestId == Some(id)
    ensures Requests(w.wire, w.pending - {id}, w.outcomes[id := Resolved(record, |w.wire|)], w.awaiting, w.ended.Some?)
  {
    var outcomes := w.outcomes[id := Resolved(record, |w.wire|)];
    assert outcomes.Keys == w.outcomes.Keys + {id};
  }

  lemma {:induction false} RequestsAfterClose(w: World)
    requires Requests(w.wire, w.pending, w.outcomes, w.awaiting, w.ended.Some?)
    ensures Requests(w.wire, {}, w.outcomes + map id | id in w.pending :: Rejected(|w.wire|), w.awaiting, true)
  {
    var outcomes := w.outcomes + map id | id in w.pending :: Rejected(|w.wire|);
    assert outcomes.Keys == w.outcomes.Keys + w.pending;
  }

  // ---- The negotiation gate

  predicate Initializes(frame: Frame) { frame.verb == INITIALIZE }

  /** The initialize request written as frame `i` was answered with the pinned contract before frame `n`. */
  ghost predicate VerifiedBy(wire: seq<Frame>, outcomes: map<string, Outcome>, i: int, n: int)
  {
    && 0 <= i < n && i < |wire| && Initializes(wire[i]) && wire[i].id in outcomes
    && outcomes[wire[i].id].Resolved? && Matches(outcomes[wire[i].id].record) && outcomes[wire[i].id].at <= n
  }

  ghost predicate VerifiedBefore(wire: seq<Frame>, outcomes: map<string, Outcome>, n: int)
  {
    exists i :: VerifiedBy(wire, outcomes, i, n)
  }

  /** The initialize request written as frame `i` was answered with another contract. */
  ghost predicate Mismatched(wire: seq<Frame>, outcomes: map<string, Outcome>, i: int)
  {
    && 0 <= i < |wire| && Initializes(wire[i]) && wire[i].id in outcomes && outcomes[wire[i].id].Resolved?
    && outcomes[wire[i].id].record.kind == "initialized" && !Matches(outcomes[wire[i].id].record)
  }

  /** Every other frame was written in the verified state, and no initialize during a negotiation. */
  ghost predicate Permitted(wire: seq<Frame>)
  {
    forall i :: 0 <= i < |wire| ==>
      if Initializes(wire[i]) then wire[i].prior != Negotiating else wire[i].prior == Verified
  }

  /** A negotiation lasts until the code after its await runs, and there is one at a time. */
  ghost predicate OneNegotiation(wire: seq<Frame>, awaiting: set<string>, init: Init)
  {
    && (forall i :: 0 <= i < |wire| && Initializes(wire[i]) && wire[i].id in awaiting ==> init == Negotiating)
    && (forall i, j :: 0 <= i < j < |wire| && Initializes(wire[i]) && Initializes(wire[j]) ==>
          !(wire[i].id in awaiting && wire[j].id in awaiting))
  }

  /** The verified state, now or when a frame was written, comes from a reply with the pinned contract. */
  ghost predicate Earned(wire: seq<Frame>, outcomes: map<string, Outcome>, init: Init)
  {
    && (init == Verified ==> VerifiedBefore(wire, outcomes, |wire|))
    && (forall j :: 0 <= j < |wire| && wire[j].prior == Verified ==> VerifiedBefore(wire, outcomes, j))
  }

  /** After a reply with another contract nothing more is written. */
  ghost predicate Halted(
    wire: seq<Frame>, outcomes: map<string, Outcome>, awaiting: set<string>, init: Init, closed: bool)
  {
    forall i :: Mismatched(wire, outcomes, i) ==>
      |wire| == outcomes[wire[i].id].at && (closed || (wire[i].id in awaiting && init == Negotiating))
  }

  ghost predicate Gate(
    wire: seq<Frame>, outcomes: map<string, Outcome>, awaiting: set<string>, init: Init, closed: bool)
  {
    && Permitted(wire) && OneNegotiation(wire, awaiting, init) && Earned(wire, outcomes, init)
    && Halted(wire, outcomes, awaiting, init, closed)
  }

  lemma {:induction false} StillVerified(
    wire: seq<Frame>, outcomes: map<string, Outcome>, n: int, wire': seq<Frame>, outcomes': map<string, Outcome>, n': int)
    requires VerifiedBefore(wire, outcomes, n) && wire <= wire' && n <= n'
    requires forall id :: id in outcomes ==> id in outcomes' && outcomes'[id] == outcomes[id]
    ensures VerifiedBefore(wire', outcomes', n')
  {
    var i :| VerifiedBy(wire, outcomes, i, n);
    assert wire'[i] == wire[i];
    assert VerifiedBy(wire', outcomes', i, n');
  }

  // Writing a frame that may be written

  lemma {:induction false} OneNegotiationAfterSend(wire: seq<Frame>, awaiting: set<string>, init: Init, frame: Frame)
    requires OneNegotiation(wire, awaiting, init) && frame.id !in Sent(wire)
    requires Initializes(frame) ==> init != Negotiating
    ensures OneNegotiation(wire + [frame], awaiting + {frame.id}, if Initializes(frame) then Negotiating else init)
  {
    forall i | 0 <= i < |wire| ensures wire[i].id != frame.id {
      assert wire[i].id in Sent(wire);
    }
  }

  lemma {:induction false} EarnedAfterSend(
    wire: seq<Frame>, outcomes: map<string, Outcome>, init: Init, frame: Frame, next: Init)
    requires Earned(wire, outcomes, init) && frame.prior == init && (next == Verified ==> init == Verified)
    ensures Earned(wire + [frame], outcomes, next)
  {
    var longer := wire + [frame];
    if init == Verified {
      StillVerified(wire, outcomes, |wire|, longer, outcomes, |wire|);
      StillVerified(wire, outcomes, |wire|, longer, outcomes, |longer|);
    }
    forall j | 0 <= j < |wire| && wire[j].prior == Verified ensures VerifiedBefore(longer, outcomes, j) {
      StillVerified(wire, outcomes, j, longer, outcomes, j);
    }
  }

  lemma {:induction false} HaltedAfterSend(w: World, frame: Frame, awaiting: set<string>, next: Init)
    requires Halted(w.wire, w.outcomes, w.awaiting, w.init, w.closed)
    requires Sendable(w, frame.verb, false) && frame.id !in w.outcomes
    ensures Halted(w.wire + [frame], w.outcomes, awaiting, next, w.closed)
  {
    var longer := w.wire + [frame];
    forall i ensures !Mismatched(longer, w.outcomes, i) {
      if Mismatched(longer, w.outcomes, i) && i < |w.wire| {
        assert Mismatched(w.wire, w.outcomes, i);
      }
    }
  }

  lemma {:induction false} GateAfterSend(w: World, frame: Frame)
    requires Gate(w.wire, w.outcomes, w.awaiting, w.init, w.closed)
    requires Requests(w.wire, w.pending, w.outcomes, w.awaiting, w.ended.Some?)
    requires Sendable(w, frame.verb, false) && frame.prior == w.init && frame.id !in Sent(w.wire)
    ensures Gate(w.wire + [frame], w.outcomes, w.awaiting + {frame.id},
                 if Initializes(frame) then Negotiating else w.init, w.closed)
  {
    var next := if Initializes(frame) then Negotiating else w.init;
    OneNegotiationAfterSend(w.wire, w.awaiting, w.init, frame);
    EarnedAfterSend(w.wire, w.outcomes, w.init, frame, next);
    HaltedAfterSend(w, frame, w.awaiting + {frame.id}, next);
  }

  /** Settling requests that were pending. */
  lemma {:induction false} GateAfterSettle(w: World, outcomes: map<string, Outcome>)
    requires Gate(w.wire, w.outcomes, w.awaiting, w.init, w.closed)
    requires Requests(w.wire, w.pending, w.outcomes, w.awaiting, w.ended.Some?)
    requires forall id :: id in w.outcomes ==> id in outcomes && outcomes[id] == w.outcomes[id]
    requires forall id :: id in outcomes && id !in w.outcomes ==> id in w.pending && outcomes[id].at == |w.wire|
    ensures Gate(w.wire, outcomes, w.awaiting, w.init, w.closed)
  {
    if w.init == Verified {
      StillVerified(w.wire, w.outcomes, |w.wire|, w.wire, outcomes, |w.wire|);
    }
    forall j | 0 <= j < |w.wire| && w.wire[j].prior == Verified ensures VerifiedBefore(w.wire, outcomes, j) {
      StillVerified(w.wire, w.outcomes, j, w.wire, outcomes, j);
    }
    forall i | Mismatched(w.wire, outcomes, i)
      ensures |w.wire| == outcomes[w.wire[i].id].at
      ensures w.closed || (w.wire[i].id in w.awaiting && w.init == Negotiating)
    {
      if w.wire[i].id in w.outcomes {
        assert Mismatched(w.wire, w.outcomes, i);
      }
    }
  }

  lemma {:induction false} GateAfterAnswer(w: World, id: string, outcome: Outcome)
    requires Gate(w.wire, w.outcomes, w.awaiting, w.init, w.closed)
    requires Requests(w.wire, w.pending, w.outcomes, w.awaiting, w.ended.Some?)
    requires id in w.pending && outcome.at == |w.wire|
    ensures Gate(w.wire, w.outcomes[id := outcome], w.awaiting, w.init, w.closed)
  {
    GateAfterSettle(w, w.outcomes[id := outcome]);
  }

  /** The end of a request that does not move the negotiation. */
  lemma {:induction false} GateAfterLeaving(w: World, i: int, awaiting: set<string>)
    requires Gate(w.wire, w.outcomes, w.awaiting, w.init, w.closed) && Distinct(w.wire)
    requires 0 <= i < |w.wire| && awaiting == w.awaiting - {w.wire[i].id} && !Mismatched(w.wire, w.outcomes, i)
    ensures Gate(w.wire, w.outcomes, awaiting, w.init, w.closed)
  {
    forall k | Mismatched(w.wire, w.outcomes, k) ensures w.closed || (w.wire[k].id in awaiting && w.init == Negotiating) {
      assert k != i;
    }
  }

  /** The end of an initialize request that does: no other negotiation was under way. */
  lemma {:induction false} GateAfterMoving(w: World, i: int, awaiting: set<string>, init: Init, closed: bool)
    requires Gate(w.wire, w.outcomes, w.awaiting, w.init, w.closed) && Distinct(w.wire)
    requires 0 <= i < |w.wire| && Initializes(w.wire[i]) && w.wire[i].id in w.awaiting
    requires awaiting == w.awaiting - {w.wire[i].id}
    requires w.closed ==> closed
    requires Mismatched(w.wire, w.outcomes, i) ==> closed
    requires init == Verified ==> VerifiedBefore(w.wire, w.outcomes, |w.wire|)
    ensures Gate(w.wire, w.outcomes, awaiting, init, closed)
  {
    forall k | 0 <= k < |w.wire| && Initializes(w.wire[k]) && k != i ensures w.wire[k].id !in w.awaiting {
    }
    forall k | Mismatched(w.wire, w.outcomes, k) ensures closed {
    }
  }

  lemma {:induction false} NegotiatedIsEarned(w: World, i: int, reply: Record)
    requires Gate(w.wire, w.outcomes, w.awaiting, w.init, w.closed)
    requires Requests(w.wire, w.pending, w.outcomes, w.awaiting, w.ended.Some?)
    requires 0 <= i < |w.wire| && Initializes(w.wire[i]) && w.wire[i].id in w.outcomes
    requires w.outcomes[w.wire[i].id].Resolved? && w.outcomes[w.wire[i].id].record == reply
    ensures Negotiated(w.wire[i].prior, reply) == Verified ==> VerifiedBefore(w.wire, w.outcomes, |w.wire|)
  {
    if Matches(reply) {
      assert VerifiedBy(w.wire, w.outcomes, i, |w.wire|);
    } else if w.wire[i].prior == Verified {
      StillVerified(w.wire, w.outcomes, i, w.wire, w.outcomes, |w.wire|);
    }
  }

  /** The code after an await: only the answer to an initialize request moves the negotiation. */
  lemma {:induction false} GateAfterContinue(w: World, frame: Frame, next: World)
    requires Gate(w.wire, w.outcomes, w.awaiting, w.init, w.closed) && Distinct(w.wire)
    requires Requests(w.wire, w.pending, w.outcomes, w.awaiting, w.ended.Some?)
    requires next == Continue(w, frame)
    ensures Gate(next.wire, next.outcomes, next.awaiting, next.init, next.closed)
  {
    if Resumable(w, frame) {
      var i :| 0 <= i < |w.wire| && w.wire[i] == frame;
      if Answers(frame, w.outcomes[frame.id]) {
        NegotiatedIsEarned(w, i, w.outcomes[frame.id].record);
        GateAfterMoving(w, i, next.awaiting, next.init, next.closed);
      } else {
        GateAfterLeaving(w, i, next.awaiting);
      }
    }
  }
}
