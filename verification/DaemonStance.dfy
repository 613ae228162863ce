/** The state of negotiation as a function of the frames written and their replies, and of nothing else. */
module DaemonStance {
  import opened Options
  import opened Daemon
  import opened DaemonGate

  /** A reply with the pinned contract. */
  predicate IsPinned(reply: Record)
  {
    reply.kind == "initialized" && reply.generation == Some(GENERATION) && reply.digest == Some(SCHEMA_DIGEST)
  }

  /** A refusal that says nothing against the contract: the request was malformed or not the first. */
  predicate IsHarmless(reply: Record)
  {
    reply.kind != "initialized" && (reply.code == Some("already_initialized") || reply.code == Some("invalid_request"))
  }

  /**
   Where the first `n` frames leave the negotiation: it is under way while the last initialize request among them has no
   reply that was acted on; a reply with the pinned contract verifies, a harmless one changes nothing, and any other
   refuses.
   */
  ghost function Stance(wire: seq<Frame>, outcomes: map<string, Outcome>, awaiting: set<string>, n: nat): Init
    requires n <= |wire|
  {
    if n == 0 then Uninitialized
    else if !Initializes(wire[n - 1]) then Stance(wire, outcomes, awaiting, n - 1)
    else if !ActedOn(outcomes, awaiting, wire[n - 1].id) then Negotiating
    else if IsPinned(outcomes[wire[n - 1].id].record) then Verified
    else if IsHarmless(outcomes[wire[n - 1].id].record) then Stance(wire, outcomes, awaiting, n - 1)
    else Refused
  }

  /** A request was resolved and the code after its await has run. */
  predicate ActedOn(outcomes: map<string, Outcome>, awaiting: set<string>, id: string)
  {
    id !in awaiting && id in outcomes && outcomes[id].Resolved?
  }

  /** Every frame was written in the state that the frames before it had left. */
  ghost predicate Consistent(wire: seq<Frame>, outcomes: map<string, Outcome>, awaiting: set<string>, init: Init)
  {
    && init == Stance(wire, outcomes, awaiting, |wire|)
    && forall j :: 0 <= j < |wire| ==> wire[j].prior == Stance(wire, outcomes, awaiting, j)
  }

  /** An initialize request is settled before anything else is written. */
  ghost predicate Prompt(wire: seq<Frame>, outcomes: map<string, Outcome>)
  {
    forall i :: 0 <= i < |wire| && Initializes(wire[i]) && wire[i].id in outcomes ==> outcomes[wire[i].id].at == i + 1
  }

  ghost predicate StanceIn(w: World)
  {
    Consistent(w.wire, w.outcomes, w.awaiting, w.init) && Prompt(w.wire, w.outcomes)
  }

  /** The stance depends only on how the initialize requests were answered. */
  lemma {:induction false} StanceStays(
    wire: seq<Frame>, outcomes: map<string, Outcome>, awaiting: set<string>,
    wire': seq<Frame>, outcomes': map<string, Outcome>, awaiting': set<string>, n: nat)
    requires n <= |wire| <= |wire'| && forall i :: 0 <= i < n ==> wire'[i] == wire[i]
    requires forall i :: 0 <= i < n && Initializes(wire[i]) ==>
               SameAnswer(outcomes, awaiting, outcomes', awaiting', wire[i].id)
    ensures Stance(wire, outcomes, awaiting, n) == Stance(wire', outcomes', awaiting', n)
  {
    if n > 0 {
      StanceStays(wire, outcomes, awaiting, wire', outcomes', awaiting', n - 1);
      assert wire'[n - 1] == wire[n - 1];
      assert Initializes(wire[n - 1]) ==> SameAnswer(outcomes, awaiting, outcomes', awaiting', wire[n - 1].id);
    }
  }

  predicate SameAnswer(
    outcomes: map<string, Outcome>, awaiting: set<string>, outcomes': map<string, Outcome>, awaiting': set<string>,
    id: string)
  {
    && ActedOn(outcomes, awaiting, id) == ActedOn(outcomes', awaiting', id)
    && (ActedOn(outcomes, awaiting, id) ==> outcomes'[id] == outcomes[id])
  }

  /** A negotiation that is under way concerns the last frame. */
  lemma {:induction false} NegotiationIsLast(w: World, i: int)
    requires StanceIn(w) && Permitted(w.wire)
    requires 0 <= i < |w.wire| && Initializes(w.wire[i]) && w.wire[i].id in w.awaiting
    ensures i == |w.wire| - 1
  {
    if i < |w.wire| - 1 {
      UnderWay(w.wire, w.outcomes, w.awaiting, i);
    }
  }

  lemma {:induction false} UnderWay(wire: seq<Frame>, outcomes: map<string, Outcome>, awaiting: set<string>, i: nat)
    requires i < |wire| && Initializes(wire[i]) && wire[i].id in awaiting
    ensures Stance(wire, outcomes, awaiting, i + 1) == Negotiating
  {
  }

  /** What stays true of the frames that are there when more is written or another answer is acted on. */
  lemma {:induction false} ConsistentStays(
    wire: seq<Frame>, outcomes: map<string, Outcome>, awaiting: set<string>,
    wire': seq<Frame>, outcomes': map<string, Outcome>, awaiting': set<string>, n: nat)
    requires n <= |wire| <= |wire'| && forall i :: 0 <= i < n ==> wire'[i] == wire[i]
    requires forall i :: 0 <= i < n && Initializes(wire[i]) ==>
               SameAnswer(outcomes, awaiting, outcomes', awaiting', wire[i].id)
    requires forall j :: 0 <= j < n ==> wire[j].prior == Stance(wire, outcomes, awaiting, j)
    ensures forall j :: 0 <= j < n ==> wire'[j].prior == Stance(wire', outcomes', awaiting', j)
    ensures Stance(wire, outcomes, awaiting, n) == Stance(wire', outcomes', awaiting', n)
  {
    forall j | 0 <= j <= n ensures Stance(wire, outcomes, awaiting, j) == Stance(wire', outcomes', awaiting', j) {
      StanceStays(wire, outcomes, awaiting, wire', outcomes', awaiting', j);
    }
  }

  lemma {:induction false} StanceAfterSend(w: World, frame: Frame)
    requires StanceIn(w) && Requests(w.wire, w.pending, w.outcomes, w.awaiting, w.ended.Some?)
    requires frame.prior == w.init && frame.id !in Sent(w.wire)
    ensures Consistent(w.wire + [frame], w.outcomes, w.awaiting + {frame.id},
                       if Initializes(frame) then Negotiating else w.init)
    ensures Prompt(w.wire + [frame], w.outcomes)
  {
    var longer, awaiting, n := w.wire + [frame], w.awaiting + {frame.id}, |w.wire|;
    forall i | 0 <= i < n ensures w.wire[i].id != frame.id {
      assert w.wire[i].id in Sent(w.wire);
    }
    ConsistentStays(w.wire, w.outcomes, w.awaiting, longer, w.outcomes, awaiting, n);
    assert longer[n] == frame;
    ConsistentWithLast(longer, w.outcomes, awaiting, n, frame);
  }

  lemma {:induction false} ConsistentWithLast(
    wire: seq<Frame>, outcomes: map<string, Outcome>, awaiting: set<string>, n: nat, frame: Frame)
    requires |wire| == n + 1 && wire[n] == frame && frame.id in awaiting
    requires forall j :: 0 <= j < n ==> wire[j].prior == Stance(wire, outcomes, awaiting, j)
    requires frame.prior == Stance(wire, outcomes, awaiting, n)
    ensures Consistent(wire, outcomes, awaiting, if Initializes(frame) then Negotiating else frame.prior)
  {
  }

  /** Settling requests that were pending answers none yet. */
  lemma {:induction false} StanceAfterSettle(w: World, outcomes: map<string, Outcome>)
    requires StanceIn(w) && Permitted(w.wire)
    requires Requests(w.wire, w.pending, w.outcomes, w.awaiting, w.ended.Some?)
    requires forall id :: id in w.outcomes ==> id in outcomes && outcomes[id] == w.outcomes[id]
    requires forall id :: id in outcomes && id !in w.outcomes ==> id in w.pending && outcomes[id].at == |w.wire|
    ensures Consistent(w.wire, outcomes, w.awaiting, w.init) && Prompt(w.wire, outcomes)
  {
    ConsistentStays(w.wire, w.outcomes, w.awaiting, w.wire, outcomes, w.awaiting, |w.wire|);
    forall i | 0 <= i < |w.wire| && Initializes(w.wire[i]) && w.wire[i].id in outcomes
      ensures outcomes[w.wire[i].id].at == i + 1
    {
      if w.wire[i].id !in w.outcomes {
        NegotiationIsLast(w, i);
      }
    }
  }

  /** The rule of the source is the rule of the stance. */
  lemma {:induction false} NegotiatedIsStance(prior: Init, reply: Record)
    ensures IsPinned(reply) ==> Negotiated(prior, reply) == Verified && !Refuses(reply)
    ensures IsHarmless(reply) ==> Negotiated(prior, reply) == prior && !Refuses(reply)
    ensures !IsPinned(reply) && !IsHarmless(reply) ==> Negotiated(prior, reply) == Refused
    ensures Refuses(reply) <==> reply.kind == "initialized" && !IsPinned(reply)
  {
  }

  /** The end of one request changes how no other was answered. */
  lemma {:induction false} OthersStay(
    wire: seq<Frame>, outcomes: map<string, Outcome>, awaiting: set<string>, k: nat, awaiting': set<string>, n: nat)
    requires Distinct(wire) && k < |wire| && n <= |wire| && awaiting' == awaiting - {wire[k].id}
    requires k < n ==> !Initializes(wire[k])
    ensures forall i :: 0 <= i < n && Initializes(wire[i]) ==>
              SameAnswer(outcomes, awaiting, outcomes, awaiting', wire[i].id)
  {
    forall i | 0 <= i < n && Initializes(wire[i])
      ensures SameAnswer(outcomes, awaiting, outcomes, awaiting', wire[i].id)
    {
      assert wire[i].id != wire[k].id;
    }
  }

  /** The end of a request that does not negotiate. */
  lemma {:induction false} StanceAfterLeaving(
    wire: seq<Frame>, outcomes: map<string, Outcome>, awaiting: set<string>, init: Init, k: nat, awaiting': set<string>)
    requires Consistent(wire, outcomes, awaiting, init) && Distinct(wire) && k < |wire| && !Initializes(wire[k])
    requires awaiting' == awaiting - {wire[k].id}
    ensures Consistent(wire, outcomes, awaiting', init)
  {
    OthersStay(wire, outcomes, awaiting, k, awaiting', |wire|);
    ConsistentStays(wire, outcomes, awaiting, wire, outcomes, awaiting', |wire|);
  }

  /** The end of a negotiation, which concerns the last frame. */
  lemma {:induction false} StanceAfterMoving(
    wire: seq<Frame>, outcomes: map<string, Outcome>, awaiting: set<string>, init: Init, n: nat, awaiting': set<string>,
    next: Init)
    requires Consistent(wire, outcomes, awaiting, init) && Distinct(wire) && |wire| == n + 1 && Initializes(wire[n])
    requires awaiting' == awaiting - {wire[n].id} && wire[n].id in outcomes
    requires outcomes[wire[n].id].Rejected? ==> next == Negotiating
    requires outcomes[wire[n].id].Resolved? ==> next == Negotiated(wire[n].prior, outcomes[wire[n].id].record)
    ensures Consistent(wire, outcomes, awaiting', next)
  {
    OthersStay(wire, outcomes, awaiting, n, awaiting', n);
    ConsistentStays(wire, outcomes, awaiting, wire, outcomes, awaiting', n);
    LastAnswered(wire, outcomes, awaiting', n, next);
  }

  lemma {:induction false} LastAnswered(
    wire: seq<Frame>, outcomes: map<string, Outcome>, awaiting: set<string>, n: nat, next: Init)
    requires |wire| == n + 1 && Initializes(wire[n]) && wire[n].id in outcomes && wire[n].id !in awaiting
    requires wire[n].prior == Stance(wire, outcomes, awaiting, n)
    requires outcomes[wire[n].id].Rejected? ==> next == Negotiating
    requires outcomes[wire[n].id].Resolved? ==> next == Negotiated(wire[n].prior, outcomes[wire[n].id].record)
    ensures next == Stance(wire, outcomes, awaiting, n + 1)
  {
    if outcomes[wire[n].id].Resolved? {
      NegotiatedIsStance(wire[n].prior, outcomes[wire[n].id].record);
    }
  }

  lemma {:induction false} StanceAfterContinue(w: World, frame: Frame, next: World)
    requires StanceIn(w) && Permitted(w.wire) && Distinct(w.wire) && next == Continue(w, frame)
    ensures StanceIn(next)
  {
    if Resumable(w, frame) {
      ContinueFields(w, frame, next);
      StanceAfterEnd(w, frame, next.awaiting, next.init);
    }
  }

  lemma {:induction false} LastUnderWay(w: World, i: int)
    requires StanceIn(w) && Permitted(w.wire)
    requires 0 <= i < |w.wire| && Initializes(w.wire[i]) && w.wire[i].id in w.awaiting
    ensures |w.wire| == i + 1 && w.init == Negotiating
  {
    NegotiationIsLast(w, i);
    UnderWay(w.wire, w.outcomes, w.awaiting, i);
  }

  lemma {:induction false} StanceAfterEnd(w: World, frame: Frame, awaiting: set<string>, init: Init)
    requires StanceIn(w) && Permitted(w.wire) && Distinct(w.wire) && Resumable(w, frame)
    requires awaiting == w.awaiting - {frame.id}
    requires !Initializes(frame) || w.outcomes[frame.id].Rejected? ==> init == w.init
    requires Initializes(frame) && w.outcomes[frame.id].Resolved? ==>
      init == Negotiated(frame.prior, w.outcomes[frame.id].record)
    ensures Consistent(w.wire, w.outcomes, awaiting, init)
  {
    var i :| 0 <= i < |w.wire| && w.wire[i] == frame;
    if Initializes(frame) {
      LastUnderWay(w, i);
      StanceAfterMoving(w.wire, w.outcomes, w.awaiting, w.init, i, awaiting, init);
    } else {
      StanceAfterLeaving(w.wire, w.outcomes, w.awaiting, w.init, i, awaiting);
    }
  }

  lemma {:induction false} ContinueFields(w: World, frame: Frame, next: World)
    requires Resumable(w, frame) && next == Continue(w, frame)
    ensures next.wire == w.wire && next.outcomes == w.outcomes && next.awaiting == w.awaiting - {frame.id}
    ensures !Initializes(frame) || w.outcomes[frame.id].Rejected? ==> next.init == w.init
    ensures Initializes(frame) && w.outcomes[frame.id].Resolved? ==>
      next.init == Negotiated(frame.prior, w.outcomes[frame.id].record)
  {
  }

  // ---- What a session frame rests on

  /** The reply to frame `i` was the pinned contract and came before frame `n`, and every later negotiation was harmless. */
  ghost predicate Backed(wire: seq<Frame>, outcomes: map<string, Outcome>, awaiting: set<string>, i: int, n: int)
  {
    && 0 <= i < n <= |wire| && Initializes(wire[i]) && ActedOn(outcomes, awaiting, wire[i].id)
    && IsPinned(outcomes[wire[i].id].record) && outcomes[wire[i].id].at <= n
    && forall k :: i < k < n && Initializes(wire[k]) ==>
         ActedOn(outcomes, awaiting, wire[k].id) && IsHarmless(outcomes[wire[k].id].record)
  }

  ghost predicate BackedBefore(wire: seq<Frame>, outcomes: map<string, Outcome>, awaiting: set<string>, n: int)
  {
    exists i :: Backed(wire, outcomes, awaiting, i, n)
  }

  lemma {:induction false} VerifiedIsBacked(
    wire: seq<Frame>, outcomes: map<string, Outcome>, awaiting: set<string>, n: nat) returns (i: int)
    requires n <= |wire| && Prompt(wire, outcomes) && Stance(wire, outcomes, awaiting, n) == Verified
    ensures Backed(wire, outcomes, awaiting, i, n)
  {
    if Initializes(wire[n - 1]) && IsPinned(outcomes[wire[n - 1].id].record) {
      i := n - 1;
    } else {
      i := VerifiedIsBacked(wire, outcomes, awaiting, n - 1);
    }
  }
}
