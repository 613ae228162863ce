/** Where every record belongs, and when a request is pending, by what was written and delivered and nothing else. */
module DaemonRouting {
  import opened Options
  import opened Daemon
  import opened DaemonGate

  /** A record that a request of this identity would take. */
  predicate Carries(record: Record, id: string)
  {
    record.kind != "event" && record.requestId == Some(id)
  }

  /**
   After `n` records the request written as frame `k` was not settled: the socket had not closed, and no record that
   came after the frame carried its identity.
   */
  ghost predicate Open(delivered: seq<Record>, marks: seq<nat>, ended: Option<nat>, id: string, k: int, n: int)
    requires n <= |delivered| == |marks|
  {
    && (ended.None? || n < ended.value)
    && forall j :: 0 <= j < n && Carries(delivered[j], id) ==> marks[j] <= k
  }

  /** Record `i` is the first to carry the identity of frame `k` after that frame was written. */
  ghost predicate Settles(
    wire: seq<Frame>, delivered: seq<Record>, marks: seq<nat>, ended: Option<nat>, k: int, i: int)
    requires 0 <= i < |delivered| == |marks|
  {
    && 0 <= k < |wire| && k < marks[i] && Carries(delivered[i], wire[k].id)
    && Open(delivered, marks, ended, wire[k].id, k, i)
  }

  ghost predicate Answering(wire: seq<Frame>, delivered: seq<Record>, marks: seq<nat>, ended: Option<nat>, i: int)
    requires 0 <= i < |delivered| == |marks|
  {
    exists k :: Settles(wire, delivered, marks, ended, k, i)
  }

  /** Where record `i` belongs, by what was written and delivered and nothing else. */
  ghost function Place(wire: seq<Frame>, delivered: seq<Record>, marks: seq<nat>, ended: Option<nat>, i: int): Destination
    requires 0 <= i < |delivered| == |marks|
  {
    if delivered[i].kind == "event" then ToEvents
    else if Answering(wire, delivered, marks, ended, i) && delivered[i].requestId.Some? then
      ToRequest(delivered[i].requestId.value)
    else if delivered[i].kind == "progress" then ToProgress
    else ToNotices
  }

  /** Every record went where it belongs. */
  ghost predicate Routed(
    wire: seq<Frame>, delivered: seq<Record>, marks: seq<nat>, to: seq<Destination>, ended: Option<nat>)
  {
    && |delivered| == |marks| == |to|
    && (forall i :: 0 <= i < |marks| ==> marks[i] <= |wire|)
    && (ended.Some? ==> ended.value <= |delivered|)
    && forall i :: 0 <= i < |to| ==> to[i] == Place(wire, delivered, marks, ended, i)
  }

  /** A request is pending exactly while nothing has settled it. */
  ghost predicate Unsettled(
    wire: seq<Frame>, pending: set<string>, delivered: seq<Record>, marks: seq<nat>, ended: Option<nat>)
    requires |delivered| == |marks|
  {
    forall k :: 0 <= k < |wire| ==> (wire[k].id in pending <==> Open(delivered, marks, ended, wire[k].id, k, |delivered|))
  }

  ghost predicate RoutedIn(w: World)
  {
    && Routed(w.wire, w.delivered, w.marks, w.destinations, w.ended)
    && Unsettled(w.wire, w.pending, w.delivered, w.marks, w.ended)
  }

  /** More frames and more records change nothing about what has been delivered. */
  lemma {:induction false} PlaceStays(
    wire: seq<Frame>, delivered: seq<Record>, marks: seq<nat>, ended: Option<nat>, i: int,
    wire': seq<Frame>, delivered': seq<Record>, marks': seq<nat>, ended': Option<nat>)
    requires 0 <= i < |delivered| == |marks| && |delivered'| == |marks'| && marks[i] <= |wire|
    requires wire <= wire' && delivered <= delivered' && marks <= marks'
    requires ended' == ended || (ended.None? && ended' == Some(|delivered|))
    ensures Place(wire, delivered, marks, ended, i) == Place(wire', delivered', marks', ended', i)
  {
    assert delivered'[i] == delivered[i] && marks'[i] == marks[i];
    forall k ensures Settles(wire, delivered, marks, ended, k, i) <==> Settles(wire', delivered', marks', ended', k, i) {
      if 0 <= k < |wire| {
        assert wire'[k] == wire[k];
        assert forall j :: 0 <= j < i ==> delivered'[j] == delivered[j] && marks'[j] == marks[j];
      }
    }
  }

  lemma {:induction false} RoutedStays(
    wire: seq<Frame>, delivered: seq<Record>, marks: seq<nat>, to: seq<Destination>, ended: Option<nat>,
    wire': seq<Frame>, ended': Option<nat>)
    requires Routed(wire, delivered, marks, to, ended) && wire <= wire'
    requires ended' == ended || (ended.None? && ended' == Some(|delivered|))
    ensures Routed(wire', delivered, marks, to, ended')
  {
    forall i | 0 <= i < |to| ensures to[i] == Place(wire', delivered, marks, ended', i) {
      PlaceStays(wire, delivered, marks, ended, i, wire', delivered, marks, ended');
    }
  }

  /** The destination of the next record. */
  lemma {:induction false} NextPlace(
    w: World, record: Record, delivered: seq<Record>, marks: seq<nat>, n: int)
    requires RoutedIn(w) && w.pending <= Sent(w.wire)
    requires n == |w.delivered| && delivered == w.delivered + [record] && marks == w.marks + [|w.wire|]
    ensures Place(w.wire, delivered, marks, w.ended, n) == Destined(w, record)
  {
    assert forall j :: 0 <= j < n ==> delivered[j] == w.delivered[j] && marks[j] == w.marks[j];
    assert delivered[n] == record && marks[n] == |w.wire|;
    if record.kind != "event" && record.requestId.Some? {
      var id := record.requestId.value;
      forall k | 0 <= k < |w.wire| && w.wire[k].id == id
        ensures id in w.pending <==> Settles(w.wire, delivered, marks, w.ended, k, n)
      {
        assert Open(w.delivered, w.marks, w.ended, id, k, n) <==> Open(delivered, marks, w.ended, id, k, n);
      }
      if id in w.pending {
        var k :| 0 <= k < |w.wire| && w.wire[k].id == id;
        assert Settles(w.wire, delivered, marks, w.ended, k, n);
      }
    }
  }

  lemma {:induction false} RoutedAfterDeliver(
    w: World, record: Record, delivered: seq<Record>, marks: seq<nat>, to: seq<Destination>)
    requires RoutedIn(w) && w.pending <= Sent(w.wire)
    requires delivered == w.delivered + [record] && marks == w.marks + [|w.wire|]
    requires to == w.destinations + [Destined(w, record)]
    ensures Routed(w.wire, delivered, marks, to, w.ended)
  {
    NextPlace(w, record, delivered, marks, |w.delivered|);
    forall i | 0 <= i < |to| ensures to[i] == Place(w.wire, delivered, marks, w.ended, i) {
      if i < |w.delivered| {
        PlaceStays(w.wire, w.delivered, w.marks, w.ended, i, w.wire, delivered, marks, w.ended);
      }
    }
  }

  /** A record that carries an identity settles its request; another settles none. */
  lemma {:induction false} UnsettledAfterDeliver(
    w: World, record: Record, delivered: seq<Record>, marks: seq<nat>, pending: set<string>)
    requires RoutedIn(w)
    requires delivered == w.delivered + [record] && marks == w.marks + [|w.wire|]
    requires forall id :: id in pending <==> id in w.pending && !Carries(record, id)
    ensures Unsettled(w.wire, pending, delivered, marks, w.ended)
  {
    var n := |w.delivered|;
    assert forall j :: 0 <= j < n ==> delivered[j] == w.delivered[j] && marks[j] == w.marks[j];
    assert delivered[n] == record && marks[n] == |w.wire|;
    forall k | 0 <= k < |w.wire|
      ensures w.wire[k].id in pending <==> Open(delivered, marks, w.ended, w.wire[k].id, k, n + 1)
    {
      var id := w.wire[k].id;
      assert Open(delivered, marks, w.ended, id, k, n + 1) <==>
        Open(w.delivered, w.marks, w.ended, id, k, n) && !Carries(record, id);
    }
  }

  lemma {:induction false} RoutedAfterSend(w: World, frame: Frame)
    requires RoutedIn(w) && frame.id !in Sent(w.wire) && w.ended.None? && w.pending <= Sent(w.wire)
    ensures Routed(w.wire + [frame], w.delivered, w.marks, w.destinations, w.ended)
    ensures Unsettled(w.wire + [frame], w.pending + {frame.id}, w.delivered, w.marks, w.ended)
  {
    var longer := w.wire + [frame];
    RoutedStays(w.wire, w.delivered, w.marks, w.destinations, w.ended, longer, w.ended);
    forall k | 0 <= k < |longer|
      ensures longer[k].id in w.pending + {frame.id} <==>
        Open(w.delivered, w.marks, w.ended, longer[k].id, k, |w.delivered|)
    {
      if k < |w.wire| {
        assert w.wire[k].id in Sent(w.wire);
      }
    }
  }

  lemma {:induction false} RoutedAfterEnd(w: World, ended: Option<nat>)
    requires RoutedIn(w) && ended == if w.ended.None? then Some(|w.delivered|) else w.ended
    ensures Routed(w.wire, w.delivered, w.marks, w.destinations, ended)
    ensures Unsettled(w.wire, {}, w.delivered, w.marks, ended)
  {
    RoutedStays(w.wire, w.delivered, w.marks, w.destinations, w.ended, w.wire, ended);
  }

  lemma {:induction false} DeliverNotes(w: World, record: Record, next: World)
    requires next == Deliver(w, record)
    ensures next.wire == w.wire && next.ended == w.ended
    ensures next.delivered == w.delivered + [record] && next.marks == w.marks + [|w.wire|]
    ensures next.destinations == w.destinations + [Destined(w, record)]
  {
    var to := Destined(w, record);
    if to.ToEvents? {
      assert next == DeliverEvent(w, record);
    } else if to.ToRequest? {
      assert next == DeliverAnswer(w, record, to.id);
    } else {
      assert next == DeliverOther(w, record, to);
    }
  }

  lemma {:induction false} DeliverSettles(w: World, record: Record, next: World)
    requires next == Deliver(w, record)
    ensures forall id :: id in next.pending <==> id in w.pending && !Carries(record, id)
  {
    var to := Destined(w, record);
    if to.ToEvents? {
      assert next.pending == w.pending;
    } else if to.ToRequest? {
      assert next.pending == w.pending - {to.id};
    } else {
      assert next.pending == w.pending;
    }
  }

  /** A delivery sends the record where it belongs and settles the request it answers, if any. */
  lemma {:induction false} RoutedInAfterDeliver(w: World, record: Record, next: World)
    requires RoutedIn(w) && w.pending <= Sent(w.wire) && next == Deliver(w, record)
    ensures RoutedIn(next)
  {
    DeliverNotes(w, record, next);
    DeliverSettles(w, record, next);
    RoutedAfterDeliver(w, record, next.delivered, next.marks, next.destinations);
    UnsettledAfterDeliver(w, record, next.delivered, next.marks, next.pending);
  }
}
