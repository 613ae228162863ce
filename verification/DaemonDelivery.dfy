/**
 What every run of the connection keeps about records: the stream is cut into lines however it arrives, every nonempty
 line becomes one record, and events, progress and notices hold theirs in arrival order.
 */
module DaemonDelivery {
  import opened Lines
  import opened Daemon

  // ---- Every record goes to one place

  function Picked(delivered: seq<Record>, to: seq<Destination>, kind: Destination): seq<Record>
    requires |delivered| == |to|
  {
    if delivered == [] then []
    else
      var n := |delivered| - 1;
      var front := Picked(delivered[..n], to[..n], kind);
      if to[n] == kind then front + [delivered[n]] else front
  }

  function ProgressOf(records: seq<Record>): seq<nat>
  {
    if records == [] then [] else ProgressOf(records[..|records| - 1]) + [records[|records| - 1].progress]
  }

  /** The records that went to requests are the ones that resolved them, one each. */
  ghost predicate Resolves(delivered: seq<Record>, to: seq<Destination>, outcomes: map<string, Outcome>)
    requires |delivered| == |to|
  {
    && (forall i :: 0 <= i < |to| && to[i].ToRequest? ==>
          to[i].id in outcomes && outcomes[to[i].id].Resolved? && outcomes[to[i].id].record == delivered[i])
    && (forall i, j :: 0 <= i < j < |to| && to[i].ToRequest? ==> to[i] != to[j])
    && (forall id :: id in outcomes && outcomes[id].Resolved? ==> ToRequest(id) in to)
  }

  /** Events, progress and notices hold what was sent to them, in the order it arrived. */
  ghost predicate Sorted(
    delivered: seq<Record>, to: seq<Destination>, events: seq<Record>, progress: seq<nat>, notices: seq<Record>,
    outcomes: map<string, Outcome>)
  {
    && |delivered| == |to|
    && events == Picked(delivered, to, ToEvents)
    && progress == ProgressOf(Picked(delivered, to, ToProgress))
    && notices == Picked(delivered, to, ToNotices)
    && Resolves(delivered, to, outcomes)
  }

  ghost predicate SortedIn(w: World)
  {
    Sorted(w.delivered, w.destinations, w.events, w.progress, w.notices, w.outcomes)
  }

  lemma {:induction false} PickedOneMore(
    delivered: seq<Record>, to: seq<Destination>, kind: Destination, record: Record, last: Destination)
    requires |delivered| == |to|
    ensures Picked(delivered + [record], to + [last], kind)
         == if last == kind then Picked(delivered, to, kind) + [record] else Picked(delivered, to, kind)
  {
    assert (delivered + [record])[..|delivered|] == delivered && (to + [last])[..|to|] == to;
  }

  lemma {:induction false} ProgressOneMore(records: seq<Record>, record: Record)
    ensures ProgressOf(records + [record]) == ProgressOf(records) + [record.progress]
  {
    assert (records + [record])[..|records|] == records;
  }

  lemma {:induction false} ResolvesOneMore(
    delivered: seq<Record>, to: seq<Destination>, outcomes: map<string, Outcome>, record: Record, id: string, at: nat)
    requires |delivered| == |to| && Resolves(delivered, to, outcomes) && id !in outcomes
    ensures Resolves(delivered + [record], to + [ToRequest(id)], outcomes[id := Resolved(record, at)])
  {
    var to' := to + [ToRequest(id)];
    assert to'[|to|] == ToRequest(id);
    forall k | k in outcomes && outcomes[k].Resolved? ensures ToRequest(k) in to' {
      var i :| 0 <= i < |to| && to[i] == ToRequest(k);
      assert to'[i] == ToRequest(k);
    }
  }

  lemma {:induction false} ResolvesElsewhere(
    delivered: seq<Record>, to: seq<Destination>, outcomes: map<string, Outcome>, record: Record, last: Destination)
    requires |delivered| == |to| && Resolves(delivered, to, outcomes) && !last.ToRequest?
    ensures Resolves(delivered + [record], to + [last], outcomes)
  {
    var to' := to + [last];
    forall k | k in outcomes && outcomes[k].Resolved? ensures ToRequest(k) in to' {
      var i :| 0 <= i < |to| && to[i] == ToRequest(k);
      assert to'[i] == ToRequest(k);
    }
  }

  /** The lists after one more record. */
  ghost predicate Appended(w: World, record: Record, to: Destination, next: World)
  {
    && next.delivered == w.delivered + [record] && next.destinations == w.destinations + [to]
    && next.events == (if to.ToEvents? then w.events + [record] else w.events)
    && next.progress == (if to.ToProgress? then w.progress + [record.progress] else w.progress)
    && next.notices == (if to.ToNotices? then w.notices + [record] else w.notices)
  }

  lemma {:induction false} DeliverAppends(w: World, record: Record, next: World)
    requires next == Deliver(w, record)
    ensures Appended(w, record, Destined(w, record), next)
    ensures next.outcomes == if Destined(w, record).ToRequest?
                             then w.outcomes[Destined(w, record).id := Resolved(record, |w.wire|)] else w.outcomes
  {
    var to := Destined(w, record);
    if to.ToEvents? {
      assert next == DeliverEvent(w, record);
    } else if to.ToRequest? {
      assert next == DeliverAnswer(w, record, to.id);
    } else {
      assert next == DeliverOther(w, record, to);
    }
  }

  lemma {:induction false} SortedAppend(w: World, record: Record, to: Destination, next: World)
    requires SortedIn(w) && Appended(w, record, to, next)
    requires Resolves(next.delivered, next.destinations, next.outcomes)
    ensures SortedIn(next)
  {
    PickedOneMore(w.delivered, w.destinations, ToEvents, record, to);
    PickedOneMore(w.delivered, w.destinations, ToProgress, record, to);
    PickedOneMore(w.delivered, w.destinations, ToNotices, record, to);
    ProgressOneMore(Picked(w.delivered, w.destinations, ToProgress), record);
  }

  /** A delivery puts the record at the end of the one list it goes to. */
  lemma {:induction false} SortedAfterDeliver(w: World, record: Record, next: World)
    requires SortedIn(w) && w.pending !! w.outcomes.Keys && next == Deliver(w, record)
    ensures SortedIn(next)
  {
    var to := Destined(w, record);
    DeliverAppends(w, record, next);
    if to.ToRequest? {
      ResolvesOneMore(w.delivered, w.destinations, w.outcomes, record, to.id, |w.wire|);
    } else {
      ResolvesElsewhere(w.delivered, w.destinations, w.outcomes, record, to);
    }
    SortedAppend(w, record, to, next);
  }

  lemma {:induction false} ResolvesAfterClose(
    delivered: seq<Record>, to: seq<Destination>, outcomes: map<string, Outcome>, pending: set<string>, at: nat)
    requires |delivered| == |to| && Resolves(delivered, to, outcomes) && pending !! outcomes.Keys
    ensures Resolves(delivered, to, outcomes + map id | id in pending :: Rejected(at))
  {
  }

  // ---- Lines

  function Parsed(lines: seq<string>, parse: string -> Record): seq<Record>
  {
    if lines == [] then []
    else
      var front := Parsed(lines[..|lines| - 1], parse);
      if lines[|lines| - 1] == "" then front else front + [parse(lines[|lines| - 1])]
  }

  /** The stream so far is the lines cut off it and the buffer, and the nonempty lines were delivered. */
  ghost predicate Framed(
    received: string, lines: seq<string>, buffer: string, delivered: seq<Record>, parse: string -> Record)
  {
    && received == Joined(lines, '\n') + buffer
    && (forall i :: 0 <= i < |lines| ==> '\n' !in lines[i])
    && delivered == Parsed(lines, parse)
  }

  lemma {:induction false} ParsedOneMore(lines: seq<string>, line: string, parse: string -> Record)
    ensures Parsed(lines + [line], parse)
         == if line == "" then Parsed(lines, parse) else Parsed(lines, parse) + [parse(line)]
  {
    assert (lines + [line])[..|lines|] == lines;
  }

  lemma {:induction false} JoinedOneMore(lines: seq<string>, line: string, rest: string)
    ensures Joined(lines + [line], '\n') + rest == Joined(lines, '\n') + (line + ['\n'] + rest)
  {
    assert (lines + [line])[..|lines|] == lines;
  }

  lemma {:induction false} FramedAfterCut(
    received: string, lines: seq<string>, buffer: string, delivered: seq<Record>, parse: string -> Record, newline: nat)
    requires Framed(received, lines, buffer, delivered, parse)
    requires newline < |buffer| && buffer[newline] == '\n' && '\n' !in buffer[..newline]
    ensures var line := buffer[..newline];
            Framed(received, lines + [line], buffer[newline + 1..],
                   if line == "" then delivered else delivered + [parse(line)], parse)
  {
    var line, rest := buffer[..newline], buffer[newline + 1..];
    assert buffer == line + ['\n'] + rest;
    JoinedOneMore(lines, line, rest);
    ParsedOneMore(lines, line, parse);
  }

  /** With no newline left in the buffer, the lines and the buffer are the split of the whole stream. */
  lemma {:induction false} FramedIsSplit(
    received: string, lines: seq<string>, buffer: string, delivered: seq<Record>, parse: string -> Record)
    requires Framed(received, lines, buffer, delivered, parse) && '\n' !in buffer
    ensures SplitLines(received, '\n') == Split(lines, buffer)
  {
    SplitIsUnique(received, '\n', Split(lines, buffer));
  }
}
