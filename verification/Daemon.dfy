/** The daemon connection of clients/node/daemon-client.mjs as a step system. */
module Daemon {
  import opened Options
  import opened Characters

  // A step is one thing the event loop runs to completion: a request up to its await, a chunk from the socket, the code
  // after an await, a wait for an event, a timeout, or a close. What the outside sees (frames written, promises settled,
  // records received) is kept beside the connection's own fields.

  const INITIALIZE := "initialize"
  const GENERATION := "loopex.experimental/4"
  const SCHEMA_DIGEST := "bc3749d89204e1b4d5ad3b183058c650e17622750b84d39a4f53efe745ea0718"

  /** The members of a record that the connection looks at, and the rest of it. */
  datatype Record = Record(
    kind: string, requestId: Option<string>, generation: Option<string>, digest: Option<string>,
    code: Option<string>, progress: nat, payload: nat)

  datatype Init = Uninitialized | Negotiating | Verified | Refused

  /** A written frame, with the state of negotiation when it was written. */
  datatype Frame = Frame(id: string, verb: string, prior: Init)

  /** How a request ended, and how many frames had been written by then. */
  datatype Outcome = Resolved(record: Record, at: nat) | Rejected(at: nat)

  /** A wait that has not ended; its token stands for its timer. */
  datatype Waiter = Waiter(token: nat, wants: Record -> bool)

  /** Where a delivered record went. */
  datatype Destination = ToEvents | ToRequest(id: string) | ToProgress | ToNotices

  /**
   The connection's own fields down to `nextToken`, and then what the outside has seen: the frames written, the requests
   settled and those whose code after the await is still to run; the text received and its lines; the records
   delivered, how many frames had been written at each delivery and where it went; how many records had been delivered
   when the socket closed; and what every wait asked for, which waits were answered and which timed out.
   */
  datatype World = World(
    buffer: string,
    pending: set<string>,
    events: seq<Record>,
    notices: seq<Record>,
    progress: seq<nat>,
    waiters: seq<Waiter>,
    closed: bool,
    nextRequest: nat,
    init: Init,
    nextToken: nat,
    wire: seq<Frame>,
    outcomes: map<string, Outcome>,
    awaiting: set<string>,
    received: string,
    lines: seq<string>,
    delivered: seq<Record>,
    marks: seq<nat>,
    destinations: seq<Destination>,
    ended: Option<nat>,
    asked: seq<Record -> bool>,
    found: map<nat, Record>,
    expired: set<nat>)

  const START := World(
    "", {}, [], [], [], [], false, 0, Uninitialized, 0,
    [], map[], {}, "", [], [], [], [], None, [], map[], {})

  function RequestId(n: nat): string
  {
    "n" + Decimal(n)
  }

  predicate Matches(reply: Record)
  {
    reply.kind == "initialized" && reply.generation == Some(GENERATION) && reply.digest == Some(SCHEMA_DIGEST)
  }

  // ---- Sending

  predicate Sendable(w: World, verb: string, overrides: bool)
  {
    && !w.closed && !overrides
    && (verb != INITIALIZE ==> w.init == Verified)
    && (verb == INITIALIZE ==> w.init != Negotiating)
  }

  /** A request up to its await; a refused one throws before anything is written. */
  function Request(w: World, verb: string, overrides: bool, newlineInFrame: bool): World
  {
    if !Sendable(w, verb, overrides) then w
    else if newlineInFrame then w.(nextRequest := w.nextRequest + 1)
    else
      var id := RequestId(w.nextRequest);
      w.(nextRequest := w.nextRequest + 1,
         init := if verb == INITIALIZE then Negotiating else w.init,
         pending := w.pending + {id},
         awaiting := w.awaiting + {id},
         wire := w.wire + [Frame(id, verb, w.init)])
  }

  /** A request is settled but the code after its await has not run. */
  predicate Resumable(w: World, frame: Frame)
  {
    frame in w.wire && frame.id in w.awaiting && frame.id in w.outcomes
  }

  predicate Answers(frame: Frame, outcome: Outcome)
  {
    frame.verb == INITIALIZE && outcome.Resolved?
  }

  /** Where the answer to an initialize request leaves the negotiation. */
  function Negotiated(prior: Init, reply: Record): Init
  {
    if reply.kind == "initialized" then (if Matches(reply) then Verified else Refused)
    else if reply.code == Some("invalid_request") || reply.code == Some("already_initialized") then prior
    else Refused
  }

  /** A contract other than the pinned one makes the connection close itself. */
  predicate Refuses(reply: Record)
  {
    reply.kind == "initialized" && !Matches(reply)
  }

  /** The code after the await of a settled request. */
  function Continue(w: World, frame: Frame): World
  {
    if !Resumable(w, frame) then w
    else
      var outcome := w.outcomes[frame.id];
      if Answers(frame, outcome) then
        w.(awaiting := w.awaiting - {frame.id},
           init := Negotiated(frame.prior, outcome.record),
           closed := w.closed || Refuses(outcome.record))
      else w.(awaiting := w.awaiting - {frame.id})
  }

  // ---- Receiving

  predicate Wanted(events: seq<Record>, wants: Record -> bool)
  {
    exists i | 0 <= i < |events| :: wants(events[i])
  }

  /** `find`: the earliest event that is wanted. */
  function Earliest(events: seq<Record>, wants: Record -> bool): (r: Record)
    requires Wanted(events, wants)
    ensures wants(r)
  {
    if wants(events[0]) then events[0] else Earliest(events[1..], wants)
  }

  /** The waiters still waiting after the satisfied ones are let go. */
  function Remaining(waiters: seq<Waiter>, events: seq<Record>): seq<Waiter>
  {
    if waiters == [] then []
    else
      var front := Remaining(waiters[..|waiters| - 1], events);
      var last := waiters[|waiters| - 1];
      if Wanted(events, last.wants) then front else front + [last]
  }

  function Satisfied(waiters: seq<Waiter>, events: seq<Record>, found: map<nat, Record>): map<nat, Record>
  {
    if waiters == [] then found
    else
      var front := Satisfied(waiters[..|waiters| - 1], events, found);
      var last := waiters[|waiters| - 1];
      if Wanted(events, last.wants) then front[last.token := Earliest(events, last.wants)] else front
  }

  function Release(w: World): World
  {
    w.(waiters := Remaining(w.waiters, w.events), found := Satisfied(w.waiters, w.events, w.found))
  }

  function Destined(w: World, record: Record): Destination
  {
    if record.kind == "event" then ToEvents
    else if record.requestId.Some? && record.requestId.value in w.pending then ToRequest(record.requestId.value)
    else if record.kind == "progress" then ToProgress
    else ToNotices
  }

  function Noted(w: World, record: Record, to: Destination): World
  {
    w.(delivered := w.delivered + [record], marks := w.marks + [|w.wire|], destinations := w.destinations + [to])
  }

  function DeliverEvent(w: World, record: Record): World
  {
    Release(Noted(w, record, ToEvents).(events := w.events + [record]))
  }

  function DeliverAnswer(w: World, record: Record, id: string): World
  {
    Noted(w, record, ToRequest(id)).(pending := w.pending - {id}, outcomes := w.outcomes[id := Resolved(record, |w.wire|)])
  }

  function DeliverOther(w: World, record: Record, to: Destination): World
  {
    if to.ToProgress? then Noted(w, record, to).(progress := w.progress + [record.progress])
    else Noted(w, record, to).(notices := w.notices + [record])
  }

  function Deliver(w: World, record: Record): World
  {
    var to := Destined(w, record);
    if to.ToEvents? then DeliverEvent(w, record)
    else if to.ToRequest? then DeliverAnswer(w, record, to.id)
    else DeliverOther(w, record, to)
  }

  function IndexOf(s: string, c: char): (r: Option<nat>)
    ensures r.None? ==> c !in s
    ensures r.Some? ==> r.value < |s| && s[r.value] == c && c !in s[..r.value]
  {
    if s == "" then None
    else if s[0] == c then Some(0)
    else
      match IndexOf(s[1..], c)
      case None => None
      case Some(i) =>
        assert s[..i + 1] == [s[0]] + s[1..][..i];
        Some(i + 1)
  }

  /** One line cut off the buffer and, unless it is empty, delivered. */
  function CutLine(w: World, newline: nat, parse: string -> Record): World
    requires newline < |w.buffer|
  {
    var line := w.buffer[..newline];
    var next := w.(buffer := w.buffer[newline + 1..], lines := w.lines + [line]);
    if line == "" then next else Deliver(next, parse(line))
  }

  function Drain(w: World, parse: string -> Record): World
    decreases |w.buffer|
  {
    var newline := IndexOf(w.buffer, '\n');
    if newline.None? then w else Drain(CutLine(w, newline.value, parse), parse)
  }

  function Absorb(w: World, chunk: string, parse: string -> Record): World
  {
    Drain(w.(buffer := w.buffer + chunk, received := w.received + chunk), parse)
  }

  // ---- Waiting and closing

  function Wait(w: World, wants: Record -> bool): World
  {
    var next := w.(nextToken := w.nextToken + 1, asked := w.asked + [wants]);
    if Wanted(w.events, wants) then next.(found := w.found[w.nextToken := Earliest(w.events, wants)])
    else next.(waiters := w.waiters + [Waiter(w.nextToken, wants)])
  }

  function Without(waiters: seq<Waiter>, token: nat): seq<Waiter>
  {
    if waiters == [] then []
    else
      var front := Without(waiters[..|waiters| - 1], token);
      if waiters[|waiters| - 1].token == token then front else front + [waiters[|waiters| - 1]]
  }

  function Live(waiters: seq<Waiter>): set<nat>
  {
    set k | 0 <= k < |waiters| :: waiters[k].token
  }

  /** The timer of a wait that has not ended. */
  function Timeout(w: World, token: nat): World
  {
    if token !in Live(w.waiters) then w
    else w.(waiters := Without(w.waiters, token), expired := w.expired + {token})
  }

  function Close(w: World): World
  {
    w.(closed := true)
  }

  /** Every pending request is rejected. */
  function Ended(w: World): World
  {
    w.(closed := true, pending := {}, ended := if w.ended.None? then Some(|w.delivered|) else w.ended,
       outcomes := w.outcomes + map id | id in w.pending :: Rejected(|w.wire|))
  }

  /** The socket's close event. */
  function SocketClosed(w: World): World
  {
    Release(Ended(w))
  }

  // ---- Runs

  datatype Action =
    | DoRequest(verb: string, overrides: bool, newlineInFrame: bool)
    | DoContinue(frame: Frame)
    | DoAbsorb(chunk: string)
    | DoWait(wants: Record -> bool)
    | DoTimeout(token: nat)
    | DoClose
    | DoSocketClosed

  function Apply(w: World, action: Action, parse: string -> Record): World
  {
    match action
    case DoRequest(verb, overrides, newlineInFrame) => Request(w, verb, overrides, newlineInFrame)
    case DoContinue(frame) => Continue(w, frame)
    case DoAbsorb(chunk) => Absorb(w, chunk, parse)
    case DoWait(wants) => Wait(w, wants)
    case DoTimeout(token) => Timeout(w, token)
    case DoClose => Close(w)
    case DoSocketClosed => SocketClosed(w)
  }

  function Run(actions: seq<Action>, parse: string -> Record): World
  {
    if actions == [] then START else Apply(Run(actions[..|actions| - 1], parse), actions[|actions| - 1], parse)
  }
}
