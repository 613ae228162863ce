/** The redactor of scripts/attended-redact.exs, which takes the same step as the other one. */
module BeamRedactor {
  import opened Bytes
  import opened Options
  import opened Redaction
  import opened RedactionStream
  import opened RedactionScan
  import opened RedactionGuarantees
  import PtyRedactor
  import opened Sequences
  import opened Integers

  // It is made of recursive functions that return the new state, chooses a marker that falls back to NUL unchecked, and
  // has a shortcut that releases completed lines.

  // ---- The marker

  function FirstUsable(candidates: seq<Bytes>, keys: seq<Bytes>): Option<Bytes>
    requires forall i :: 0 <= i < |candidates| ==> |candidates[i]| > 0
  {
    if candidates == [] then None
    else if PtyRedactor.Usable(keys, candidates[0]) then Some(candidates[0])
    else FirstUsable(candidates[1..], keys)
  }

  function ReplacementFrom(words: seq<Bytes>, singles: seq<Bytes>, keys: seq<Bytes>): Bytes
    requires forall i :: 0 <= i < |words| ==> |words[i]| > 0
    requires forall i :: 0 <= i < |singles| ==> |singles[i]| > 0
  {
    match FirstUsable(words, keys)
    case Some(marker) => marker
    case None =>
      match FirstUsable(singles, keys)
      case Some(marker) => marker
      case None => [0]
  }

  function Replacement(keys: seq<Bytes>): Bytes
  {
    ReplacementFrom(PtyRedactor.MARKERS, PtyRedactor.Singles(33, 126), keys)
  }

  lemma {:induction false} FirstUsableIsFirst(candidates: seq<Bytes>, keys: seq<Bytes>)
    requires forall i :: 0 <= i < |candidates| ==> |candidates[i]| > 0
    ensures match FirstUsable(candidates, keys)
            case None => NoneSafe(KeySet(keys), candidates)
            case Some(marker) => IsFirstSafe(KeySet(keys), candidates, marker)
  {
    if candidates != [] {
      var head, tail := [candidates[0]], candidates[1..];
      assert candidates == head + tail;
      PtyRedactor.UsableIsSafe(keys, candidates[0]);
      FirstUsableIsFirst(tail, keys);
      match FirstUsable(candidates, keys)
      case Some(marker) =>
        assert marker == candidates[0] ==> head[0] == marker && NoneSafe(KeySet(keys), head[..0]);
        FirstSafeOfBoth(KeySet(keys), head, tail, marker);
      case None =>
    }
  }

  lemma {:induction false} ReplacementIsFirst(words: seq<Bytes>, singles: seq<Bytes>, keys: seq<Bytes>)
    requires forall i :: 0 <= i < |words| ==> |words[i]| > 0
    requires forall i :: 0 <= i < |singles| ==> |singles[i]| > 0
    requires forall key :: key in keys ==> |key| > 0 && 0 !in key
    ensures IsFirstSafe(KeySet(keys), words + singles + [[0]], ReplacementFrom(words, singles, keys))
  {
    var chosen := ReplacementFrom(words, singles, keys);
    FirstUsableIsFirst(words, keys);
    FirstUsableIsFirst(singles, keys);
    if FirstUsable(words, keys).None? && FirstUsable(singles, keys).None? {
      NulIsSafe(KeySet(keys));
      assert [[0]][0] == [0] && NoneSafe(KeySet(keys), [[0]][..0]);
      assert IsFirstSafe(KeySet(keys), [[0]], [0]);
    } else {
      FirstSafeOfBoth(KeySet(keys), words, singles, chosen);
    }
    FirstSafeOfBoth(KeySet(keys), words + singles, [[0]], chosen);
  }

  /** For nonempty NUL-free keys the marker chosen is the first safe candidate and no other is. */
  lemma {:induction false} OnlyReplacement(words: seq<Bytes>, singles: seq<Bytes>, keys: seq<Bytes>, marker: Bytes)
    requires forall i :: 0 <= i < |words| ==> |words[i]| > 0
    requires forall i :: 0 <= i < |singles| ==> |singles[i]| > 0
    requires forall key :: key in keys ==> |key| > 0 && 0 !in key
    ensures IsFirstSafe(KeySet(keys), words + singles + [[0]], marker)
       <==> marker == ReplacementFrom(words, singles, keys)
  {
    ReplacementIsFirst(words, singles, keys);
    if IsFirstSafe(KeySet(keys), words + singles + [[0]], marker) {
      FirstSafeIsUnique(KeySet(keys), words + singles + [[0]], marker, ReplacementFrom(words, singles, keys));
    }
  }

  // ---- The step

  predicate LineBreak(b: Byte) { b == 13 || b == 10 }

  /** One past the last CR or LF, and 0 without one. */
  function LineEnd(content: Bytes): (r: nat)
    ensures r <= |content|
    ensures r > 0 ==> LineBreak(content[r - 1])
  {
    if content == [] then 0
    else if LineBreak(content[|content| - 1]) then |content|
    else LineEnd(content[..|content| - 1])
  }

  predicate CouldBegin(content: Bytes, keys: seq<Bytes>, position: nat)
    requires position < |content|
  {
    exists key | key in keys :: |key| > |content| - position && key[..|content| - position] == content[position..]
  }

  function HoldStart(content: Bytes, keys: seq<Bytes>, from: nat): (r: nat)
    ensures r <= |content|
    decreases |content| - from
  {
    if from >= |content| then |content|
    else if CouldBegin(content, keys, from) then from
    else HoldStart(content, keys, from + 1)
  }

  function Stretch(content: Bytes, keys: seq<Bytes>, position: nat, stop: nat): (r: nat)
    ensures stop <= r
    ensures stop <= |content| ==> r <= |content|
  {
    if keys == [] then stop
    else if OccursAt(content, keys[0], position) then
      Stretch(content, keys[1..], position, Max(stop, position + |keys[0]|))
    else Stretch(content, keys[1..], position, stop)
  }

  function SpanEnd(content: Bytes, keys: seq<Bytes>, position: nat, stop: nat): (r: nat)
    requires stop <= |content|
    ensures stop <= r <= |content|
    decreases |content| - position
  {
    if position >= stop then stop
    else SpanEnd(content, keys, position + 1, Stretch(content, keys, position, stop))
  }

  function Earliest(
    content: Bytes, keys: seq<Bytes>, cursor: nat, best: Option<(nat, Bytes)>): (r: Option<(nat, Bytes)>)
    requires cursor <= |content|
    requires best.Some? ==> cursor <= best.value.0 && OccursAt(content, best.value.1, best.value.0)
    ensures r.Some? ==>
              (r.value.1 in keys || r == best) && cursor <= r.value.0 && OccursAt(content, r.value.1, r.value.0)
  {
    if keys == [] then best
    else
      var at := PtyRedactor.Find(content, keys[0], cursor);
      var better := at.Some? && (best.None? || at.value < best.value.0
                                 || (at.value == best.value.0 && |keys[0]| > |best.value.1|));
      Earliest(content, keys[1..], cursor, if better then Some((at.value, keys[0])) else best)
  }

  /** An occurrence at or before `p`, and at `p` of a key at least as long. */
  predicate NoWorse(best: Option<(nat, Bytes)>, key: Bytes, p: nat)
  {
    best.Some? && (best.value.0 < p || (best.value.0 == p && |key| <= |best.value.1|))
  }

  /** No key occurs before the one that is found, and none that occurs there is longer. */
  lemma {:induction false} EarliestIsFirst(
    content: Bytes, keys: seq<Bytes>, cursor: nat, best: Option<(nat, Bytes)>, key: Bytes, p: nat)
    requires cursor <= |content|
    requires best.Some? ==> cursor <= best.value.0 && OccursAt(content, best.value.1, best.value.0)
    requires (key in keys && cursor <= p && OccursAt(content, key, p)) || NoWorse(best, key, p)
    ensures NoWorse(Earliest(content, keys, cursor, best), key, p)
  {
    if keys != [] {
      var at := PtyRedactor.Find(content, keys[0], cursor);
      var better := at.Some? && (best.None? || at.value < best.value.0
                                 || (at.value == best.value.0 && |keys[0]| > |best.value.1|));
      EarliestIsFirst(content, keys[1..], cursor, if better then Some((at.value, keys[0])) else best, key, p);
    }
  }

  lemma {:induction false} NothingBefore(content: Bytes, keys: seq<Bytes>, cursor: nat)
    requires cursor <= |content|
    ensures var r := Earliest(content, keys, cursor, None);
            NoStart(KeySet(keys), content, cursor, if r.Some? then r.value.0 else |content| + 1)
  {
    var r := Earliest(content, keys, cursor, None);
    forall p | cursor <= p < (if r.Some? then r.value.0 else |content| + 1)
      ensures !Starts(KeySet(keys), content, p)
    {
      if Starts(KeySet(keys), content, p) {
        var key :| key in KeySet(keys) && OccursAt(content, key, p);
        EarliestIsFirst(content, keys, cursor, None, key, p);
      }
    }
  }

  datatype Scanned = Scanned(output: Bytes, cursor: nat, span: Option<nat>)

  /** Where the next span begins and ends, if it begins in the safe part. */
  function Round(content: Bytes, keys: seq<Bytes>, safe: nat, cursor: nat): (r: Option<(nat, nat)>)
    requires [] !in keys && cursor <= |content|
    ensures r.Some? ==> cursor <= r.value.0 < r.value.1 <= |content|
  {
    var next := Earliest(content, keys, cursor, None);
    if next.None? || next.value.0 >= safe then None
    else Some((next.value.0, SpanEnd(content, keys, next.value.0, next.value.0 + |next.value.1|)))
  }

  function Scan(
    content: Bytes, keys: seq<Bytes>, safe: nat, replacement: Bytes, cursor: nat, span: Option<nat>, output: Bytes)
    : (r: Scanned)
    requires [] !in keys && cursor <= |content| && safe <= |content|
    requires span.Some? ==> span.value <= cursor
    ensures r.cursor <= |content| && (r.span.Some? ==> r.span.value <= r.cursor)
    decreases |content| - cursor
  {
    var next := Round(content, keys, safe, cursor);
    if next.Some? then
      Scan(content, keys, safe, replacement, next.value.1, Some(next.value.0),
           output + content[cursor..next.value.0] + replacement)
    else if safe > cursor then Scanned(output + content[cursor..safe], safe, None)
    else Scanned(output, cursor, span)
  }

  function Redact(
    content: Bytes, covered: nat, keys: seq<Bytes>, width: nat, replacement: Bytes, final: bool): (r: Step)
    requires [] !in keys && covered <= |content|
    ensures r.held.covered <= |r.held.bytes| <= |content|
  {
    var safe := if final then |content|
                else HoldStart(content, keys, Max(0, Max(LineEnd(content), |content| - width + 1)));
    var cursor := if covered > 0 then SpanEnd(content, keys, 0, covered) else 0;
    var scanned := Scan(content, keys, safe, replacement, cursor, if covered > 0 then Some(0) else None, []);
    var keep := if scanned.span == None || final then scanned.cursor
                else Min(scanned.cursor, Max(scanned.span.value, |content| - width + 1));
    Step(scanned.output, Held(content[keep..], scanned.cursor - keep))
  }

  // ---- The step is the closed-form step

  lemma {:induction false} StretchCovers(content: Bytes, keys: seq<Bytes>, position: nat, stop: nat)
    requires position < stop
    ensures var r := Stretch(content, keys, position, stop);
            && (forall j :: stop <= j < r ==> Straddled(KeySet(keys), content, j))
            && (forall key :: key in keys && OccursAt(content, key, position) ==> position + |key| <= r)
  {
    if keys != [] {
      var next := if OccursAt(content, keys[0], position) then Max(stop, position + |keys[0]|) else stop;
      StretchCovers(content, keys[1..], position, next);
      var r := Stretch(content, keys, position, stop);
      forall j | stop <= j < r ensures Straddled(KeySet(keys), content, j) {
        if j < next {
          assert keys[0] in KeySet(keys) && OccursAt(content, keys[0], position);
        } else {
          assert r == Stretch(content, keys[1..], position, next);
          assert Straddled(KeySet(keys[1..]), content, j);
          var key, p :| key in KeySet(keys[1..]) && OccursAt(content, key, p) && p < j < p + |key|;
          assert key in KeySet(keys);
        }
      }
    }
  }

  lemma {:induction false} SpanEndEnds(content: Bytes, keys: seq<Bytes>, start: nat, end: nat, position: nat, stop: nat)
    requires start <= position <= stop && end <= stop <= |content|
    requires forall j :: end <= j < stop ==> Straddled(KeySet(keys), content, j)
    requires forall key, p :: key in keys && OccursAt(content, key, p) && start <= p < position ==> p + |key| <= stop
    ensures EndsSpan(KeySet(keys), content, start, end, SpanEnd(content, keys, position, stop))
    decreases |content| - position
  {
    if position < stop {
      StretchCovers(content, keys, position, stop);
      SpanEndEnds(content, keys, start, end, position + 1, Stretch(content, keys, position, stop));
    }
  }

  /** A tail that contains a CR or LF is the beginning of no key, so the shortcut changes nothing. */
  lemma {:induction false} LineEndIsSafe(content: Bytes, keys: seq<Bytes>, p: nat)
    requires forall key :: key in keys ==> forall b | b in key :: !LineBreak(b)
    requires p < LineEnd(content)
    ensures !CanBegin(KeySet(keys), content, p)
  {
    var n := LineEnd(content) - 1;
    forall key | content[p..] < key ensures content[n] in key {
      assert key[n - p] == content[p..][n - p];
    }
  }

  lemma {:induction false} CouldBeginIsCanBegin(content: Bytes, keys: seq<Bytes>, position: nat)
    requires position < |content|
    ensures CouldBegin(content, keys, position) <==> CanBegin(KeySet(keys), content, position)
  {
    var tail := content[position..];
    if CanBegin(KeySet(keys), content, position) {
      var key :| key in KeySet(keys) && tail < key;
      assert key[..|tail|] == tail;
    }
    if CouldBegin(content, keys, position) {
      var key :| key in keys && |key| > |tail| && key[..|tail|] == tail;
      assert key in KeySet(keys) && tail < key;
    }
  }

  lemma {:induction false} HoldStartHolds(content: Bytes, keys: seq<Bytes>, from: nat)
    requires from <= |content|
    requires forall p :: 0 <= p < from ==> !CanBegin(KeySet(keys), content, p)
    ensures HoldStart(content, keys, from) == HoldFrom(KeySet(keys), content, 0)
    decreases |content| - from
  {
    if from < |content| {
      CouldBeginIsCanBegin(content, keys, from);
      if !CouldBegin(content, keys, from) {
        HoldStartHolds(content, keys, from + 1);
      }
    }
  }

  lemma {:induction false} ScanGoesOn(
    content: Bytes, keys: seq<Bytes>, safe: nat, marker: Bytes, cursor: nat, span: Option<nat>, output: Bytes,
    position: nat, stop: nat, more: Bytes, scanned: Scanned)
    requires [] !in keys && cursor <= |content| && safe <= |content|
    requires span.Some? ==> span.value <= cursor
    requires Round(content, keys, safe, cursor) == Some((position, stop))
    requires more == output + content[cursor..position] + marker
    requires scanned == Scan(content, keys, safe, marker, cursor, span, output)
    ensures scanned == Scan(content, keys, safe, marker, stop, Some(position), more)
  {
  }

  lemma {:induction false} ScanStopsHere(
    content: Bytes, keys: seq<Bytes>, safe: nat, marker: Bytes, cursor: nat, span: Option<nat>, output: Bytes)
    requires [] !in keys && cursor <= |content| && safe <= |content|
    requires span.Some? ==> span.value <= cursor
    requires Round(content, keys, safe, cursor) == None
    ensures var reach := if safe > cursor then safe else cursor;
            Scan(content, keys, safe, marker, cursor, span, output)
            == Scanned(output + content[cursor..reach], reach, if safe > cursor then None else span)
  {
  }

  /** Where the closed form says a scan ends up. */
  ghost function Arrival(keys: set<Bytes>, content: Bytes, covered: nat, final: bool, marker: Bytes): Scanned
    requires covered <= |content|
  {
    var reach := Reach(keys, content, covered, final);
    Scanned(Redacted(keys, marker, content, covered, reach), reach, LastSpan(keys, content, covered, reach))
  }

  lemma {:induction false} LastRoundArrives(
    content: Bytes, keys: seq<Bytes>, covered: nat, final: bool, marker: Bytes, cursor: nat, span: Option<nat>, output: Bytes)
    requires [] !in keys && covered <= |content|
    requires Scanning(KeySet(keys), content, covered, Safe(KeySet(keys), content, final), cursor, span)
    requires span.Some? ==> span.value <= cursor
    requires output == Redacted(KeySet(keys), marker, content, covered, cursor)
    requires var next := Earliest(content, keys, cursor, None);
             next.None? || next.value.0 >= Safe(KeySet(keys), content, final)
    ensures Scan(content, keys, Safe(KeySet(keys), content, final), marker, cursor, span, output)
         == Arrival(KeySet(keys), content, covered, final, marker)
  {
    var safe := Safe(KeySet(keys), content, final);
    NothingBefore(content, keys, cursor);
    ScanStopsHere(content, keys, safe, marker, cursor, span, output);
    ScanEnds(KeySet(keys), marker, content, covered, final, cursor, span, output);
  }

  /** One round of the recursion is one round of a scan. */
  lemma {:induction false} RoundFinds(
    content: Bytes, keys: seq<Bytes>, safe: nat, cursor: nat, position: nat, stop: nat) returns (key: Bytes)
    requires [] !in keys && cursor <= |content| && Round(content, keys, safe, cursor) == Some((position, stop))
    ensures cursor <= position < safe && NoStart(KeySet(keys), content, cursor, position)
    ensures key in KeySet(keys) && |key| > 0 && OccursAt(content, key, position)
    ensures EndsSpan(KeySet(keys), content, position, position + |key|, stop)
  {
    key := Earliest(content, keys, cursor, None).value.1;
    NothingBefore(content, keys, cursor);
    SpanEndEnds(content, keys, position, position + |key|, position, position + |key|);
  }

  lemma {:induction false} RoundKeepsScanning(
    content: Bytes, keys: seq<Bytes>, covered: nat, safe: nat, marker: Bytes, cursor: nat, span: Option<nat>, output: Bytes,
    position: nat, stop: nat)
    requires [] !in keys && covered <= |content|
    requires Scanning(KeySet(keys), content, covered, safe, cursor, span)
    requires output == Redacted(KeySet(keys), marker, content, covered, cursor)
    requires Round(content, keys, safe, cursor) == Some((position, stop))
    ensures Scanning(KeySet(keys), content, covered, safe, stop, Some(position))
    ensures output + content[cursor..position] + marker == Redacted(KeySet(keys), marker, content, covered, stop)
  {
    var key := RoundFinds(content, keys, safe, cursor, position, stop);
    ScanRound(KeySet(keys), marker, content, covered, safe, cursor, span, position, key, stop, output);
  }

  lemma {:induction false} ScanArrives(
    content: Bytes, keys: seq<Bytes>, covered: nat, final: bool, marker: Bytes, cursor: nat, span: Option<nat>,
    output: Bytes, scanned: Scanned)
    requires [] !in keys && covered <= |content|
    requires Scanning(KeySet(keys), content, covered, Safe(KeySet(keys), content, final), cursor, span)
    requires span.Some? ==> span.value <= cursor
    requires output == Redacted(KeySet(keys), marker, content, covered, cursor)
    requires scanned == Scan(content, keys, Safe(KeySet(keys), content, final), marker, cursor, span, output)
    ensures scanned == Arrival(KeySet(keys), content, covered, final, marker)
    decreases |content| - cursor
  {
    var safe := Safe(KeySet(keys), content, final);
    var next := Round(content, keys, safe, cursor);
    if next.Some? {
      var position, stop := next.value.0, next.value.1;
      var more := output + content[cursor..position] + marker;
      RoundKeepsScanning(content, keys, covered, safe, marker, cursor, span, output, position, stop);
      ScanGoesOn(content, keys, safe, marker, cursor, span, output, position, stop, more, scanned);
      ScanArrives(content, keys, covered, final, marker, stop, Some(position), more, scanned);
    } else {
      LastRoundArrives(content, keys, covered, final, marker, cursor, span, output);
    }
  }

  /** The unsafe tail found from the last line break on is the unsafe tail. */
  lemma {:induction false} HoldStartIsSafe(content: Bytes, keys: seq<Bytes>, width: nat)
    requires Fits(KeySet(keys), width)
    requires forall key :: key in keys ==> forall b | b in key :: !LineBreak(b)
    ensures HoldStart(content, keys, Max(0, Max(LineEnd(content), |content| - width + 1)))
         == Safe(KeySet(keys), content, false)
  {
    var from := Max(0, Max(LineEnd(content), |content| - width + 1));
    forall p: nat | p < from && p < |content| ensures !CanBegin(KeySet(keys), content, p) {
      if p < LineEnd(content) { LineEndIsSafe(content, keys, p); }
    }
    HoldStartHolds(content, keys, Min(from, |content|));
  }

  lemma {:induction false} WholeScanArrives(
    content: Bytes, covered: nat, keys: seq<Bytes>, marker: Bytes, final: bool, cursor: nat, span: Option<nat>)
    requires [] !in keys && covered <= |content|
    requires cursor == if covered > 0 then SpanEnd(content, keys, 0, covered) else 0
    requires span == if covered > 0 then Some(0) else None
    ensures Scan(content, keys, Safe(KeySet(keys), content, final), marker, cursor, span, [])
         == Arrival(KeySet(keys), content, covered, final, marker)
  {
    if covered > 0 { SpanEndEnds(content, keys, 0, covered, 0, covered); }
    ScanBegins(KeySet(keys), marker, content, covered, Safe(KeySet(keys), content, final), cursor);
    ScanArrives(content, keys, covered, final, marker, cursor, span, [],
                Scan(content, keys, Safe(KeySet(keys), content, final), marker, cursor, span, []));
  }

  /** The step with its completed-line shortcut is the closed-form step, for keys free of CR and LF. */
  lemma {:induction false} RedactIsAdvance(
    content: Bytes, covered: nat, keys: seq<Bytes>, width: nat, marker: Bytes, final: bool)
    requires [] !in keys && Fits(KeySet(keys), width) && covered <= |content|
    requires forall key :: key in keys ==> forall b | b in key :: !LineBreak(b)
    ensures Redact(content, covered, keys, width, marker, final)
         == Advance(KeySet(keys), width, marker, content, covered, final)
  {
    if !final { HoldStartIsSafe(content, keys, width); }
    WholeScanArrives(content, covered, keys, marker, final,
                     if covered > 0 then SpanEnd(content, keys, 0, covered) else 0,
                     if covered > 0 then Some(0) else None);
  }

  // ---- Both redactors on the same credentials

  /** The credentials without empties and repetitions, in their order. */
  function Credentials(raw: seq<Bytes>): seq<Bytes>
  {
    if raw == [] then []
    else
      var front := Credentials(raw[..|raw| - 1]);
      if raw[|raw| - 1] == [] || raw[|raw| - 1] in front then front else front + [raw[|raw| - 1]]
  }

  lemma {:induction false} CredentialsKeep(raw: seq<Bytes>)
    ensures KeySet(Credentials(raw)) == KeySet(raw) - {[]}
  {
    if raw != [] {
      var n := |raw| - 1;
      CredentialsKeep(raw[..n]);
      assert forall k :: k in raw <==> k == raw[n] || k in raw[..n];
      assert forall k :: k in Credentials(raw[..n]) <==> k in KeySet(Credentials(raw[..n]));
      assert forall k :: k in KeySet(Credentials(raw)) <==> k in Credentials(raw);
    }
  }

  lemma {:induction false} SameWidth(a: seq<Bytes>, b: seq<Bytes>)
    requires [] !in a && KeySet(a) == KeySet(b)
    ensures PtyRedactor.Width(a) == PtyRedactor.Width(b)
  {
    assert forall k :: k in a <==> k in KeySet(a);
    assert forall k :: k in b <==> k in KeySet(b);
    PtyRedactor.WidthFits(a);
    PtyRedactor.WidthFits(b);
    assert a != [] ==> a[0] in KeySet(b);
    assert b != [] ==> b[0] in KeySet(a);
  }

  /**
   From the same credentials, held bytes and covered count, the two redactors take the same step: the same bytes
   out, the same bytes held and the same count covered. The right-hand side is what the other redactor's `Feed`
   is specified to do.
   */
  lemma {:induction false} SameStep(
    raw: seq<Bytes>, content: Bytes, covered: nat, marker: Bytes, final: bool)
    requires covered <= |content|
    requires forall key :: key in raw ==> forall b | b in key :: !LineBreak(b)
    ensures var mine, theirs := Credentials(raw), PtyRedactor.Ordered(raw);
            && [] !in mine && KeySet(mine) == KeySet(theirs)
            && Redact(content, covered, mine, PtyRedactor.Width(mine), marker, final)
               == Advance(KeySet(theirs), PtyRedactor.Width(theirs), marker, content, covered, final)
  {
    var mine, theirs := Credentials(raw), PtyRedactor.Ordered(raw);
    CredentialsKeep(raw);
    PtyRedactor.OrderedKeeps(raw);
    assert forall k :: k in KeySet(mine) ==> k in KeySet(raw);
    assert forall k :: k in mine ==> k in KeySet(mine);
    SameWidth(mine, theirs);
    PtyRedactor.WidthFits(mine);
    RedactIsAdvance(content, covered, mine, PtyRedactor.Width(mine), marker, final);
  }

  /** Reading the input in chunks and flushing at the end. */
  function Stream(chunks: seq<Bytes>, keys: seq<Bytes>, width: nat, marker: Bytes, held: Held): Bytes
    requires [] !in keys && held.covered <= |held.bytes|
  {
    if chunks == [] then Redact(held.bytes, held.covered, keys, width, marker, true).output
    else
      var step := Redact(held.bytes + chunks[0], held.covered, keys, width, marker, false);
      step.output + Stream(chunks[1..], keys, width, marker, step.held)
  }

  lemma {:induction false} StreamUnfolds(
    chunks: seq<Bytes>, keys: seq<Bytes>, width: nat, marker: Bytes, held: Held, step: Step)
    requires [] !in keys && Fits(KeySet(keys), width) && held.covered <= |held.bytes|
    requires forall key :: key in keys ==> forall b | b in key :: !LineBreak(b)
    requires chunks != []
    requires step == Advance(KeySet(keys), width, marker, held.bytes + chunks[0], held.covered, false)
    ensures step.held.covered <= |step.held.bytes|
    ensures Stream(chunks, keys, width, marker, held)
         == step.output + Stream(chunks[1..], keys, width, marker, step.held)
  {
    RedactIsAdvance(held.bytes + chunks[0], held.covered, keys, width, marker, false);
  }

  lemma {:induction false} StreamEnds(
    chunks: seq<Bytes>, keys: seq<Bytes>, width: nat, marker: Bytes, fed: Step)
    requires [] !in keys && Fits(KeySet(keys), width)
    requires forall key :: key in keys ==> forall b | b in key :: !LineBreak(b)
    requires fed == Feed(KeySet(keys), width, marker, chunks)
    ensures fed.output + Stream([], keys, width, marker, fed.held) == Run(KeySet(keys), width, marker, chunks)
  {
    RedactIsAdvance(fed.held.bytes, fed.held.covered, keys, width, marker, true);
  }

  lemma {:induction false} StreamIsRun(
    before: seq<Bytes>, chunks: seq<Bytes>, all: seq<Bytes>, keys: seq<Bytes>, width: nat, marker: Bytes,
    fed: Step, rest: Bytes)
    requires [] !in keys && Fits(KeySet(keys), width)
    requires forall key :: key in keys ==> forall b | b in key :: !LineBreak(b)
    requires all == before + chunks
    requires fed == Feed(KeySet(keys), width, marker, before)
    requires rest == Stream(chunks, keys, width, marker, fed.held)
    ensures fed.output + rest == Run(KeySet(keys), width, marker, all)
    decreases |chunks|
  {
    if chunks == [] {
      assert all == before;
      StreamEnds(all, keys, width, marker, fed);
    } else {
      var step := Advance(KeySet(keys), width, marker, fed.held.bytes + chunks[0], fed.held.covered, false);
      StreamUnfolds(chunks, keys, width, marker, fed.held, step);
      FeedOneMore(KeySet(keys), width, marker, before, chunks[0], fed, step);
      TakeFirst(before, chunks);
      var rest' := Stream(chunks[1..], keys, width, marker, step.held);
      StreamIsRun(before + [chunks[0]], chunks[1..], all, keys, width, marker,
                  Step(fed.output + step.output, step.held), rest');
      Regroup(fed.output, step.output, rest');
    }
  }

  lemma TakeFirst(before: seq<Bytes>, chunks: seq<Bytes>)
    requires chunks != []
    ensures before + chunks == before + [chunks[0]] + chunks[1..]
  {
  }

  /** The second redactor too turns a stream, however cut, into the redaction of the whole. */
  lemma {:induction false} StreamIsOneShot(chunks: seq<Bytes>, keys: seq<Bytes>, width: nat, marker: Bytes)
    requires [] !in keys && Fits(KeySet(keys), width)
    requires forall key :: key in keys ==> forall b | b in key :: !LineBreak(b)
    ensures Stream(chunks, keys, width, marker, Held([], 0)) == OneShot(KeySet(keys), marker, Flatten(chunks))
  {
    StreamIsRun([], chunks, chunks, keys, width, marker, Step([], Held([], 0)),
                Stream(chunks, keys, width, marker, Held([], 0)));
    ChunkIndependence(KeySet(keys), width, marker, chunks);
  }

  /** From the same NUL-free credentials, the marker one redactor chooses is the one the other chooses. */
  lemma {:induction false} SameMarker(raw: seq<Bytes>, marker: Bytes)
    requires forall key :: key in raw ==> 0 !in key
    ensures IsFirstSafe(KeySet(PtyRedactor.Ordered(raw)), PtyRedactor.CANDIDATES, marker)
       <==> marker == Replacement(Credentials(raw))
  {
    CredentialsKeep(raw);
    PtyRedactor.OrderedKeeps(raw);
    CredentialsHaveNoNul(raw);
    OnlyCandidate(Credentials(raw), marker);
  }

  lemma {:induction false} CredentialsHaveNoNul(raw: seq<Bytes>)
    requires forall key :: key in raw ==> 0 !in key
    ensures forall key :: key in Credentials(raw) ==> |key| > 0 && 0 !in key
  {
    if raw != [] {
      CredentialsHaveNoNul(raw[..|raw| - 1]);
    }
  }

  lemma {:induction false} OnlyCandidate(keys: seq<Bytes>, marker: Bytes)
    requires forall key :: key in keys ==> |key| > 0 && 0 !in key
    ensures IsFirstSafe(KeySet(keys), PtyRedactor.CANDIDATES, marker) <==> marker == Replacement(keys)
  {
    WordsAreNotEmpty();
    OnlyReplacement(PtyRedactor.MARKERS, PtyRedactor.Singles(33, 126), keys, marker);
  }

  lemma {:induction false} WordsAreNotEmpty()
    ensures forall i :: 0 <= i < |PtyRedactor.MARKERS| ==> |PtyRedactor.MARKERS[i]| > 0
  {
  }

  /**
   From the same credentials, free of NUL and line breaks, each with the marker it chooses itself, the two redactors
   publish the same bytes for every stream and every cut.
   */
  lemma {:induction false} RedactorsAgree(
    raw: seq<Bytes>, chunks: seq<Bytes>, mine: seq<Bytes>, theirs: seq<Bytes>, marker: Bytes)
    requires forall key :: key in raw ==> 0 !in key && forall b | b in key :: !LineBreak(b)
    requires mine == Credentials(raw) && theirs == PtyRedactor.Ordered(raw)
    requires IsFirstSafe(KeySet(theirs), PtyRedactor.CANDIDATES, marker)
    ensures [] !in mine
    ensures Stream(chunks, mine, PtyRedactor.Width(mine), Replacement(mine), Held([], 0))
         == Run(KeySet(theirs), PtyRedactor.Width(theirs), marker, chunks)
  {
    SameMarker(raw, marker);
    SameStep(raw, [], 0, marker, true);
    CredentialsKeep(raw);
    assert forall k :: k in mine ==> k in KeySet(mine);
    assert forall k :: k in KeySet(raw) ==> k in raw;
    SameWidth(mine, theirs);
    PtyRedactor.WidthFits(mine);
    StreamIsOneShot(chunks, mine, PtyRedactor.Width(mine), marker);
    ChunkIndependence(KeySet(theirs), PtyRedactor.Width(theirs), marker, chunks);
  }
}
