/** Redacting a stream that arrives in chunks. */
module RedactionStream {
  import opened Bytes
  import opened Options
  import opened Redaction
  import opened Integers
  import opened Sequences

  // Between chunks a redactor keeps a tail of the stream (`held`) of which the first `covered` bytes lie in a span
  // already published as a marker. `Advance` gives the whole step in closed form, with no scanning loop: where the
  // unsafe tail begins, which boundary publication reaches, and how much of the last span is kept.

  /** The tail from `p` could still grow into a key. */
  ghost predicate CanBegin(keys: set<Bytes>, content: Bytes, p: int)
  {
    0 <= p < |content| && exists key :: key in keys && content[p..] < key
  }

  /** The first position at or after `p` whose tail could still grow into a key, or the end. */
  ghost function HoldFrom(keys: set<Bytes>, content: Bytes, p: nat): (r: nat)
    requires p <= |content|
    ensures p <= r <= |content|
    ensures r < |content| ==> CanBegin(keys, content, r)
    ensures forall q :: p <= q < r ==> !CanBegin(keys, content, q)
    decreases |content| - p
  {
    if p == |content| || CanBegin(keys, content, p) then p else HoldFrom(keys, content, p + 1)
  }

  /** The first boundary at or after `j` that no occurrence straddles. */
  ghost function Boundary(keys: set<Bytes>, content: Bytes, j: nat): (r: nat)
    requires j <= |content|
    ensures j <= r <= |content|
    ensures !Straddled(keys, content, r)
    ensures forall i :: j <= i < r ==> Straddled(keys, content, i)
    decreases |content| - j
  {
    if Straddled(keys, content, j) then Boundary(keys, content, j + 1) else j
  }

  /** The last boundary at or before `j` that no occurrence straddles. */
  ghost function BoundaryBefore(keys: set<Bytes>, content: Bytes, j: nat): (r: nat)
    ensures r <= j
    ensures !Straddled(keys, content, r)
    ensures forall i :: r < i <= j ==> Straddled(keys, content, i)
  {
    if Straddled(keys, content, j) then BoundaryBefore(keys, content, j - 1) else j
  }

  /** What a step publishes, and what it keeps for the next one. */
  datatype Held = Held(bytes: Bytes, covered: nat)
  datatype Step = Step(output: Bytes, held: Held)

  ghost function Safe(keys: set<Bytes>, content: Bytes, final: bool): (r: nat)
    ensures r <= |content|
  {
    if final then |content| else HoldFrom(keys, content, 0)
  }

  /** The boundary up to which everything is published. */
  ghost function Reach(keys: set<Bytes>, content: Bytes, covered: nat, final: bool): (r: nat)
    requires covered <= |content|
    ensures covered <= r <= |content|
  {
    Boundary(keys, content, Max(Safe(keys, content, final), covered))
  }

  /** Where the span that ends at `reach` begins, if a span ends there. */
  ghost function LastSpan(keys: set<Bytes>, content: Bytes, covered: nat, reach: nat): (r: Option<nat>)
    requires covered <= reach <= |content|
    ensures r.Some? ==> r.value <= reach
  {
    if covered > 0 && reach == Boundary(keys, content, covered) then Some(0)
    else if reach > 0 && Starts(keys, content, BoundaryBefore(keys, content, reach - 1)) then
      Some(BoundaryBefore(keys, content, reach - 1))
    else None
  }

  ghost function Keep(width: nat, content: Bytes, reach: nat, span: Option<nat>, final: bool): (r: nat)
    requires reach <= |content|
    ensures r <= reach
  {
    if span.None? || final then reach else Min(reach, Max(span.value, |content| - width + 1))
  }

  ghost function Advance(
    keys: set<Bytes>, width: nat, marker: Bytes, content: Bytes, covered: nat, final: bool): (r: Step)
    requires covered <= |content|
    ensures r.held.covered <= |r.held.bytes| <= |content|
    ensures |content| - |r.held.bytes| + r.held.covered == Reach(keys, content, covered, final)
  {
    var reach := Reach(keys, content, covered, final);
    var keep := Keep(width, content, reach, LastSpan(keys, content, covered, reach), final);
    Step(Redacted(keys, marker, content, covered, reach), Held(content[keep..], reach - keep))
  }

  /** Every key is nonempty and no longer than `width`. */
  ghost predicate Fits(keys: set<Bytes>, width: nat)
  {
    forall key :: key in keys ==> 0 < |key| <= width
  }

  // ---- The invariant between chunks

  /**
   `held` is the end of the stream so far, and however the stream goes on, an occurrence that begins before the
   kept bytes ends inside the published span.
   */
  ghost predicate Tracks(keys: set<Bytes>, stream: Bytes, held: Held)
  {
    && held.covered <= |held.bytes| <= |stream|
    && held.bytes == stream[|stream| - |held.bytes|..]
    && forall more: Bytes, key, p ::
         key in keys && OccursAt(stream + more, key, p) && p < |stream| - |held.bytes| ==>
         p + |key| <= |stream| - |held.bytes| + held.covered
  }

  /** How far publication has gone in the stream. */
  function Published(stream: Bytes, held: Held): int
  {
    |stream| - |held.bytes| + held.covered
  }

  /** An occurrence completed only by later bytes begins where the tail was held, within the last `width - 1`. */
  lemma {:induction false} LateOccurrence(keys: set<Bytes>, width: nat, content: Bytes, more: Bytes, key: Bytes, p: int)
    requires Fits(keys, width) && key in keys
    requires OccursAt(content + more, key, p) && p + |key| > |content|
    ensures p >= HoldFrom(keys, content, 0)
    ensures p >= |content| - width + 1
  {
    if p < |content| {
      var whole := content + more;
      assert key == whole[p..p + |key|];
      assert content[p..] == key[..|content| - p];
      assert CanBegin(keys, content, p);
    }
  }

  lemma {:induction false} OccursInPrefix(content: Bytes, more: Bytes, key: Bytes, p: int)
    requires p + |key| <= |content|
    ensures OccursAt(content, key, p) <==> OccursAt(content + more, key, p)
  {
    if 0 <= p {
      assert (content + more)[p..p + |key|] == content[p..p + |key|];
    }
  }

  lemma {:induction false} SliceOfSuffix(s: Bytes, base: nat, lo: nat, hi: nat)
    requires lo <= hi && base + hi <= |s|
    ensures s[base..][lo..hi] == s[base + lo..base + hi]
  {
    assert forall i :: 0 <= i < hi - lo ==> s[base..][lo..hi][i] == s[base + lo + i];
  }

  /** Occurrences of the whole stream that begin in the kept bytes are the occurrences of those bytes. */
  lemma {:induction false} OccursInSuffix(stream: Bytes, base: nat, more: Bytes, key: Bytes, p: nat)
    requires base <= |stream|
    ensures OccursAt(stream[base..] + more, key, p) <==> OccursAt(stream + more, key, base + p)
  {
    var whole := stream + more;
    assert whole[base..] == stream[base..] + more;
    if base + p + |key| <= |whole| {
      SliceOfSuffix(whole, base, p, p + |key|);
    }
  }

  /** No occurrence that begins before `reach` in the content ends after it. */
  lemma {:induction false} ReachIsClosed(keys: set<Bytes>, content: Bytes, covered: nat, final: bool, key: Bytes, p: int)
    requires covered <= |content|
    requires key in keys && OccursAt(content, key, p) && p < Reach(keys, content, covered, final)
    ensures p + |key| <= Reach(keys, content, covered, final)
  {
  }

  /** Bytes below the unsafe tail that get published emit the same however the stream goes on. */
  lemma {:induction false} EmitIsSettled(
    keys: set<Bytes>, width: nat, marker: Bytes, content: Bytes, covered: nat, more: Bytes, j: nat)
    requires Fits(keys, width) && covered <= |content|
    requires covered <= j < Reach(keys, content, covered, false)
    ensures Emit(keys, marker, content, j) == Emit(keys, marker, content + more, j)
  {
    var safe := Safe(keys, content, false);
    forall key, p | key in keys && OccursAt(content, key, p) ensures OccursAt(content + more, key, p) {
      OccursInPrefix(content, more, key, p);
    }
    if j < safe {
      forall key, p | key in keys && OccursAt(content + more, key, p) && p <= j
        ensures OccursAt(content, key, p)
      {
        if p + |key| > |content| {
          LateOccurrence(keys, width, content, more, key, p);
        }
        OccursInPrefix(content, more, key, p);
      }
    } else {
      assert Straddled(keys, content, j);
    }
  }

  /** Bytes past the published point emit in the kept bytes what they emit in the whole stream. */
  lemma {:induction false} EmitIsLocal(keys: set<Bytes>, marker: Bytes, stream: Bytes, held: Held, more: Bytes, j: nat)
    requires Tracks(keys, stream, held)
    requires held.covered <= j < |held.bytes + more|
    ensures Emit(keys, marker, held.bytes + more, j)
         == Emit(keys, marker, stream + more, |stream| - |held.bytes| + j)
  {
    var base := |stream| - |held.bytes|;
    forall key, p: nat ensures OccursAt(held.bytes + more, key, p) <==> OccursAt(stream + more, key, base + p) {
      OccursInSuffix(stream, base, more, key, p);
    }
    if Straddled(keys, stream + more, base + j) {
      var key, p :| key in keys && OccursAt(stream + more, key, p) && p < base + j < p + |key|;
      assert p >= base;
      assert OccursAt(held.bytes + more, key, p - base);
    }
    if Straddled(keys, held.bytes + more, j) {
      var key, p :| key in keys && OccursAt(held.bytes + more, key, p) && p < j < p + |key|;
      assert OccursAt(stream + more, key, base + p);
    }
    if Starts(keys, stream + more, base + j) {
      var key :| key in keys && OccursAt(stream + more, key, base + j);
      assert OccursAt(held.bytes + more, key, j);
    }
    assert (stream + more)[base + j] == (held.bytes + more)[j];
  }

  /** The two previous facts together: what a step emits for a byte is what the whole stream emits for it. */
  lemma {:induction false} StepEmitsAlike(
    keys: set<Bytes>, width: nat, marker: Bytes, stream: Bytes, held: Held, data: Bytes, more: Bytes)
    requires Fits(keys, width) && Tracks(keys, stream, held)
    ensures EmitAlike(keys, marker, stream + data + more, held.bytes + data, |stream| - |held.bytes|,
                      held.covered, Reach(keys, held.bytes + data, held.covered, false))
  {
    var content := held.bytes + data;
    assert content + more == held.bytes + (data + more);
    assert stream + data + more == stream + (data + more);
    forall j: nat | held.covered <= j < Reach(keys, content, held.covered, false)
      ensures Emit(keys, marker, content, j)
           == Emit(keys, marker, stream + data + more, j + (|stream| - |held.bytes|))
    {
      EmitIsSettled(keys, width, marker, content, held.covered, more, j);
      EmitIsLocal(keys, marker, stream, held, data + more, j);
    }
  }

  lemma {:induction false} ReachPublishes(
    keys: set<Bytes>, width: nat, marker: Bytes, stream: Bytes, held: Held, data: Bytes, more: Bytes,
    reach: nat, lo: int, hi: int)
    requires Fits(keys, width) && Tracks(keys, stream, held)
    requires reach == Reach(keys, held.bytes + data, held.covered, false)
    requires lo == held.covered + (|stream| - |held.bytes|) && hi == reach + (|stream| - |held.bytes|)
    ensures 0 <= lo <= hi <= |stream + data|
    ensures Redacted(keys, marker, held.bytes + data, held.covered, reach)
         == Redacted(keys, marker, stream + data + more, lo, hi)
  {
    var whole, part, shift := stream + data + more, held.bytes + data, |stream| - |held.bytes|;
    StepEmitsAlike(keys, width, marker, stream, held, data, more);
    assert reach <= |part| && |part| + shift <= |whole| && held.covered <= reach;
    assert EmitAlike(keys, marker, whole, part, shift, held.covered, reach);
    RedactedShift(keys, marker, whole, part, shift, held.covered, reach, lo, hi);
  }

  lemma {:induction false} AdvanceReaches(
    keys: set<Bytes>, width: nat, marker: Bytes, content: Bytes, covered: nat, final: bool, step: Step)
    requires covered <= |content| && step == Advance(keys, width, marker, content, covered, final)
    ensures step.output == Redacted(keys, marker, content, covered, Reach(keys, content, covered, final))
    ensures step.held.covered <= |step.held.bytes| <= |content|
    ensures |content| - |step.held.bytes| + step.held.covered == Reach(keys, content, covered, final)
  {
  }

  /** A step in the middle of the stream publishes what the whole stream emits there, whatever comes later. */
  lemma {:induction false} StepPublishes(
    keys: set<Bytes>, width: nat, marker: Bytes, stream: Bytes, held: Held, data: Bytes, whole: Bytes,
    lo: int, hi: int, step: Step)
    requires Fits(keys, width) && Tracks(keys, stream, held) && stream + data <= whole
    requires step == Advance(keys, width, marker, held.bytes + data, held.covered, false)
    requires lo == Published(stream, held) && hi == Published(stream + data, step.held)
    ensures 0 <= lo <= hi <= |stream + data|
    ensures step.output == Redacted(keys, marker, whole, lo, hi)
  {
    var reach := Reach(keys, held.bytes + data, held.covered, false);
    var more := whole[|stream + data|..];
    AdvanceReaches(keys, width, marker, held.bytes + data, held.covered, false, step);
    ReachPublishes(keys, width, marker, stream, held, data, more, reach, lo, hi);
    assert whole == stream + data + more;
  }

  lemma {:induction false} FinalEmitsAlike(keys: set<Bytes>, marker: Bytes, stream: Bytes, held: Held, data: Bytes)
    requires Tracks(keys, stream, held)
    ensures EmitAlike(keys, marker, stream + data, held.bytes + data, |stream| - |held.bytes|,
                      held.covered, |held.bytes + data|)
  {
    forall j: nat | held.covered <= j < |held.bytes + data|
      ensures Emit(keys, marker, held.bytes + data, j)
           == Emit(keys, marker, stream + data, j + (|stream| - |held.bytes|))
    {
      EmitIsLocal(keys, marker, stream, held, data, j);
    }
  }

  lemma {:induction false} RestPublishes(keys: set<Bytes>, marker: Bytes, stream: Bytes, held: Held, data: Bytes)
    requires Tracks(keys, stream, held)
    ensures var content := held.bytes + data;
            Redacted(keys, marker, content, held.covered, |content|)
            == Redacted(keys, marker, stream + data, Published(stream, held), |stream + data|)
  {
    var content := held.bytes + data;
    FinalEmitsAlike(keys, marker, stream, held, data);
    RedactedShift(keys, marker, stream + data, content, |stream| - |held.bytes|, held.covered, |content|,
                  Published(stream, held), |stream + data|);
  }

  /** The final step publishes the rest and keeps nothing. */
  lemma {:induction false} FinalStepPublishes(keys: set<Bytes>, width: nat, marker: Bytes, stream: Bytes, held: Held, data: Bytes)
    requires Tracks(keys, stream, held)
    ensures var step := Advance(keys, width, marker, held.bytes + data, held.covered, true);
            && step.held == Held([], 0)
            && step.output == Redacted(keys, marker, stream + data, Published(stream, held), |stream + data|)
  {
    var content := held.bytes + data;
    calc {
      Advance(keys, width, marker, content, held.covered, true).output;
      Redacted(keys, marker, content, held.covered, |content|);
      { RestPublishes(keys, marker, stream, held, data); }
      Redacted(keys, marker, stream + data, Published(stream, held), |stream + data|);
    }
  }

  /** Where a boundary is straddled and the one before it is not, an occurrence starts in between. */
  lemma {:induction false} SpanStarts(keys: set<Bytes>, content: Bytes, j: int)
    requires !Straddled(keys, content, j) && Straddled(keys, content, j + 1)
    ensures Starts(keys, content, j)
  {
    var key, p :| key in keys && OccursAt(content, key, p) && p < j + 1 < p + |key|;
    assert p == j;
  }

  /** The span that is cut short began before the unsafe tail; without one, publication stops at the tail. */
  lemma {:induction false} SpanBeginsBelowTail(keys: set<Bytes>, content: Bytes, covered: nat)
    requires covered <= |content|
    ensures var safe := Safe(keys, content, false);
            var reach := Reach(keys, content, covered, false);
            match LastSpan(keys, content, covered, reach)
            case Some(start) => start == 0 || start < safe
            case None => reach <= safe
  {
    var safe := Safe(keys, content, false);
    var reach := Reach(keys, content, covered, false);
    if !(covered > 0 && reach == Boundary(keys, content, covered)) && reach > 0 {
      var start := BoundaryBefore(keys, content, reach - 1);
      if start < reach - 1 {
        SpanStarts(keys, content, start);
      }
    }
  }

  /** Within one step: whatever begins before the kept bytes, now or later, ends by the published boundary. */
  lemma {:induction false} KeepIsClosed(keys: set<Bytes>, width: nat, content: Bytes, covered: nat, more: Bytes, key: Bytes, p: nat)
    requires Fits(keys, width) && covered <= |content| && key in keys
    requires OccursAt(content + more, key, p)
    requires var reach := Reach(keys, content, covered, false);
             p < Keep(width, content, reach, LastSpan(keys, content, covered, reach), false)
    ensures p + |key| <= Reach(keys, content, covered, false)
  {
    if p + |key| <= |content| {
      OccursInPrefix(content, more, key, p);
      ReachIsClosed(keys, content, covered, false, key, p);
    } else {
      LateOccurrence(keys, width, content, more, key, p);
      SpanBeginsBelowTail(keys, content, covered);
    }
  }

  lemma {:induction false} BeginsAndEndsBefore(
    keys: set<Bytes>, width: nat, stream: Bytes, held: Held, data: Bytes, more: Bytes, key: Bytes, p: int,
    reach: nat, keep: nat)
    requires Fits(keys, width) && Tracks(keys, stream, held) && key in keys
    requires reach == Reach(keys, held.bytes + data, held.covered, false)
    requires keep == Keep(width, held.bytes + data, reach,
                          LastSpan(keys, held.bytes + data, held.covered, reach), false)
    requires OccursAt(stream + data + more, key, p) && p < |stream| - |held.bytes| + keep
    ensures p + |key| <= |stream| - |held.bytes| + reach
  {
    var base, content := |stream| - |held.bytes|, held.bytes + data;
    if p >= base {
      InHeld(stream, held, data, more, key, p, base, content);
      KeepIsClosed(keys, width, content, held.covered, more, key, p - base);
    } else {
      Regroup(stream, data, more);
      assert OccursAt(stream + (data + more), key, p);
    }
  }

  lemma {:induction false} InHeld(
    stream: Bytes, held: Held, data: Bytes, more: Bytes, key: Bytes, p: int, base: nat, content: Bytes)
    requires |held.bytes| <= |stream| && base == |stream| - |held.bytes| && held.bytes == stream[base..]
    requires content == held.bytes + data && OccursAt(stream + data + more, key, p) && base <= p
    ensures OccursAt(content + more, key, p - base)
  {
    assert (stream + data)[base..] == content;
    OccursInSuffix(stream + data, base, more, key, p - base);
  }

  /** The invariant is kept: nothing that could still grow is dropped, whatever span was cut short. */
  lemma {:induction false} StepTracks(
    keys: set<Bytes>, width: nat, marker: Bytes, stream: Bytes, held: Held, data: Bytes, next: Held)
    requires Fits(keys, width) && Tracks(keys, stream, held)
    requires next == Advance(keys, width, marker, held.bytes + data, held.covered, false).held
    ensures Tracks(keys, stream + data, next)
  {
    var content := held.bytes + data;
    var reach := Reach(keys, content, held.covered, false);
    var keep := Keep(width, content, reach, LastSpan(keys, content, held.covered, reach), false);
    var base := |stream| - |held.bytes|;
    assert next == Held(content[keep..], reach - keep);
    assert content[keep..] == (stream + data)[base + keep..];
    forall more: Bytes, key, p | key in keys && OccursAt(stream + data + more, key, p) && p < base + keep
      ensures p + |key| <= base + reach
    {
      BeginsAndEndsBefore(keys, width, stream, held, data, more, key, p, reach, keep);
    }
  }

  // ---- Whole runs

  /** Feeding the chunks one by one, none of them final. */
  ghost function Feed(keys: set<Bytes>, width: nat, marker: Bytes, chunks: seq<Bytes>): (r: Step)
    ensures r.held.covered <= |r.held.bytes|
  {
    if chunks == [] then Step([], Held([], 0))
    else After(keys, width, marker, Feed(keys, width, marker, chunks[..|chunks| - 1]), chunks[|chunks| - 1])
  }

  /** Feeding the chunks one by one and then flushing. */
  ghost function Run(keys: set<Bytes>, width: nat, marker: Bytes, chunks: seq<Bytes>): Bytes
  {
    var fed := Feed(keys, width, marker, chunks);
    fed.output + Advance(keys, width, marker, fed.held.bytes, fed.held.covered, true).output
  }

  lemma {:induction false} FlattenAppend(chunks: seq<Bytes>, last: Bytes)
    ensures Flatten(chunks + [last]) == Flatten(chunks) + last
  {
    if chunks == [] {
    } else {
      FlattenAppend(chunks[1..], last);
      assert (chunks + [last])[1..] == chunks[1..] + [last];
    }
  }

  /** What is out after some chunks is what any continuation `whole` of the stream emits up to the published point. */
  ghost predicate Refines(keys: set<Bytes>, marker: Bytes, stream: Bytes, fed: Step, whole: Bytes)
  {
    && Tracks(keys, stream, fed.held)
    && 0 <= Published(stream, fed.held) <= |stream| <= |whole|
    && fed.output == Redacted(keys, marker, whole, 0, Published(stream, fed.held))
  }

  /** One more step of a run. */
  ghost function After(keys: set<Bytes>, width: nat, marker: Bytes, before: Step, data: Bytes): (r: Step)
    requires before.held.covered <= |before.held.bytes|
    ensures r.held.covered <= |r.held.bytes|
  {
    var last := Advance(keys, width, marker, before.held.bytes + data, before.held.covered, false);
    Step(before.output + last.output, last.held)
  }

  lemma {:induction false} Joins(
    keys: set<Bytes>, marker: Bytes, whole: Bytes, before: Bytes, last: Bytes, lo: nat, hi: nat)
    requires lo <= hi <= |whole|
    requires before == Redacted(keys, marker, whole, 0, lo) && last == Redacted(keys, marker, whole, lo, hi)
    ensures before + last == Redacted(keys, marker, whole, 0, hi)
  {
    RedactedSplit(keys, marker, whole, 0, lo, hi);
  }

  lemma {:induction false} AfterRefines(
    keys: set<Bytes>, width: nat, marker: Bytes, stream: Bytes, before: Step, data: Bytes, whole: Bytes)
    requires Fits(keys, width) && Refines(keys, marker, stream, before, whole) && stream + data <= whole
    ensures Refines(keys, marker, stream + data, After(keys, width, marker, before, data), whole)
  {
    var last := Advance(keys, width, marker, before.held.bytes + data, before.held.covered, false);
    var lo, hi := Published(stream, before.held), Published(stream + data, last.held);
    StepPublishes(keys, width, marker, stream, before.held, data, whole, lo, hi, last);
    Joins(keys, marker, whole, before.output, last.output, lo, hi);
    StepTracks(keys, width, marker, stream, before.held, data, last.held);
  }

  lemma {:induction false} FeedOneMore(
    keys: set<Bytes>, width: nat, marker: Bytes, before: seq<Bytes>, data: Bytes, fed: Step, step: Step)
    requires fed == Feed(keys, width, marker, before)
    requires step == Advance(keys, width, marker, fed.held.bytes + data, fed.held.covered, false)
    ensures Feed(keys, width, marker, before + [data]) == Step(fed.output + step.output, step.held)
  {
    assert (before + [data])[..|before|] == before;
  }

  lemma {:induction false} FeedRefines(
    keys: set<Bytes>, width: nat, marker: Bytes, chunks: seq<Bytes>, whole: Bytes)
    requires Fits(keys, width) && Flatten(chunks) <= whole
    ensures Refines(keys, marker, Flatten(chunks), Feed(keys, width, marker, chunks), whole)
  {
    if chunks != [] {
      var n := |chunks| - 1;
      var data, stream, before := chunks[n], Flatten(chunks[..n]), Feed(keys, width, marker, chunks[..n]);
      assert Flatten(chunks) == stream + data by {
        assert chunks == chunks[..n] + [data];
        FlattenAppend(chunks[..n], data);
      }
      FeedRefines(keys, width, marker, chunks[..n], whole);
      AfterRefines(keys, width, marker, stream, before, data, whole);
      assert Feed(keys, width, marker, chunks) == After(keys, width, marker, before, data);
    }
  }

  /** However a stream is cut, and whatever the last feed brings, the outputs join up to the redaction of the whole. */
  lemma {:induction false} LastFeedJoins(
    keys: set<Bytes>, width: nat, marker: Bytes, chunks: seq<Bytes>, data: Bytes, fed: Step, last: Step)
    requires Fits(keys, width) && fed == Feed(keys, width, marker, chunks)
    requires last == Advance(keys, width, marker, fed.held.bytes + data, fed.held.covered, true)
    ensures fed.output + last.output == OneShot(keys, marker, Flatten(chunks) + data)
    ensures last.held == Held([], 0)
  {
    var stream := Flatten(chunks);
    var whole := stream + data;
    FeedRefines(keys, width, marker, chunks, whole);
    FinalStepPublishes(keys, width, marker, stream, fed.held, data);
    RedactedSplit(keys, marker, whole, 0, Published(stream, fed.held), |whole|);
  }

  /** Chunk independence of a run that is closed by an empty final feed. */
  lemma {:induction false} ChunkIndependence(keys: set<Bytes>, width: nat, marker: Bytes, chunks: seq<Bytes>)
    requires Fits(keys, width)
    ensures Run(keys, width, marker, chunks) == OneShot(keys, marker, Flatten(chunks))
  {
    var fed := Feed(keys, width, marker, chunks);
    assert Flatten(chunks) + [] == Flatten(chunks) && fed.held.bytes + [] == fed.held.bytes;
    LastFeedJoins(keys, width, marker, chunks, [], fed,
                  Advance(keys, width, marker, fed.held.bytes, fed.held.covered, true));
  }
}
