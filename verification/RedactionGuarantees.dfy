/** What the closed-form step and the definition of redaction guarantee to whoever reads the output. */
module RedactionGuarantees {
  import opened Bytes
  import opened Redaction
  import opened RedactionStream

  // ---- Bounded and prompt

  /** At most `width - 1` bytes are held after a step that is not final. */
  lemma {:induction false} HeldIsBounded(
    keys: set<Bytes>, width: nat, marker: Bytes, content: Bytes, covered: nat)
    requires Fits(keys, width) && width > 0 && covered <= |content|
    ensures var held := Advance(keys, width, marker, content, covered, false).held;
            held.covered <= |held.bytes| < width
  {
    var safe := Safe(keys, content, false);
    if safe < |content| {
      var key :| key in keys && content[safe..] < key;
      assert |content| - safe < |key| <= width;
    }
    SpanBeginsBelowTail(keys, content, covered);
  }

  /** A tail of the kept bytes is a tail of the stream. */
  lemma {:induction false} TailOfStream(keys: set<Bytes>, stream: Bytes, base: nat, p: nat)
    requires base <= |stream|
    ensures CanBegin(keys, stream[base..], p) ==> CanBegin(keys, stream, base + p)
  {
    if CanBegin(keys, stream[base..], p) {
      assert stream[base..][p..] == stream[base + p..];
    }
  }

  /** Publication never waits longer than it must: it reaches the first tail that could still grow into a key. */
  lemma {:induction false} StepIsPrompt(
    keys: set<Bytes>, width: nat, marker: Bytes, stream: Bytes, held: Held, data: Bytes)
    requires Fits(keys, width) && Tracks(keys, stream, held)
    ensures HoldFrom(keys, stream + data, 0)
         <= Published(stream + data, Advance(keys, width, marker, held.bytes + data, held.covered, false).held)
  {
    var content := held.bytes + data;
    var base := |stream| - |held.bytes|;
    assert (stream + data)[base..] == content;
    TailOfStream(keys, stream + data, base, Safe(keys, content, false));
  }

  lemma {:induction false} FeedIsPrompt(keys: set<Bytes>, width: nat, marker: Bytes, chunks: seq<Bytes>)
    requires Fits(keys, width)
    ensures HoldFrom(keys, Flatten(chunks), 0)
         <= Published(Flatten(chunks), Feed(keys, width, marker, chunks).held)
  {
    if chunks != [] {
      var n := |chunks| - 1;
      var data, stream, before := chunks[n], Flatten(chunks[..n]), Feed(keys, width, marker, chunks[..n]);
      assert Flatten(chunks) == stream + data by {
        assert chunks == chunks[..n] + [data];
        FlattenAppend(chunks[..n], data);
      }
      FeedRefines(keys, width, marker, chunks[..n], stream);
      StepIsPrompt(keys, width, marker, stream, before.held, data);
    }
  }

  /** When no tail of the stream so far is the beginning of a key, everything is out already. */
  lemma {:induction false} QuiescentOutput(keys: set<Bytes>, width: nat, marker: Bytes, chunks: seq<Bytes>)
    requires Fits(keys, width)
    requires forall p :: !CanBegin(keys, Flatten(chunks), p)
    ensures Feed(keys, width, marker, chunks).output == OneShot(keys, marker, Flatten(chunks))
  {
    var stream, fed := Flatten(chunks), Feed(keys, width, marker, chunks);
    FeedIsPrompt(keys, width, marker, chunks);
    assert HoldFrom(keys, stream, 0) == |stream|;
    FeedRefines(keys, width, marker, chunks, stream);
    assert Published(stream, fed.held) == |stream|;
  }

  // ---- No key survives

  ghost predicate Contains(text: Bytes, key: Bytes)
  {
    exists p :: OccursAt(text, key, p)
  }

  /** A marker that holds no key, and whose first and last byte occur in no key. */
  ghost predicate SafeMarker(keys: set<Bytes>, marker: Bytes)
  {
    && |marker| > 0
    && forall key :: key in keys ==>
         !Contains(marker, key) && marker[0] !in key && marker[|marker| - 1] !in key
  }

  ghost predicate NoneSafe(keys: set<Bytes>, candidates: seq<Bytes>)
  {
    forall i :: 0 <= i < |candidates| ==> !SafeMarker(keys, candidates[i])
  }

  ghost predicate IsFirstSafe(keys: set<Bytes>, candidates: seq<Bytes>, marker: Bytes)
  {
    exists i :: 0 <= i < |candidates| && candidates[i] == marker && SafeMarker(keys, marker)
             && NoneSafe(keys, candidates[..i])
  }

  lemma {:induction false} NoneSafeBefore(keys: set<Bytes>, candidates: seq<Bytes>, n: nat, i: nat)
    requires i < n <= |candidates| && NoneSafe(keys, candidates[..n])
    ensures !SafeMarker(keys, candidates[i])
  {
    assert candidates[..n][i] == candidates[i];
  }

  lemma {:induction false} FirstSafeIsUnique(keys: set<Bytes>, candidates: seq<Bytes>, a: Bytes, b: Bytes)
    requires IsFirstSafe(keys, candidates, a) && IsFirstSafe(keys, candidates, b)
    ensures a == b
  {
    var i :| 0 <= i < |candidates| && candidates[i] == a && SafeMarker(keys, a) && NoneSafe(keys, candidates[..i]);
    var j :| 0 <= j < |candidates| && candidates[j] == b && SafeMarker(keys, b) && NoneSafe(keys, candidates[..j]);
    if i < j {
      NoneSafeBefore(keys, candidates, j, i);
    } else if j < i {
      NoneSafeBefore(keys, candidates, i, j);
    }
  }

  lemma {:induction false} FirstSafeOfBoth(keys: set<Bytes>, left: seq<Bytes>, right: seq<Bytes>, marker: Bytes)
    requires IsFirstSafe(keys, left, marker) || (NoneSafe(keys, left) && IsFirstSafe(keys, right, marker))
    ensures IsFirstSafe(keys, left + right, marker)
  {
    var both := left + right;
    if IsFirstSafe(keys, left, marker) {
      var i :| 0 <= i < |left| && left[i] == marker && NoneSafe(keys, left[..i]);
      assert both[i] == marker && both[..i] == left[..i];
    } else {
      var i :| 0 <= i < |right| && right[i] == marker && NoneSafe(keys, right[..i]);
      assert both[|left| + i] == marker && both[..|left| + i] == left + right[..i];
    }
  }

  /** NUL serves as the marker when no key is empty or contains it. */
  lemma {:induction false} NulIsSafe(keys: set<Bytes>)
    requires forall key :: key in keys ==> |key| > 0 && 0 !in key
    ensures SafeMarker(keys, [0])
  {
    forall key, p | key in keys ensures !OccursAt([0], key, p) {
      if OccursAt([0], key, p) {
        OccurrenceBegins([0], key, p);
      }
    }
  }

  lemma {:induction false} OccurrenceBegins(text: Bytes, key: Bytes, p: int)
    requires |key| > 0 && OccursAt(text, key, p)
    ensures key[0] == text[p] && key[0] in key
  {
    assert text[p..p + |key|][0] == text[p];
  }

  lemma {:induction false} RedactedHead(keys: set<Bytes>, marker: Bytes, content: Bytes, lo: nat)
    requires lo < |content|
    ensures Redacted(keys, marker, content, lo, |content|)
         == Emit(keys, marker, content, lo) + Redacted(keys, marker, content, lo + 1, |content|)
  {
    RedactedSplit(keys, marker, content, lo, lo + 1, |content|);
    assert Redacted(keys, marker, content, lo, lo) == [];
  }

  /** A stretch of output without the marker's first byte, begun at an unstraddled byte, is copied content. */
  lemma {:induction false} LiteralStretch(keys: set<Bytes>, marker: Bytes, content: Bytes, lo: nat, text: Bytes)
    requires |marker| > 0 && marker[0] !in text && |text| > 0
    requires lo <= |content| && !Straddled(keys, content, lo)
    requires text <= Redacted(keys, marker, content, lo, |content|)
    ensures lo < |content| && !Starts(keys, content, lo)
    ensures OccursAt(content, text, lo)
    decreases |text|
  {
    LiteralHead(keys, marker, content, lo, text, Redacted(keys, marker, content, lo, |content|));
    if |text| > 1 {
      LiteralStretch(keys, marker, content, lo + 1, text[1..]);
    }
    LiteralJoins(content, lo, text);
  }

  /** A byte that is no marker's first stands for itself. */
  lemma {:induction false} LiteralHead(
    keys: set<Bytes>, marker: Bytes, content: Bytes, lo: nat, text: Bytes, whole: Bytes)
    requires |marker| > 0 && marker[0] !in text && |text| > 0
    requires lo <= |content| && !Straddled(keys, content, lo)
    requires whole == Redacted(keys, marker, content, lo, |content|) && text <= whole
    ensures lo < |content| && !Starts(keys, content, lo) && text[0] == content[lo]
    ensures !Straddled(keys, content, lo + 1)
    ensures text[1..] <= Redacted(keys, marker, content, lo + 1, |content|)
  {
    assert lo < |content|;
    RedactedHead(keys, marker, content, lo);
    var head, rest := Emit(keys, marker, content, lo), Redacted(keys, marker, content, lo + 1, |content|);
    assert text[0] == (head + rest)[0] == head[0];
    assert head == [content[lo]];
    assert rest == whole[1..];
    if Straddled(keys, content, lo + 1) {
      SpanStarts(keys, content, lo);
    }
  }

  lemma {:induction false} LiteralJoins(content: Bytes, lo: nat, text: Bytes)
    requires |text| > 0 && lo < |content| && text[0] == content[lo]
    requires |text| > 1 ==> OccursAt(content, text[1..], lo + 1)
    ensures OccursAt(content, text, lo)
  {
    if |text| > 1 {
      assert content[lo..lo + |text|] == [content[lo]] + content[lo + 1..lo + 1 + |text[1..]|];
    }
  }

  lemma {:induction false} WindowFromMarker(marker: Bytes, rest: Bytes, key: Bytes, q: nat)
    requires q < |marker| && |key| > 0 && OccursAt(marker + rest, key, q)
    ensures OccursAt(marker, key, q) || marker[|marker| - 1] in key
  {
    if q + |key| <= |marker| {
      assert (marker + rest)[q..q + |key|] == marker[q..q + |key|];
    } else {
      assert key[|marker| - 1 - q] == (marker + rest)[|marker| - 1];
    }
  }

  lemma {:induction false} NoKeyFrom(
    keys: set<Bytes>, marker: Bytes, content: Bytes, lo: nat, key: Bytes, q: nat)
    requires [] !in keys && SafeMarker(keys, marker) && key in keys && lo <= |content|
    ensures !OccursAt(Redacted(keys, marker, content, lo, |content|), key, q)
    decreases |content| - lo
  {
    var text := Redacted(keys, marker, content, lo, |content|);
    if OccursAt(text, key, q) {
      assert lo < |content|;
      RedactedHead(keys, marker, content, lo);
      var head, rest := Emit(keys, marker, content, lo), Redacted(keys, marker, content, lo + 1, |content|);
      if q >= |head| {
        OccursLater(head, rest, key, q, q - |head|);
        NoKeyFrom(keys, marker, content, lo + 1, key, q - |head|);
      } else {
        NoKeyAtHead(keys, marker, content, lo, key, q, head, rest);
      }
    }
  }

  lemma {:induction false} OccursLater(head: Bytes, rest: Bytes, key: Bytes, q: nat, p: nat)
    requires OccursAt(head + rest, key, q) && q == |head| + p
    ensures OccursAt(rest, key, p)
  {
    assert (head + rest)[q..q + |key|] == rest[p..p + |key|];
  }

  /** Neither a marker nor a byte that is copied begins a key. */
  lemma {:induction false} NoKeyAtHead(
    keys: set<Bytes>, marker: Bytes, content: Bytes, lo: nat, key: Bytes, q: nat, head: Bytes, rest: Bytes)
    requires [] !in keys && SafeMarker(keys, marker) && key in keys && lo < |content|
    requires head == Emit(keys, marker, content, lo) && q < |head|
    requires head + rest == Redacted(keys, marker, content, lo, |content|)
    ensures !OccursAt(head + rest, key, q)
  {
    if OccursAt(head + rest, key, q) {
      if Starts(keys, content, lo) {
        WindowFromMarker(marker, rest, key, q);
      } else {
        LiteralStretch(keys, marker, content, lo, key);
      }
    }
  }

  /** No key survives redaction, inside a copied stretch or across the edge of a marker. */
  lemma {:induction false} NoKeySurvives(keys: set<Bytes>, marker: Bytes, content: Bytes, key: Bytes)
    requires [] !in keys && SafeMarker(keys, marker) && key in keys
    ensures !Contains(OneShot(keys, marker, content), key)
  {
    forall p ensures !OccursAt(OneShot(keys, marker, content), key, p) {
      if 0 <= p {
        NoKeyFrom(keys, marker, content, 0, key, p);
      }
    }
  }

  /** No key survives in the joined outputs of a run, however the stream is cut. */
  lemma {:induction false} RunHidesKeys(
    keys: set<Bytes>, width: nat, marker: Bytes, chunks: seq<Bytes>, data: Bytes, fed: Step, last: Step, key: Bytes)
    requires [] !in keys && Fits(keys, width) && SafeMarker(keys, marker) && key in keys
    requires fed == Feed(keys, width, marker, chunks)
    requires last == Advance(keys, width, marker, fed.held.bytes + data, fed.held.covered, true)
    ensures !Contains(fed.output + last.output, key)
  {
    LastFeedJoins(keys, width, marker, chunks, data, fed, last);
    NoKeySurvives(keys, marker, Flatten(chunks) + data, key);
  }

  // ---- A flush in the middle

  /** No occurrence crosses a byte that no key contains. */
  lemma {:induction false} NoCrossing(first: Bytes, second: Bytes, key: Bytes, p: int)
    requires |second| > 0 && OccursAt(first + second, key, p)
    ensures p + |key| <= |first| || |first| <= p || second[0] in key
  {
    if p < |first| < p + |key| {
      assert key[|first| - p] == (first + second)[|first|];
    }
  }

  lemma {:induction false} EmitBeforeFlush(keys: set<Bytes>, marker: Bytes, first: Bytes, second: Bytes, j: nat)
    requires |second| > 0 && (forall key :: key in keys ==> second[0] !in key) && j < |first|
    ensures Emit(keys, marker, first, j) == Emit(keys, marker, first + second, j)
  {
    forall key, p | key in keys && p <= j
      ensures OccursAt(first, key, p) <==> OccursAt(first + second, key, p)
    {
      if OccursAt(first + second, key, p) {
        NoCrossing(first, second, key, p);
      }
      if p + |key| <= |first| {
        OccursInPrefix(first, second, key, p);
      }
    }
  }

  lemma {:induction false} EmitAfterFlush(keys: set<Bytes>, marker: Bytes, first: Bytes, second: Bytes, j: nat)
    requires |second| > 0 && (forall key :: key in keys ==> second[0] !in key) && j < |second|
    ensures Emit(keys, marker, second, j) == Emit(keys, marker, first + second, j + |first|)
  {
    StraddledAfterFlush(keys, first, second, j, j + |first|);
    StartsAfterFlush(keys, first, second, j, j + |first|);
    assert (first + second)[j + |first|] == second[j];
  }

  lemma {:induction false} OccursAfterFlush(first: Bytes, second: Bytes, key: Bytes, p: nat, q: nat)
    requires q == |first| + p
    ensures OccursAt(second, key, p) <==> OccursAt(first + second, key, q)
  {
    OccursInSuffix(first, |first|, second, key, p);
    assert first[|first|..] + second == second;
  }

  lemma {:induction false} StraddledAfterFlush(keys: set<Bytes>, first: Bytes, second: Bytes, j: nat, there: nat)
    requires |second| > 0 && (forall key :: key in keys ==> second[0] !in key) && there == j + |first|
    ensures Straddled(keys, second, j) <==> Straddled(keys, first + second, there)
  {
    if Straddled(keys, first + second, there) {
      var key, p :| key in keys && OccursAt(first + second, key, p) && p < there < p + |key|;
      if p < |first| {
        NoCrossing(first, second, key, p);
      }
      OccursAfterFlush(first, second, key, p - |first|, p);
      assert p - |first| < j < p - |first| + |key|;
    }
    if Straddled(keys, second, j) {
      var key, p :| key in keys && OccursAt(second, key, p) && p < j < p + |key|;
      OccursAfterFlush(first, second, key, p, |first| + p);
      assert |first| + p < there < |first| + p + |key|;
    }
  }

  lemma {:induction false} StartsAfterFlush(keys: set<Bytes>, first: Bytes, second: Bytes, j: nat, there: nat)
    requires there == j + |first|
    ensures Starts(keys, second, j) <==> Starts(keys, first + second, there)
  {
    forall key ensures OccursAt(second, key, j) <==> OccursAt(first + second, key, there) {
      OccursAfterFlush(first, second, key, j, there);
    }
  }

  lemma {:induction false} RedactedBeforeFlush(keys: set<Bytes>, marker: Bytes, first: Bytes, second: Bytes)
    requires |second| > 0 && forall key :: key in keys ==> second[0] !in key
    ensures OneShot(keys, marker, first) == Redacted(keys, marker, first + second, 0, |first|)
  {
    assert EmitAlike(keys, marker, first + second, first, 0, 0, |first|) by {
      forall j: nat | j < |first| ensures Emit(keys, marker, first, j) == Emit(keys, marker, first + second, j + 0) {
        EmitBeforeFlush(keys, marker, first, second, j);
      }
    }
    RedactedShift(keys, marker, first + second, first, 0, 0, |first|, 0, |first|);
  }

  lemma {:induction false} RedactedAfterFlush(keys: set<Bytes>, marker: Bytes, first: Bytes, second: Bytes)
    requires |second| > 0 && forall key :: key in keys ==> second[0] !in key
    ensures OneShot(keys, marker, second)
         == Redacted(keys, marker, first + second, |first|, |second| + |first|)
  {
    assert EmitAlike(keys, marker, first + second, second, |first|, 0, |second|) by {
      forall j: nat | j < |second|
        ensures Emit(keys, marker, second, j) == Emit(keys, marker, first + second, j + |first|)
      {
        EmitAfterFlush(keys, marker, first, second, j);
      }
    }
    RedactedShift(keys, marker, first + second, second, |first|, 0, |second|, |first|, |second| + |first|);
  }

  /** When the second text begins with a byte that no key contains, redacting the two texts apart or joined agrees. */
  lemma {:induction false} FlushJoins(keys: set<Bytes>, marker: Bytes, first: Bytes, second: Bytes)
    requires |second| > 0 && forall key :: key in keys ==> second[0] !in key
    ensures OneShot(keys, marker, first) + OneShot(keys, marker, second) == OneShot(keys, marker, first + second)
  {
    var whole, before, after := first + second, OneShot(keys, marker, first), OneShot(keys, marker, second);
    var lo, hi := |first|, |second| + |first|;
    assert hi == |whole|;
    RedactedBeforeFlush(keys, marker, first, second);
    RedactedAfterFlush(keys, marker, first, second);
    Joins(keys, marker, whole, before, after, lo, hi);
  }
}
