/**
 Scanning left to right for keys, as both redactors do, arrives at the closed-form step.

 A scan has published everything up to a cursor that no occurrence straddles, and knows the span that ends there, if
 one does. A round skips to the next occurrence, writes what lies between and the marker, and goes to the end of the
 span; the scan stops when the next occurrence begins in the unsafe tail.

 The facts here are about one stage of such a scan and are shared by the two implementations.
 */
module RedactionScan {
  import opened Bytes
  import opened Options
  import opened Redaction
  import opened RedactionStream
  import opened Integers

  /** No key starts from `lo` up to `hi`. */
  ghost predicate NoStart(keys: set<Bytes>, content: Bytes, lo: int, hi: int)
  {
    forall p :: lo <= p < hi ==> !Starts(keys, content, p)
  }

  /** One span: a key starts at the unstraddled `lo`, and every boundary inside is straddled. */
  ghost predicate IsSpan(keys: set<Bytes>, content: Bytes, lo: int, hi: int)
  {
    && 0 <= lo < hi <= |content|
    && !Straddled(keys, content, lo) && Starts(keys, content, lo)
    && forall j :: lo < j < hi ==> Straddled(keys, content, j)
  }

  /** `stop` is where a span known to reach from `start` to `end` ends, counting only keys from `start` on. */
  ghost predicate EndsSpan(keys: set<Bytes>, content: Bytes, start: int, end: int, stop: int)
  {
    && end <= stop <= |content|
    && (forall j :: end <= j < stop ==> Straddled(keys, content, j))
    && (forall key, p :: key in keys && OccursAt(content, key, p) && start <= p < stop ==> p + |key| <= stop)
  }

  /** The state of a scan between two spans. */
  ghost predicate Scanning(
    keys: set<Bytes>, content: Bytes, covered: nat, safe: nat, cursor: nat, span: Option<nat>)
    requires covered <= |content|
  {
    && Boundary(keys, content, covered) <= cursor <= |content|
    && !Straddled(keys, content, cursor)
    && (forall j :: Max(safe, covered) <= j < cursor ==> Straddled(keys, content, j))
    && if cursor == Boundary(keys, content, covered) then span == if covered > 0 then Some(0) else None
       else span.Some? && Boundary(keys, content, covered) <= span.value && IsSpan(keys, content, span.value, cursor)
  }

  /** A scan begins where the published span ends. */
  lemma {:induction false} ScanBegins(
    keys: set<Bytes>, marker: Bytes, content: Bytes, covered: nat, safe: nat, cursor: nat)
    requires covered <= |content|
    requires if covered > 0 then EndsSpan(keys, content, 0, covered, cursor) else cursor == 0
    ensures Scanning(keys, content, covered, safe, cursor, if covered > 0 then Some(0) else None)
    ensures Redacted(keys, marker, content, covered, cursor) == []
  {
    if covered > 0 {
      assert !Straddled(keys, content, cursor);
    }
    assert cursor == Boundary(keys, content, covered);
    RedactedStraddled(keys, marker, content, covered, cursor);
  }

  /** Before the next key everything is copied. */
  lemma {:induction false} GapIsLiteral(
    keys: set<Bytes>, marker: Bytes, content: Bytes, cursor: nat, position: nat)
    requires cursor <= position <= |content|
    requires !Straddled(keys, content, cursor) && NoStart(keys, content, cursor, position)
    ensures !Straddled(keys, content, position)
    ensures Redacted(keys, marker, content, cursor, position) == content[cursor..position]
  {
    forall j | cursor <= j <= position ensures !Straddled(keys, content, j) {
      if Straddled(keys, content, j) {
        var key, p :| key in keys && OccursAt(content, key, p) && p < j < p + |key|;
        if cursor <= p {
          assert Starts(keys, content, p);
        }
      }
    }
    RedactedLiteral(keys, marker, content, cursor, position);
  }

  /** One round: copy up to the next key, publish one marker, continue after the span. */
  lemma {:induction false} ScanRound(
    keys: set<Bytes>, marker: Bytes, content: Bytes, covered: nat, safe: nat, cursor: nat, span: Option<nat>,
    position: nat, key: Bytes, stop: nat, output: Bytes)
    requires covered <= |content| && Scanning(keys, content, covered, safe, cursor, span)
    requires output == Redacted(keys, marker, content, covered, cursor)
    requires cursor <= position < safe && NoStart(keys, content, cursor, position)
    requires key in keys && |key| > 0 && OccursAt(content, key, position)
    requires EndsSpan(keys, content, position, position + |key|, stop)
    ensures position < stop && Scanning(keys, content, covered, safe, stop, Some(position))
    ensures output + content[cursor..position] + marker == Redacted(keys, marker, content, covered, stop)
  {
    GapIsLiteral(keys, marker, content, cursor, position);
    assert Starts(keys, content, position);
    forall j | position < j < stop ensures Straddled(keys, content, j) {
      if j < position + |key| {
        assert OccursAt(content, key, position);
      }
    }
    assert !Straddled(keys, content, stop);
    assert IsSpan(keys, content, position, stop);
    RedactedSpan(keys, marker, content, position, stop);
    RedactedSplit(keys, marker, content, covered, cursor, position);
    RedactedSplit(keys, marker, content, covered, position, stop);
  }

  /** The end of a scan: the cursor and the span it leaves are those of the closed form. */
  lemma {:induction false} ScanStops(
    keys: set<Bytes>, content: Bytes, covered: nat, final: bool, cursor: nat, span: Option<nat>)
    requires covered <= |content|
    requires var safe := Safe(keys, content, final);
             && Scanning(keys, content, covered, safe, cursor, span)
             && NoStart(keys, content, cursor, safe)
    ensures var safe := Safe(keys, content, final);
            var reach := if safe > cursor then safe else cursor;
            && reach == Reach(keys, content, covered, final)
            && LastSpan(keys, content, covered, reach) == if safe > cursor then None else span
  {
    var safe := Safe(keys, content, final);
    if safe > cursor {
      GapIsLiteral(keys, [], content, cursor, safe);
      GapIsLiteral(keys, [], content, cursor, safe - 1);
      assert BoundaryBefore(keys, content, safe - 1) == safe - 1;
    } else if cursor > Boundary(keys, content, covered) {
      assert BoundaryBefore(keys, content, cursor - 1) == span.value;
    }
  }

  lemma {:induction false} ScanEnds(
    keys: set<Bytes>, marker: Bytes, content: Bytes, covered: nat, final: bool, cursor: nat, span: Option<nat>,
    output: Bytes)
    requires covered <= |content|
    requires var safe := Safe(keys, content, final);
             && Scanning(keys, content, covered, safe, cursor, span)
             && NoStart(keys, content, cursor, safe)
    requires output == Redacted(keys, marker, content, covered, cursor)
    ensures var safe := Safe(keys, content, final);
            var reach := if safe > cursor then safe else cursor;
            && reach == Reach(keys, content, covered, final)
            && output + content[cursor..reach] == Redacted(keys, marker, content, covered, reach)
            && LastSpan(keys, content, covered, reach) == if safe > cursor then None else span
  {
    var safe := Safe(keys, content, final);
    ScanStops(keys, content, covered, final, cursor, span);
    if safe > cursor {
      GapIsLiteral(keys, marker, content, cursor, safe);
      RedactedSplit(keys, marker, content, covered, cursor, safe);
    }
  }
}
