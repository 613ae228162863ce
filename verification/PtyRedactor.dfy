/** The redactor of scripts/attended-pty.py: an object that keeps a tail between reads and scans with loops. */
module PtyRedactor {
  import opened Bytes
  import opened Options
  import opened Redaction
  import opened RedactionStream
  import opened RedactionScan
  import opened RedactionGuarantees
  import opened Integers
  import opened Characters

  // ---- Choosing the marker

  function Worded(left: Byte, right: Byte): (r: Bytes)
    ensures |r| == 10
  {
    [left, 82, 69, 68, 65, 67, 84, 69, 68, right]
  }

  /** [REDACTED], <REDACTED>, {REDACTED} and ~REDACTED~. */
  const MARKERS: seq<Bytes> := [Worded(91, 93), Worded(60, 62), Worded(123, 125), Worded(126, 126)]

  /** The single bytes from `lo` up to and including `hi`. */
  function Singles(lo: nat, hi: nat): (r: seq<Bytes>)
    requires hi < 256
    ensures |r| == if lo <= hi then hi + 1 - lo else 0
    ensures forall i :: 0 <= i < |r| ==> r[i] == [lo + i]
    decreases hi - lo + 1
  {
    if lo > hi then [] else [[lo]] + Singles(lo + 1, hi)
  }

  /** The four words, then each printable single byte, then NUL. */
  const CANDIDATES: seq<Bytes> := MARKERS + Singles(33, 126) + [[0]]

  predicate Usable(keys: seq<Bytes>, marker: Bytes)
    requires |marker| > 0
  {
    forall key | key in keys ::
      !(exists p | 0 <= p <= |marker| :: OccursAt(marker, key, p)) &&
      marker[0] !in key && marker[|marker| - 1] !in key
  }

  lemma UsableIsSafe(keys: seq<Bytes>, marker: Bytes)
    requires |marker| > 0
    ensures Usable(keys, marker) <==> SafeMarker(KeySet(keys), marker)
  {
    forall key ensures Contains(marker, key) <==> exists p | 0 <= p <= |marker| :: OccursAt(marker, key, p) {
    }
  }

  /** The first candidate that is safe for these keys; the credentials are refused exactly when there is none. */
  method ReplacementFor(keys: seq<Bytes>, candidates: seq<Bytes>) returns (r: Option<Bytes>)
    requires [] !in candidates
    ensures match r
            case Some(marker) => IsFirstSafe(KeySet(keys), candidates, marker)
            case None => NoneSafe(KeySet(keys), candidates)
  {
    for i := 0 to |candidates|
      invariant NoneSafe(KeySet(keys), candidates[..i])
    {
      UsableIsSafe(keys, candidates[i]);
      if Usable(keys, candidates[i]) {
        return Some(candidates[i]);
      }
      assert candidates[..i + 1] == candidates[..i] + [candidates[i]];
    }
    assert candidates[..|candidates|] == candidates;
    return None;
  }

  /** NUL is the last candidate, so keys that are nonempty and free of NUL are never refused. */
  lemma MarkerExists(keys: seq<Bytes>)
    requires forall key :: key in keys ==> |key| > 0 && 0 !in key
    ensures !NoneSafe(KeySet(keys), CANDIDATES)
  {
    NulIsSafe(KeySet(keys));
    assert CANDIDATES[|CANDIDATES| - 1] == [0];
  }

  /** The word between two edges. */
  function Marked(left: char, right: char): seq<int>
  {
    Ascii([left]) + Ascii("REDACTED") + Ascii([right])
  }

  lemma {:induction false} WordIs(word: Bytes)
    requires word == [82, 69, 68, 65, 67, 84, 69, 68]
    ensures Ascii("REDACTED") == word
  {
    AsciiIs("REDACTED", word);
  }

  lemma {:induction false} WordedIs(left: Byte, right: Byte, word: Bytes)
    requires word == [82, 69, 68, 65, 67, 84, 69, 68]
    ensures Worded(left, right) == [left] + word + [right]
  {
  }

  lemma {:induction false} MarkedIs(left: char, right: char)
    requires left as int < 128 && right as int < 128
    ensures Worded(left as int, right as int) == Marked(left, right)
  {
    var word := [82, 69, 68, 65, 67, 84, 69, 68];
    WordIs(word);
    WordedIs(left as int, right as int, word);
    AsciiIs([left], [left as int]);
    AsciiIs([right], [right as int]);
  }

  lemma {:induction false} MarkersAre(markers: seq<Bytes>)
    requires markers == MARKERS
    ensures |markers| == 4 && markers[0] == Marked('[', ']') && markers[1] == Marked('<', '>')
    ensures markers[2] == Marked('{', '}') && markers[3] == Marked('~', '~')
  {
    MarkedIs('[', ']');
    MarkedIs('<', '>');
    MarkedIs('{', '}');
    MarkedIs('~', '~');
  }

  lemma {:induction false} PlacesAre<T>(markers: seq<T>, singles: seq<T>, last: T, all: seq<T>)
    requires |markers| == 4 && |singles| == 94 && all == markers + singles + [last]
    ensures |all| == 99 && all[98] == last && all[..4] == markers && all[4..98] == singles
    ensures forall i :: 0 <= i < 4 ==> all[i] == markers[i]
    ensures forall i :: 4 <= i < 98 ==> all[i] == singles[i - 4]
  {
  }

  /** The candidates, in the order in which they are tried. */
  lemma {:induction false} CandidatesAre(all: seq<Bytes>)
    requires all == CANDIDATES
    ensures |all| == 99 && all[98] == [0]
    ensures all[0] == Marked('[', ']') && all[1] == Marked('<', '>')
    ensures all[2] == Marked('{', '}') && all[3] == Marked('~', '~')
    ensures forall i :: 4 <= i < 98 ==> all[i] == [i + 29]
  {
    MarkersAre(MARKERS);
    PlacesAre(MARKERS, Singles(33, 126), [0], all);
  }

  /** Keys that share no byte with the first candidate are replaced by it. */
  lemma {:induction false} UsualMarker(keys: set<Bytes>, marker: Bytes, chosen: Bytes)
    requires marker == Marked('[', ']') && IsFirstSafe(keys, CANDIDATES, chosen)
    requires forall key :: key in keys ==> key != [] && forall i :: 0 <= i < |key| ==> key[i] !in marker
    ensures chosen == marker
  {
    CandidatesAre(CANDIDATES);
    ForeignIsSafe(keys, marker);
    FirstIsFirst(keys, CANDIDATES, marker);
    FirstSafeIsUnique(keys, CANDIDATES, marker, chosen);
  }

  lemma {:induction false} ForeignIsSafe(keys: set<Bytes>, marker: Bytes)
    requires |marker| > 0
    requires forall key :: key in keys ==> key != [] && forall i :: 0 <= i < |key| ==> key[i] !in marker
    ensures SafeMarker(keys, marker)
  {
    forall key, p | key in keys ensures !OccursAt(marker, key, p) {
      if OccursAt(marker, key, p) {
        OccurrenceBegins(marker, key, p);
      }
    }
  }

  lemma {:induction false} FirstIsFirst(keys: set<Bytes>, candidates: seq<Bytes>, marker: Bytes)
    requires |candidates| > 0 && candidates[0] == marker && SafeMarker(keys, marker)
    ensures IsFirstSafe(keys, candidates, marker)
  {
    assert NoneSafe(keys, candidates[..0]);
  }

  // ---- Ordering the keys

  function InsertByLength(key: Bytes, keys: seq<Bytes>): (r: seq<Bytes>)
  {
    if keys == [] || |key| > |keys[0]| then [key] + keys else [keys[0]] + InsertByLength(key, keys[1..])
  }

  /** The nonempty keys, longest first. */
  function Ordered(keys: seq<Bytes>): (r: seq<Bytes>)
  {
    if keys == [] then []
    else if keys[|keys| - 1] == [] then Ordered(keys[..|keys| - 1])
    else InsertByLength(keys[|keys| - 1], Ordered(keys[..|keys| - 1]))
  }

  ghost predicate LongestFirst(keys: seq<Bytes>)
  {
    forall i, j :: 0 <= i < j < |keys| ==> |keys[i]| >= |keys[j]|
  }

  lemma {:induction false} InsertKeeps(key: Bytes, keys: seq<Bytes>)
    ensures KeySet(InsertByLength(key, keys)) == KeySet(keys) + {key}
    ensures LongestFirst(keys) ==> LongestFirst(InsertByLength(key, keys))
  {
    if keys == [] || |key| > |keys[0]| {
      var r := [key] + keys;
      assert forall k :: k in r <==> k == key || k in keys;
    } else {
      var rest, r := InsertByLength(key, keys[1..]), InsertByLength(key, keys);
      InsertKeeps(key, keys[1..]);
      assert forall k :: k in KeySet(r) <==> k == keys[0] || k in KeySet(rest);
      assert forall k :: k in keys <==> k == keys[0] || k in keys[1..];
      if LongestFirst(keys) {
        forall i | 0 <= i < |rest| ensures |keys[0]| >= |rest[i]| {
          assert rest[i] in KeySet(rest);
        }
      }
    }
  }

  /** Ordering drops the empty keys and nothing else, and puts the longest first. */
  lemma {:induction false} OrderedKeeps(keys: seq<Bytes>)
    ensures KeySet(Ordered(keys)) == KeySet(keys) - {[]}
    ensures LongestFirst(Ordered(keys))
  {
    if keys != [] {
      var n := |keys| - 1;
      assert forall k :: k in keys <==> k == keys[n] || k in keys[..n];
      OrderedKeeps(keys[..n]);
      InsertKeeps(keys[n], Ordered(keys[..n]));
    }
  }

  /** The length of the longest key, and 1 without keys. */
  function Width(keys: seq<Bytes>): (r: nat)
  {
    if keys == [] then 1
    else if |keys| == 1 || |keys[0]| > Width(keys[1..]) then |keys[0]|
    else Width(keys[1..])
  }

  lemma {:induction false} WidthFits(keys: seq<Bytes>)
    requires [] !in keys
    ensures Width(keys) > 0 && Fits(KeySet(keys), Width(keys))
    ensures keys != [] ==> exists key :: key in keys && |key| == Width(keys)
  {
    if keys != [] {
      assert forall k :: k in keys <==> k == keys[0] || k in keys[1..];
      WidthFits(keys[1..]);
    }
  }

  /** `bytes.find`: the first place at or after `from` where the key occurs. */
  function Find(content: Bytes, key: Bytes, from: nat): (r: Option<nat>)
    requires from <= |content|
    ensures r.None? ==> forall p :: from <= p ==> !OccursAt(content, key, p)
    ensures r.Some? ==> from <= r.value && OccursAt(content, key, r.value)
    ensures r.Some? ==> forall p :: from <= p < r.value ==> !OccursAt(content, key, p)
    decreases |content| - from
  {
    if OccursAt(content, key, from) then Some(from)
    else if from == |content| then None
    else Find(content, key, from + 1)
  }

  class Redactor {
    const keys: seq<Bytes>
    const width: nat
    const replacement: Bytes
    var pending: Bytes
    var covered: nat

    ghost predicate Valid()
      reads this
    {
      && [] !in keys && width == Width(keys) && SafeMarker(KeySet(keys), replacement)
      && covered <= |pending|
    }

    constructor (raw: seq<Bytes>, marker: Bytes)
      requires SafeMarker(KeySet(Ordered(raw)), marker)
      ensures Valid() && pending == [] && covered == 0
      ensures keys == Ordered(raw) && replacement == marker
    {
      OrderedKeeps(raw);
      assert [] !in KeySet(Ordered(raw));
      keys := Ordered(raw);
      width := Width(Ordered(raw));
      replacement := marker;
      pending := [];
      covered := 0;
    }

    /** Building a redactor fails exactly when no candidate marker is safe. */
    static method Open(raw: seq<Bytes>) returns (r: Redactor?)
      ensures r == null <==> NoneSafe(KeySet(Ordered(raw)), CANDIDATES)
      ensures r != null ==> fresh(r) && r.Valid() && r.pending == [] && r.covered == 0
      ensures r != null ==> r.keys == Ordered(raw) && IsFirstSafe(KeySet(r.keys), CANDIDATES, r.replacement)
    {
      var marker := ReplacementFor(Ordered(raw), CANDIDATES);
      if marker.None? { return null; }
      r := new Redactor(raw, marker.value);
    }

    /**
     Publishes what of the held bytes and the data can be published, and keeps the rest: exactly the closed-form
     step, whose meaning over whole runs is proved from its definition.
     */
    method Feed(data: Bytes, final: bool) returns (output: Bytes)
      requires Valid()
      modifies this`pending, this`covered
      ensures Valid()
      ensures Step(output, Held(pending, covered))
           == Advance(KeySet(keys), width, replacement, old(pending) + data, old(covered), final)
    {
      var content := pending + data;
      var safe := |content|;
      if !final { safe := HoldStart(content); }
      var cursor, span;
      output, cursor, span := Scan(content, covered, safe, final);
      var keep := if span == None || final then cursor else Min(cursor, Max(span.value, |content| - width + 1));
      assert keep == Keep(width, content, cursor, span, final);
      pending := content[keep..];
      covered := cursor - keep;
    }

    /** The scanning loop of a step. */
    method Scan(content: Bytes, from: nat, safe: nat, ghost final: bool)
      returns (output: Bytes, cursor: nat, span: Option<nat>)
      requires Valid() && from <= |content| && safe == Safe(KeySet(keys), content, final)
      ensures cursor == Reach(KeySet(keys), content, from, final)
      ensures span == LastSpan(KeySet(keys), content, from, cursor)
      ensures output == Redacted(KeySet(keys), replacement, content, from, cursor)
    {
      ghost var K := KeySet(keys);
      cursor, span, output := 0, None, [];
      if from > 0 {
        cursor := SpanEnd(content, 0, from);
        span := Some(0);
      }
      ScanBegins(K, replacement, content, from, safe, cursor);
      while true
        invariant Scanning(K, content, from, safe, cursor, span)
        invariant output == Redacted(K, replacement, content, from, cursor)
        decreases |content| - cursor
      {
        var next := Earliest(content, cursor);
        if next.None? || next.value.0 >= safe {
          ScanEnds(K, replacement, content, from, final, cursor, span, output);
          if safe > cursor {
            output := output + content[cursor..safe];
            cursor, span := safe, None;
          }
          return;
        }
        var (position, key) := next.value;
        var stop := SpanEnd(content, position, position + |key|);
        ScanRound(K, replacement, content, from, safe, cursor, span, position, key, stop, output);
        output := output + content[cursor..position];
        output := output + replacement;
        span := Some(position);
        cursor := stop;
      }
    }

    /** The next key at or after the cursor: leftmost, and the longest of those that start there. */
    method Earliest(content: Bytes, cursor: nat) returns (r: Option<(nat, Bytes)>)
      requires cursor <= |content|
      ensures r.None? ==> NoStart(KeySet(keys), content, cursor, |content| + 1)
      ensures r.Some? ==>
                && r.value.1 in keys && cursor <= r.value.0 && OccursAt(content, r.value.1, r.value.0)
                && NoStart(KeySet(keys), content, cursor, r.value.0)
                && forall key :: key in keys && OccursAt(content, key, r.value.0) ==> |key| <= |r.value.1|
    {
      r := None;
      for i := 0 to |keys|
        invariant r.None? ==> forall key, p :: key in keys[..i] && cursor <= p ==> !OccursAt(content, key, p)
        invariant r.Some? ==>
                    && r.value.1 in keys && cursor <= r.value.0 && OccursAt(content, r.value.1, r.value.0)
                    && (forall key, p :: key in keys[..i] && cursor <= p < r.value.0 ==> !OccursAt(content, key, p))
                    && forall key :: key in keys[..i] && OccursAt(content, key, r.value.0) ==> |key| <= |r.value.1|
      {
        var at := Find(content, keys[i], cursor);
        assert keys[..i + 1] == keys[..i] + [keys[i]];
        if at.Some? && (r.None? || at.value < r.value.0 || (at.value == r.value.0 && |keys[i]| > |r.value.1|)) {
          r := Some((at.value, keys[i]));
        }
      }
      assert keys[..|keys|] == keys;
    }

    /** Extends a span over every key that starts inside it. */
    method SpanEnd(content: Bytes, start: nat, end: nat) returns (stop: nat)
      requires start <= end <= |content|
      ensures EndsSpan(KeySet(keys), content, start, end, stop)
    {
      stop := end;
      var position := start;
      while position < stop
        invariant start <= position <= stop && end <= stop <= |content|
        invariant forall j :: end <= j < stop ==> Straddled(KeySet(keys), content, j)
        invariant forall key, p ::
                    key in KeySet(keys) && OccursAt(content, key, p) && start <= p < position ==> p + |key| <= stop
        decreases |content| - position
      {
        stop := Stretch(content, position, stop);
        position := position + 1;
      }
    }

    /** The keys that start at one position inside a span. */
    method Stretch(content: Bytes, position: nat, end: nat) returns (stop: nat)
      requires position < end <= |content|
      ensures end <= stop <= |content|
      ensures forall j :: end <= j < stop ==> Straddled(KeySet(keys), content, j)
      ensures forall key :: key in KeySet(keys) && OccursAt(content, key, position) ==> position + |key| <= stop
    {
      stop := end;
      for i := 0 to |keys|
        invariant end <= stop <= |content|
        invariant stop == end || exists key {:trigger OccursAt(content, key, position)} ::
                    key in KeySet(keys) && OccursAt(content, key, position) && stop == position + |key|
        invariant forall k :: 0 <= k < i && OccursAt(content, keys[k], position) ==> position + |keys[k]| <= stop
      {
        if OccursAt(content, keys[i], position) && stop < position + |keys[i]| {
          stop := position + |keys[i]|;
        }
      }
      if stop > end {
        ghost var key :| key in KeySet(keys) && OccursAt(content, key, position) && stop == position + |key|;
        assert forall j :: end <= j < stop ==> Straddled(KeySet(keys), content, j);
      }
    }

    /** The first position whose tail could still grow into a key; only the last `width - 1` need looking at. */
    method HoldStart(content: Bytes) returns (r: nat)
      requires Valid()
      ensures r == HoldFrom(KeySet(keys), content, 0)
    {
      WidthFits(keys);
      var from := Max(0, |content| - width + 1);
      assert forall p :: 0 <= p < from ==> !CanBegin(KeySet(keys), content, p);
      for position := from to |content|
        invariant forall p :: 0 <= p < position ==> !CanBegin(KeySet(keys), content, p)
      {
        var tail := content[position..];
        if exists key | key in keys :: |key| > |tail| && tail <= key {
          assert CanBegin(KeySet(keys), content, position) by {
            var key :| key in keys && |key| > |tail| && tail <= key;
            assert key in KeySet(keys) && content[position..] < key;
          }
          return position;
        }
      }
      return |content|;
    }

    /** Redacting a whole input read in chunks gives the redaction of the input, and no key is in it. */
    method RedactAll(chunks: seq<Bytes>) returns (output: Bytes)
      requires Valid() && pending == [] && covered == 0
      modifies this`pending, this`covered
      ensures Valid() && pending == [] && covered == 0
      ensures output == OneShot(KeySet(keys), replacement, Flatten(chunks))
      ensures forall key :: key in keys ==> !Contains(output, key)
    {
      output := [];
      for i := 0 to |chunks|
        invariant Valid()
        invariant Step(output, Held(pending, covered)) == RedactionStream.Feed(KeySet(keys), width, replacement, chunks[..i])
      {
        var out := Feed(chunks[i], false);
        assert chunks[..i + 1][..i] == chunks[..i];
        output := output + out;
      }
      assert chunks[..|chunks|] == chunks;
      assert pending + [] == pending;
      var rest := Feed([], true);
      output := output + rest;
      WidthFits(keys);
      ChunkIndependence(KeySet(keys), width, replacement, chunks);
      forall key | key in keys ensures !Contains(output, key) {
        NoKeySurvives(KeySet(keys), replacement, Flatten(chunks), key);
      }
    }
  }
}
