/** What redaction means, position by position and without any scanning order. */
module Redaction {
  import opened Bytes

  // An occurrence of a key is a window of the content. A boundary `j` (the place just before byte `j`) is straddled
  // when some occurrence contains bytes on both sides of it. Each byte then emits one of three things: nothing when
  // its boundary is straddled, the marker when an occurrence starts there, and itself otherwise.

  predicate OccursAt(content: Bytes, key: Bytes, p: int)
  {
    0 <= p && p + |key| <= |content| && content[p..p + |key|] == key
  }

  ghost function KeySet(keys: seq<Bytes>): set<Bytes>
  {
    set key | key in keys
  }

  ghost predicate Starts(keys: set<Bytes>, content: Bytes, j: int)
  {
    exists key {:trigger OccursAt(content, key, j)} :: key in keys && OccursAt(content, key, j)
  }

  ghost predicate Straddled(keys: set<Bytes>, content: Bytes, j: int)
  {
    exists key, p :: key in keys && OccursAt(content, key, p) && p < j < p + |key|
  }

  ghost function Emit(keys: set<Bytes>, marker: Bytes, content: Bytes, j: nat): Bytes
    requires j < |content|
  {
    if Straddled(keys, content, j) then []
    else if Starts(keys, content, j) then marker
    else [content[j]]
  }

  /** What the bytes of `content` from `lo` up to `hi` emit. */
  ghost function Redacted(keys: set<Bytes>, marker: Bytes, content: Bytes, lo: nat, hi: nat): Bytes
    requires hi <= |content|
    decreases hi
  {
    if hi <= lo then [] else Redacted(keys, marker, content, lo, hi - 1) + Emit(keys, marker, content, hi - 1)
  }

  /** The redaction of a whole text. */
  ghost function OneShot(keys: set<Bytes>, marker: Bytes, content: Bytes): Bytes
  {
    Redacted(keys, marker, content, 0, |content|)
  }

  lemma {:induction false} RedactedSplit(keys: set<Bytes>, marker: Bytes, content: Bytes, lo: nat, mid: nat, hi: nat)
    requires lo <= mid <= hi <= |content|
    ensures Redacted(keys, marker, content, lo, hi)
         == Redacted(keys, marker, content, lo, mid) + Redacted(keys, marker, content, mid, hi)
    decreases hi
  {
    if mid < hi {
      RedactedSplit(keys, marker, content, lo, mid, hi - 1);
    }
  }

  /** Straddled boundaries emit nothing. */
  lemma {:induction false} RedactedStraddled(keys: set<Bytes>, marker: Bytes, content: Bytes, lo: nat, hi: nat)
    requires lo <= hi <= |content|
    requires forall j :: lo <= j < hi ==> Straddled(keys, content, j)
    ensures Redacted(keys, marker, content, lo, hi) == []
    decreases hi
  {
    if lo < hi {
      RedactedStraddled(keys, marker, content, lo, hi - 1);
    }
  }

  /** Bytes outside every occurrence are copied in order. */
  lemma {:induction false} RedactedLiteral(keys: set<Bytes>, marker: Bytes, content: Bytes, lo: nat, hi: nat)
    requires lo <= hi <= |content|
    requires forall j :: lo <= j < hi ==> !Straddled(keys, content, j) && !Starts(keys, content, j)
    ensures Redacted(keys, marker, content, lo, hi) == content[lo..hi]
    decreases hi
  {
    if lo < hi {
      RedactedLiteral(keys, marker, content, lo, hi - 1);
      assert content[lo..hi] == content[lo..hi - 1] + [content[hi - 1]];
    }
  }

  /** A run of bytes that begins a span and stays inside it emits exactly one marker. */
  lemma {:induction false} RedactedSpan(keys: set<Bytes>, marker: Bytes, content: Bytes, lo: nat, hi: nat)
    requires lo < hi <= |content|
    requires !Straddled(keys, content, lo) && Starts(keys, content, lo)
    requires forall j :: lo < j < hi ==> Straddled(keys, content, j)
    ensures Redacted(keys, marker, content, lo, hi) == marker
  {
    var next := lo + 1;
    RedactedSplit(keys, marker, content, lo, next, hi);
    RedactedStraddled(keys, marker, content, next, hi);
    RedactedOne(keys, marker, content, lo, next);
    assert Emit(keys, marker, content, lo) == marker;
  }

  lemma {:induction false} RedactedOne(keys: set<Bytes>, marker: Bytes, content: Bytes, lo: nat, next: nat)
    requires next == lo + 1 <= |content|
    ensures Redacted(keys, marker, content, lo, next) == Emit(keys, marker, content, lo)
  {
    assert Redacted(keys, marker, content, lo, lo) == [];
  }

  /** The bytes of `part` from `lo` up to `hi` emit what they emit in `whole`, where they stand `shift` further. */
  ghost predicate EmitAlike(
    keys: set<Bytes>, marker: Bytes, whole: Bytes, part: Bytes, shift: nat, lo: nat, hi: nat)
    requires hi <= |part| && hi + shift <= |whole|
  {
    forall j: nat :: lo <= j < hi ==> EmitsSame(keys, marker, whole, part, shift, j)
  }

  ghost predicate EmitsSame(keys: set<Bytes>, marker: Bytes, whole: Bytes, part: Bytes, shift: nat, j: nat)
    requires j < |part| && j + shift < |whole|
  {
    Emit(keys, marker, part, j) == Emit(keys, marker, whole, j + shift)
  }

  lemma {:induction false} RedactedShift(
    keys: set<Bytes>, marker: Bytes, whole: Bytes, part: Bytes, shift: nat, lo: nat, hi: nat, from: nat, to: nat)
    requires lo <= hi <= |part| && from == lo + shift && to == hi + shift <= |whole|
    requires EmitAlike(keys, marker, whole, part, shift, lo, hi)
    ensures Redacted(keys, marker, part, lo, hi) == Redacted(keys, marker, whole, from, to)
    decreases hi
  {
    if lo < hi {
      LastAlike(keys, marker, whole, part, shift, lo, hi - 1, to - 1);
      RedactedShift(keys, marker, whole, part, shift, lo, hi - 1, from, to - 1);
      OneMoreAlike(keys, marker, part, lo, hi - 1, hi, whole, from, to - 1, to);
    }
  }

  lemma {:induction false} OneMoreAlike(
    keys: set<Bytes>, marker: Bytes, part: Bytes, lo: nat, last: nat, hi: nat, whole: Bytes, from: nat, there: nat, to: nat)
    requires lo <= last && hi == last + 1 <= |part| && from <= there && to == there + 1 <= |whole|
    requires Redacted(keys, marker, part, lo, last) == Redacted(keys, marker, whole, from, there)
    requires Emit(keys, marker, part, last) == Emit(keys, marker, whole, there)
    ensures Redacted(keys, marker, part, lo, hi) == Redacted(keys, marker, whole, from, to)
  {
    RedactedLast(keys, marker, part, lo, last, hi);
    RedactedLast(keys, marker, whole, from, there, to);
  }

  lemma {:induction false} RedactedLast(keys: set<Bytes>, marker: Bytes, content: Bytes, lo: nat, last: nat, hi: nat)
    requires lo <= last && hi == last + 1 <= |content|
    ensures Redacted(keys, marker, content, lo, hi)
         == Redacted(keys, marker, content, lo, last) + Emit(keys, marker, content, last)
  {
  }

  lemma {:induction false} LastAlike(
    keys: set<Bytes>, marker: Bytes, whole: Bytes, part: Bytes, shift: nat, lo: nat, last: nat, there: nat)
    requires lo <= last < |part| && there == last + shift < |whole|
    requires EmitAlike(keys, marker, whole, part, shift, lo, last + 1)
    ensures Emit(keys, marker, part, last) == Emit(keys, marker, whole, there)
    ensures EmitAlike(keys, marker, whole, part, shift, lo, last)
  {
    assert EmitsSame(keys, marker, whole, part, shift, last);
  }
}
