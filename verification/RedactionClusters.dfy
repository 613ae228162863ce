/**
 The spans of the positionwise definition are the clusters of overlapping occurrences: two occurrences fall in
 one span exactly when a chain of occurrences, each sharing a byte with the next, connects them.
 */
module RedactionClusters {
  import opened Bytes
  import opened Redaction

  datatype Occurrence = Occurrence(p: nat, e: nat)

  ghost predicate IsOccurrence(keys: set<Bytes>, content: Bytes, o: Occurrence)
  {
    exists key {:trigger OccursAt(content, key, o.p)} :: key in keys && OccursAt(content, key, o.p) && o.e == o.p + |key|
  }

  /** The two windows have a byte in common; windows that merely touch do not overlap. */
  predicate Overlap(a: Occurrence, b: Occurrence)
  {
    a.p < b.e && b.p < a.e
  }

  ghost predicate IsChain(keys: set<Bytes>, content: Bytes, chain: seq<Occurrence>)
  {
    && (forall i :: 0 <= i < |chain| ==> IsOccurrence(keys, content, chain[i]))
    && (forall i :: 0 < i < |chain| ==> Overlap(chain[i - 1], chain[i]))
  }

  ghost predicate Linked(keys: set<Bytes>, content: Bytes, a: Occurrence, b: Occurrence)
  {
    exists chain {:trigger IsChain(keys, content, chain)} :: |chain| > 0 && chain[0] == a && chain[|chain| - 1] == b && IsChain(keys, content, chain)
  }

  /** No boundary after the start of `a` up to the start of `b` separates the two. */
  ghost predicate SameSpan(keys: set<Bytes>, content: Bytes, a: Occurrence, b: Occurrence)
  {
    && (forall j :: a.p < j <= b.p ==> Straddled(keys, content, j))
    && (forall j :: b.p < j <= a.p ==> Straddled(keys, content, j))
  }

  /** A chain cannot cross a boundary that no occurrence straddles. */
  lemma {:induction false} ChainStaysInSpan(keys: set<Bytes>, content: Bytes, chain: seq<Occurrence>, j: int)
    requires |chain| > 0 && IsChain(keys, content, chain)
    requires !Straddled(keys, content, j)
    ensures chain[0].p < j <==> chain[|chain| - 1].p < j
  {
    if |chain| > 1 {
      var front := chain[..|chain| - 1];
      ChainStaysInSpan(keys, content, front, j);
      var a, b := chain[|chain| - 2], chain[|chain| - 1];
      assert IsOccurrence(keys, content, a) && IsOccurrence(keys, content, b);
      assert Overlap(chain[|chain| - 2], chain[|chain| - 1]);
    }
  }

  /** Inside one span a chain can be built rightwards, each step reaching further. */
  lemma {:induction false} BuildChain(keys: set<Bytes>, content: Bytes, a: Occurrence, b: Occurrence)
    returns (chain: seq<Occurrence>)
    requires [] !in keys
    requires IsOccurrence(keys, content, a) && IsOccurrence(keys, content, b)
    requires a.p <= b.p
    requires forall j :: a.p < j <= b.p ==> Straddled(keys, content, j)
    ensures |chain| > 0 && chain[0] == a && chain[|chain| - 1] == b && IsChain(keys, content, chain)
    decreases |content| - a.e
  {
    if b.p < a.e {
      chain := [a, b];
    } else {
      assert Straddled(keys, content, a.e);
      var key, p :| key in keys && OccursAt(content, key, p) && p < a.e < p + |key|;
      var next := Occurrence(p, p + |key|);
      assert IsOccurrence(keys, content, next);
      forall j | next.p < j <= b.p ensures Straddled(keys, content, j) {
        if j < next.e {
          assert OccursAt(content, key, p) && p < j < p + |key|;
        }
      }
      var rest := BuildChain(keys, content, next, b);
      chain := [a] + rest;
    }
  }

  lemma {:induction false} ReverseChain(keys: set<Bytes>, content: Bytes, chain: seq<Occurrence>)
    returns (back: seq<Occurrence>)
    requires |chain| > 0 && IsChain(keys, content, chain)
    ensures |back| == |chain| && back[0] == chain[|chain| - 1] && back[|back| - 1] == chain[0]
    ensures IsChain(keys, content, back)
  {
    if |chain| == 1 {
      back := chain;
    } else {
      var rest := ReverseChain(keys, content, chain[1..]);
      assert Overlap(chain[0], chain[1]);
      back := rest + [chain[0]];
    }
  }

  lemma {:induction false} OverlapLinks(keys: set<Bytes>, content: Bytes, a: Occurrence, b: Occurrence)
    requires IsOccurrence(keys, content, a) && IsOccurrence(keys, content, b) && Overlap(a, b)
    ensures Linked(keys, content, a, b)
  {
    var chain := [a, b];
    assert IsChain(keys, content, chain) && chain[0] == a && chain[|chain| - 1] == b;
  }

  /** Spans are exactly the classes of occurrences linked by shared bytes. */
  lemma {:induction false} SpansAreClusters(keys: set<Bytes>, content: Bytes, a: Occurrence, b: Occurrence)
    requires [] !in keys
    requires IsOccurrence(keys, content, a) && IsOccurrence(keys, content, b)
    ensures SameSpan(keys, content, a, b) <==> Linked(keys, content, a, b)
  {
    if SameSpan(keys, content, a, b) {
      if a.p <= b.p {
        var chain := BuildChain(keys, content, a, b);
      } else {
        var chain := BuildChain(keys, content, b, a);
        var back := ReverseChain(keys, content, chain);
      }
    }
    if Linked(keys, content, a, b) {
      var chain :| |chain| > 0 && chain[0] == a && chain[|chain| - 1] == b && IsChain(keys, content, chain);
      forall j | (a.p < j <= b.p || b.p < j <= a.p) ensures Straddled(keys, content, j) {
        if !Straddled(keys, content, j) {
          ChainStaysInSpan(keys, content, chain, j);
        }
      }
    }
  }

  /**
   One marker per cluster: a byte emits the marker (and not itself, and not nothing) exactly when it is the first
   byte of the earliest occurrence of a cluster.
   */
  lemma {:induction false} MarkerPerCluster(keys: set<Bytes>, content: Bytes, j: nat)
    requires [] !in keys
    ensures (Starts(keys, content, j) && !Straddled(keys, content, j)) <==>
            exists a :: IsOccurrence(keys, content, a) && a.p == j
                     && forall b :: Linked(keys, content, a, b) ==> j <= b.p
  {
    if Starts(keys, content, j) && !Straddled(keys, content, j) {
      var key :| key in keys && OccursAt(content, key, j);
      var a := Occurrence(j, j + |key|);
      assert IsOccurrence(keys, content, a);
      forall b | Linked(keys, content, a, b) ensures j <= b.p {
        var chain :| |chain| > 0 && chain[0] == a && chain[|chain| - 1] == b && IsChain(keys, content, chain);
        ChainStaysInSpan(keys, content, chain, j);
      }
    }
    if a :| IsOccurrence(keys, content, a) && a.p == j && forall b :: Linked(keys, content, a, b) ==> j <= b.p {
      if Straddled(keys, content, j) {
        var key, p :| key in keys && OccursAt(content, key, p) && p < j < p + |key|;
        var b := Occurrence(p, p + |key|);
        assert IsOccurrence(keys, content, b);
        OverlapLinks(keys, content, a, b);
      }
    }
  }
}
