/**
 scripts/json-field.awk itself: the input cut at quotes into records, and the variables that each record changes.
 Every record does what the automaton does on the record and the quote after it.
 */
module FieldReader {
  import opened Bytes
  import opened Options
  import opened Lines
  import opened FieldDecode
  import opened FieldEmit
  import opened FieldAgreement
  import opened FieldScan
  import opened Sequences

  /** Count the backslashes from the end. */
  method OddBackslashes(text: Bytes) returns (odd: bool)
    ensures odd == Odd(text)
  {
    var run, i := 0, |text|;
    assert text[..|text|] == text;
    while i >= 1 && text[i - 1] == BACKSLASH
      invariant 0 <= i == |text| - run
      invariant Odd(text) == (Odd(text[..i]) == (run % 2 == 0))
      decreases i
    {
      assert text[..i][..i - 1] == text[..i - 1];
      run := run + 1;
      i := i - 1;
    }
    odd := run % 2 == 1;
  }

  method DecodeKey(token: Bytes, longest: nat) returns (name: Bytes)
    ensures name == DecodedKey(token, longest)
  {
    if BACKSLASH !in token { return token; }
    if |token| > 6 * longest { return token; }
    name := Unescape(token);
  }

  predicate Holds(pieces: map<nat, Bytes>, n: nat)
  {
    forall k :: 1 <= k <= n ==> k in pieces
  }

  /** The pieces with a quote after each. */
  function Glued(pieces: map<nat, Bytes>, n: nat): Bytes
    requires Holds(pieces, n)
  {
    if n == 0 then [] else Glued(pieces, n - 1) + (pieces[n] + [QUOTE])
  }

  method JoinPieces(pieces: map<nat, Bytes>, n: nat) returns (out: Bytes)
    requires n >= 1 && Holds(pieces, n)
    ensures out + [QUOTE] == Glued(pieces, n)
  {
    out := pieces[1];
    for i := 2 to n + 1
      invariant out + [QUOTE] == Glued(pieces, i - 1)
    {
      out := out + [QUOTE] + pieces[i];
    }
  }

  lemma {:induction false} GluedFrame(pieces: map<nat, Bytes>, n: nat, k: nat, piece: Bytes)
    requires Holds(pieces, n) && k > n
    ensures Holds(pieces[k := piece], n) && Glued(pieces[k := piece], n) == Glued(pieces, n)
  {
    if n > 0 {
      GluedFrame(pieces, n - 1, k, piece);
    }
  }

  lemma {:induction false} SameFront(a: Bytes, b: Bytes)
    requires a + [QUOTE] == b + [QUOTE]
    ensures a == b
  {
    assert a == (a + [QUOTE])[..|a|];
    assert b == (b + [QUOTE])[..|b|];
  }

  method FirstOf(wanted: seq<Bytes>, found: map<Bytes, Bytes>) returns (raw: Option<Bytes>)
    ensures raw == FirstFound(wanted, found)
  {
    for i := 0 to |wanted|
      invariant FirstFound(wanted, found) == FirstFound(wanted[i..], found)
    {
      if wanted[i] in found { return Some(found[wanted[i]]); }
      assert wanted[i..][1..] == wanted[i + 1..];
    }
    raw := None;
  }

  /** The longest name looked for. */
  method Widest(container: Bytes, wanted: seq<Bytes>) returns (most: nat)
    ensures most == LongestName(Names(container, wanted))
  {
    most := |container|;
    for i := 0 to |wanted|
      invariant most == Longest(|container|, wanted[..i])
    {
      assert wanted[..i + 1][..i] == wanted[..i];
      if |wanted[i]| > most { most := |wanted[i]|; }
    }
    assert wanted[..|wanted|] == wanted;
  }

  class Reader {
    const names: Names
    const longest: nat
    var inside: bool
    var depth: int
    var pending: bool
    var pieces: map<nat, Bytes>
    var pieceCount: nat
    var pieceBytes: nat
    var oversize: bool
    var pendingToken: Bytes
    var pendingOversize: bool
    var keys: map<int, Bytes>
    var found: map<Bytes, Bytes>
    var unreadable: bool
    /** The string being read, with the quotes after its pieces; or the string last closed. */
    ghost var raw: Bytes

    ghost predicate Gathering()
      reads this
    {
      && oversize == (pieceCount > 4096 || pieceBytes > 65536)
      && pieceCount == QuoteCount(raw) && pieceBytes == |raw|
      && (!oversize ==> Holds(pieces, pieceCount) && raw == Glued(pieces, pieceCount))
    }

    ghost predicate Valid()
      reads this
    {
      && longest == LongestName(names)
      && (inside ==> !pending && Gathering())
      && (pending ==> pendingOversize == Oversize(raw) && pendingToken == Kept(raw))
    }

    ghost function View(): Scan
      reads this
    {
      Scan(if inside then Inside(raw, false) else Outside(if pending then Some(raw) else None),
           depth, keys, found, unreadable)
    }

    constructor (container: Bytes, wanted: seq<Bytes>)
      ensures Valid() && names == Names(container, wanted) && View() == START
    {
      var most := Widest(container, wanted);
      names := Names(container, wanted);
      longest := most;
      inside, depth, pending := false, 0, false;
      pieces, pieceCount, pieceBytes, oversize := map[], 0, 0, false;
      pendingToken, pendingOversize := [], false;
      keys, found, unreadable := map[], map[], false;
      raw := [];
    }

    /** The next record, and the quote that ended it. */
    method Record(record: Bytes)
      requires Valid() && QUOTE !in record
      modifies this
      ensures Valid() && View() == Chars(names, old(View()), record + [QUOTE])
    {
      if inside { Gather(record); } else { Classify(record); }
    }

    /** A record within a string is one more piece of it. */
    method Gather(record: Bytes)
      requires Valid() && inside && QUOTE !in record
      modifies this
      ensures Valid() && View() == Chars(names, old(View()), record + [QUOTE])
    {
      ghost var whole := raw + record;
      StringRecord(names, View(), record);
      TakePiece(record);
      var escaped := OddBackslashes(record);
      if escaped { return; }
      Close(whole);
    }

    /** The string is complete: join its pieces unless it is too large. */
    method Close(ghost whole: Bytes)
      requires longest == LongestName(names) && !pending && Gathering() && pieceCount >= 1 && raw == whole + [QUOTE]
      modifies this`inside, this`pending, this`pendingOversize, this`pendingToken, this`raw
      ensures Valid() && !inside && pending && raw == whole
    {
      QuotesJoin(whole, [QUOTE]);
      assert [QUOTE][1..] == [];
      inside := false;
      pending := true;
      pendingOversize := oversize;
      if oversize {
        pendingToken := [];
      } else {
        pendingToken := JoinPieces(pieces, pieceCount);
        SameFront(pendingToken, whole);
      }
      raw := whole;
    }

    /** Count the piece, and keep it unless the string has grown too large. */
    method TakePiece(record: Bytes)
      requires Gathering() && QUOTE !in record
      modifies this`pieces, this`pieceCount, this`pieceBytes, this`oversize, this`raw
      ensures Gathering() && pieceCount == old(pieceCount) + 1
      ensures raw == old(raw) + record + [QUOTE]
    {
      QuotesJoin(raw, record);
      NoQuotes(record);
      QuotesJoin(raw + record, [QUOTE]);
      assert [QUOTE][1..] == [];
      Regroup(raw, record, [QUOTE]);
      pieceCount := pieceCount + 1;
      pieceBytes := pieceBytes + |record| + 1;
      if pieceCount > 4096 || pieceBytes > 65536 {
        oversize := true;
      } else {
        GluedFrame(pieces, pieceCount - 1, pieceCount, record);
        pieces := pieces[pieceCount := record];
      }
      raw := raw + record + [QUOTE];
    }

    /** A record between strings says what the string before it was. */
    method Classify(record: Bytes)
      requires Valid() && !inside && QUOTE !in record
      modifies this
      ensures Valid() && View() == Chars(names, old(View()), record + [QUOTE])
    {
      ghost var before := View();
      OutsideRecord(names, before, record, Classified(names, before, ColonFirst(record)));
      if pending {
        if ColonFirst(record) { TakeKey(); } else { TakeValue(); }
        pending := false;
      }
      assert View() == Classified(names, before, ColonFirst(record));
      BeginString(record);
    }

    method BeginString(record: Bytes)
      requires longest == LongestName(names) && !inside && !pending
      modifies this`depth, this`inside, this`pieceCount, this`pieceBytes, this`oversize, this`raw
      ensures Valid()
      ensures View() == old(View()).(depth := old(depth) + Delta(record), mode := Inside([], false))
    {
      depth := depth + Delta(record);
      inside := true;
      pieceCount, pieceBytes, oversize := 0, 0, false;
      raw := [];
    }

    method TakeKey()
      requires Valid() && !inside && pending
      modifies this`keys, this`found
      ensures View().(mode := Outside(None)) == BindKey(names, old(View()), raw)
    {
      var name := DecodeKey(pendingToken, longest);
      keys := keys[depth := name];
      if depth == 1 && KeyAt(keys, 1) == names.container { found := map[]; }
      if Selected(names, depth, keys) { found := found - {KeyAt(keys, 2)}; }
    }

    method TakeValue()
      requires Valid() && !inside && pending
      modifies this`found, this`unreadable
      ensures View().(mode := Outside(None)) == BindValue(names, old(View()), raw)
    {
      if Selected(names, depth, keys) {
        if pendingOversize {
          unreadable := true;
        } else {
          found := found[KeyAt(keys, 2) := pendingToken];
        }
      }
    }

    /** The end of the input. */
    method End() returns (answer: Answer)
      requires Valid()
      modifies this
      ensures answer == Answered(names, old(View()))
    {
      ghost var before := View();
      if pending { TakeValue(); }
      assert found == Settle(names, before).found && unreadable == Settle(names, before).unreadable;
      if unreadable { return Answer(65, []); }
      var raw := FirstOf(names.wanted, found);
      if raw.None? { return Answer(0, []); }
      var out := EmitUnescaped(raw.value);
      return Answer(0, out);
    }
  }

  /** The records of an input: what lies between quotes, and what is left after the last one unless it is empty. */
  function Records(text: Bytes): seq<Bytes>
  {
    var cut := SplitLines(text, QUOTE);
    if cut.rest == [] then cut.lines else cut.lines + [cut.rest]
  }

  lemma {:induction false} RecordsCover(text: Bytes)
    ensures Joined(Records(text), QUOTE) == Supplied(text)
    ensures forall i :: 0 <= i < |Records(text)| ==> QUOTE !in Records(text)[i]
  {
    SplitIsSplit(text, QUOTE);
    var cut := SplitLines(text, QUOTE);
    if cut.rest == [] {
      if cut.lines != [] {
        assert text[|text| - 1] == QUOTE;
      }
    } else {
      assert text[|text| - 1] == cut.rest[|cut.rest| - 1];
      assert (cut.lines + [cut.rest])[..|cut.lines|] == cut.lines;
    }
  }

  /** The whole program: for every input, cutting at quotes and joining again answers as the automaton does. */
  method ReadField(container: Bytes, wanted: seq<Bytes>, text: Bytes) returns (answer: Answer)
    ensures answer == Read(Names(container, wanted), text)
  {
    var reader := new Reader(container, wanted);
    var records := Records(text);
    RecordsCover(text);
    for i := 0 to |records|
      invariant reader.Valid() && reader.names == Names(container, wanted)
      invariant reader.View() == Chars(reader.names, START, Joined(records[..i], QUOTE))
    {
      assert records[..i + 1][..i] == records[..i];
      reader.Record(records[i]);
      Regroup(Joined(records[..i], QUOTE), records[i], [QUOTE]);
      CharsJoin(reader.names, START, Joined(records[..i], QUOTE), records[i] + [QUOTE]);
    }
    assert records[..|records|] == records;
    answer := reader.End();
  }
}
