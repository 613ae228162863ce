/**
 The decoder that splits a token at backslashes and writes out the parts, and where it parts company with the one
 that walks the token.
 */
module FieldEmit {
  import opened Bytes
  import opened Options
  import opened Unicode
  import opened FieldDecode
  import opened Sequences
  import opened Integers

  /** The text cut at every backslash. */
  function Parts(t: Bytes): (r: seq<Bytes>)
    ensures |r| > 0
  {
    if t == [] then [[]]
    else
      var parts := Parts(t[1..]);
      if t[0] == BACKSLASH then [[]] + parts else [[t[0]] + parts[0]] + parts[1..]
  }

  function Code4(segment: Bytes): Option<int>
    requires segment != []
  {
    HexCode(Prefix(segment[1..], 4))
  }

  predicate StartsCode(parts: seq<Bytes>)
  {
    parts != [] && parts[0] != [] && parts[0][0] == LETTER_U && Code4(parts[0]).Some?
  }

  predicate JoinsNext(parts: seq<Bytes>)
  {
    && StartsCode(parts) && High(Code4(parts[0]).value)
    && StartsCode(parts[1..]) && Low(Code4(parts[1]).value)
  }

  /** What is written for the parts that follow a backslash. */
  function Written(parts: seq<Bytes>): Bytes
  {
    if parts == [] then []
    else if parts[0] == [] then
      if |parts| == 1 then [BACKSLASH] else [BACKSLASH] + (parts[1] + Written(parts[2..]))
    else if parts[0][0] != LETTER_U then
      [ShortByte(parts[0][0])] + (parts[0][1..] + Written(parts[1..]))
    else if Code4(parts[0]).None? then
      [BACKSLASH, LETTER_U] + (Drop(parts[0], 5) + Written(parts[1..]))
    else if JoinsNext(parts) then
      CodeBytes(Pair(Code4(parts[0]).value, Code4(parts[1]).value)) + (Drop(parts[1], 5) + Written(parts[2..]))
    else
      UnitBytes(Code4(parts[0]).value) + (Drop(parts[0], 5) + Written(parts[1..]))
  }

  function Emitted(t: Bytes): Bytes
  {
    Parts(t)[0] + Written(Parts(t)[1..])
  }

  lemma {:induction false} Tail2(parts: seq<Bytes>, i: nat)
    requires i < |parts|
    ensures parts[i..][1..] == parts[i + 1..]
    ensures i + 1 < |parts| ==> parts[i..][2..] == parts[i + 2..]
  {
  }

  /** One round of the loop over the parts. */
  method EmitPart(parts: seq<Bytes>, i: nat) returns (bytes: Bytes, next: nat)
    requires i < |parts|
    ensures i < next <= |parts|
    ensures Written(parts[i..]) == bytes + Written(parts[next..])
  {
    ghost var left := parts[i..];
    var segment := parts[i];
    Tail2(parts, i);
    if segment == [] {
      if i + 1 == |parts| {
        return [BACKSLASH], i + 1;
      }
      Regroup([BACKSLASH], parts[i + 1], Written(parts[i + 2..]));
      return [BACKSLASH] + parts[i + 1], i + 2;
    }
    if segment[0] == LETTER_U {
      bytes, next := EmitCode(parts, i);
      return;
    }
    Regroup([ShortByte(segment[0])], segment[1..], Written(parts[i + 1..]));
    return [ShortByte(segment[0])] + segment[1..], i + 1;
  }

  method EmitCode(parts: seq<Bytes>, i: nat) returns (bytes: Bytes, next: nat)
    requires i < |parts| && parts[i] != [] && parts[i][0] == LETTER_U
    ensures i < next <= |parts|
    ensures Written(parts[i..]) == bytes + Written(parts[next..])
  {
    Tail2(parts, i);
    var code := HexVal(Prefix(parts[i][1..], 4));
    var rest := Drop(parts[i], 5);
    if code < 0 {
      Regroup([BACKSLASH, LETTER_U], rest, Written(parts[i + 1..]));
      return [BACKSLASH, LETTER_U] + rest, i + 1;
    }
    if High(code) && i + 1 < |parts| && Prefix(parts[i + 1], 1) == [LETTER_U] {
      var low := HexVal(Prefix(parts[i + 1][1..], 4));
      if Low(low) {
        var after := Drop(parts[i + 1], 5);
        Regroup(CodeBytes(Pair(code, low)), after, Written(parts[i + 2..]));
        return CodeBytes(Pair(code, low)) + after, i + 2;
      }
    }
    Regroup(UnitBytes(code), rest, Written(parts[i + 1..]));
    return UnitBytes(code) + rest, i + 1;
  }

  method EmitUnescaped(text: Bytes) returns (out: Bytes)
    ensures out == Emitted(text)
  {
    var parts := Parts(text);
    out := parts[0];
    var i := 1;
    while i < |parts|
      invariant 1 <= i <= |parts|
      invariant out + Written(parts[i..]) == Emitted(text)
      decreases |parts| - i
    {
      var bytes, next := EmitPart(parts, i);
      Regroup(out, bytes, Written(parts[next..]));
      out := out + bytes;
      i := next;
    }
  }

  // ---- In terms of pieces

  /** How many plain pieces, up to a limit, lead the sequence. */
  function PlainRun(pieces: seq<Piece>): (r: nat)
    ensures r <= |pieces|
    ensures forall i :: 0 <= i < r ==> pieces[i].Plain?
    ensures r < |pieces| ==> !pieces[r].Plain?
  {
    if pieces == [] || !pieces[0].Plain? then 0 else 1 + PlainRun(pieces[1..])
  }

  /** A high surrogate followed, whatever plain text is in between, by a low one. */
  predicate Bridges(pieces: seq<Piece>)
  {
    pieces != [] && IsHigh(pieces[0]) &&
    var run := PlainRun(pieces[1..]); 1 + run < |pieces| && IsLow(pieces[1 + run])
  }

  /** What the splitting decoder makes of the pieces. */
  function Bridged(pieces: seq<Piece>): Bytes
  {
    if pieces == [] then []
    else if pieces[0].BadCode? then
      PieceBytes(BadCode) + Bridged(pieces[1 + Min(4, PlainRun(pieces[1..]))..])
    else if Bridges(pieces) then
      var run := PlainRun(pieces[1..]);
      CodeBytes(Pair(pieces[0].code, pieces[1 + run].code)) + Bridged(pieces[2 + run..])
    else PieceBytes(pieces[0]) + Bridged(pieces[1..])
  }

  /** The first part is plain text, and taking a piece of it off the text takes it off the part. */
  lemma {:induction false} FirstPart(t: Bytes, k: nat)
    requires k <= |Parts(t)[0]|
    ensures |Parts(t)[0]| <= |t|
    ensures Parts(t)[0][..k] == t[..k]
    ensures Parts(t[k..]) == [Parts(t)[0][k..]] + Parts(t)[1..]
  {
    if k == 0 {
      assert t[k..] == t;
    }
    if t != [] && t[0] != BACKSLASH {
      FirstPart(t[1..], if k == 0 then 0 else k - 1);
      if k > 0 {
        assert t[1..][k - 1..] == t[k..];
        assert t[..k] == [t[0]] + t[1..][..k - 1];
        assert Parts(t)[0][k..] == Parts(t[1..])[0][k - 1..];
      }
    }
  }

  lemma {:induction false} EmittedAfter(t: Bytes, k: nat)
    requires k <= |Parts(t)[0]| <= |t|
    ensures Parts(t)[0][k..] + Written(Parts(t)[1..]) == Emitted(t[k..])
  {
    FirstPart(t, k);
  }

  /** The parts after the first are those of the text after the first backslash. */
  lemma {:induction false} LaterParts(t: Bytes, n: nat)
    requires n == |Parts(t)[0]|
    ensures n <= |t|
    ensures n == |t| ==> Parts(t)[1..] == []
    ensures n < |t| ==> t[n] == BACKSLASH && Parts(t)[1..] == Parts(t[n + 1..])
  {
    FirstPart(t, 0);
    FirstPart(t, n);
    var rest := t[n..];
    assert Parts(t)[0][n..] == [];
    assert Parts(rest) == [[]] + Parts(t)[1..];
    if rest != [] {
      assert rest[1..] == t[n + 1..];
      assert Parts(rest)[0] == [];
      assert Parts(rest)[1..] == Parts(t)[1..];
      assert rest[0] == BACKSLASH;
      assert ([[]] + Parts(rest[1..]))[1..] == Parts(rest[1..]);
    }
  }

  lemma {:induction false} HexOfPart(t: Bytes)
    ensures HexCode(Prefix(Parts(t)[0], 4)) == HexCode(Prefix(t, 4))
  {
    var n := |Parts(t)[0]|;
    LaterParts(t, n);
    if n >= 4 {
      FirstPart(t, 4);
      assert Prefix(Parts(t)[0], 4) == Parts(t)[0][..4];
      assert Prefix(t, 4) == t[..4];
    } else if n < |t| && |t| >= 4 {
      assert Prefix(t, 4)[n] == BACKSLASH;
    }
  }

  /** An escape is read the same from the parts and from the text. */
  lemma {:induction false} EscapeOfParts(t: Bytes, p: Piece, parts: seq<Bytes>)
    requires |t| > 1 && t[0] == BACKSLASH && p == FirstPiece(t) && parts == Parts(t[1..])
    ensures p.Code? == StartsCode(parts)
    ensures p.Code? ==> Code4(parts[0]) == Some(p.code)
    ensures t[1] != BACKSLASH ==> parts == [[t[1]] + Parts(t[2..])[0]] + Parts(t[2..])[1..]
    ensures t[1] == BACKSLASH ==> parts == [[]] + Parts(t[2..])
  {
    assert t[1..][1..] == t[2..];
    HexOfPart(t[2..]);
    if t[1] != BACKSLASH {
      assert parts[0][1..] == Parts(t[2..])[0];
    }
  }

  /** Plain pieces are the bytes of the first part. */
  lemma {:induction false} RunOfPart(t: Bytes, k: nat)
    requires k <= |Parts(t)[0]|
    ensures PlainRun(Pieces(t)) == |Parts(t)[0]| <= |t|
    ensures Pieces(t[k..]) == Pieces(t)[k..]
  {
    if k == 0 {
      assert t[k..] == t;
    }
    if t != [] {
      PiecesUnfold(t, FirstPiece(t));
      if t[0] != BACKSLASH {
        RunOfPart(t[1..], if k == 0 then 0 else k - 1);
        if k > 0 {
          assert t[1..][k - 1..] == t[k..];
          assert Pieces(t)[k..] == Pieces(t)[1..][k - 1..];
        }
      }
    }
  }

  // ---- The splitting decoder on pieces

  lemma {:induction false} ClosedAfter(t: Bytes, p: Piece, n: nat)
    requires t != [] && Closed(t) && p == FirstPiece(t) && n == |PieceText(p)|
    ensures n <= |t| && Closed(t[n..])
    ensures !p.Dangling?
    ensures Pieces(t)[0] == p && Pieces(t)[1..] == Pieces(t[n..])
  {
    PiecesUnfold(t, p);
  }

  lemma {:induction false} ClosedInRun(t: Bytes, k: nat)
    requires Closed(t) && k <= |Parts(t)[0]|
    ensures k <= |t| && Closed(t[k..])
  {
    RunOfPart(t, k);
  }

  lemma {:induction false} EmitOfPlain(t: Bytes)
    requires t != [] && t[0] != BACKSLASH
    ensures Emitted(t) == [t[0]] + Emitted(t[1..])
    ensures Bridged(Pieces(t)) == [t[0]] + Bridged(Pieces(t[1..]))
  {
    PiecesUnfold(t, FirstPiece(t));
    Regroup([t[0]], Parts(t[1..])[0], Written(Parts(t)[1..]));
  }

  lemma {:induction false} EmitOfShort(t: Bytes)
    requires |t| > 1 && t[0] == BACKSLASH && t[1] != LETTER_U
    ensures Emitted(t) == [ShortByte(t[1])] + Emitted(t[2..])
    ensures Bridged(Pieces(t)) == [ShortByte(t[1])] + Bridged(Pieces(t[2..]))
  {
    var p := FirstPiece(t);
    PiecesUnfold(t, p);
    EscapeOfParts(t, p, Parts(t[1..]));
    var after, parts := Parts(t[2..]), Parts(t[1..]);
    assert Emitted(t) == Written(parts);
    if t[1] == BACKSLASH {
      assert parts[1] == after[0] && parts[2..] == after[1..];
    } else {
      assert parts[0][1..] == after[0] && parts[1..] == after[1..];
    }
  }

  lemma {:induction false} DropOfPart(c: Byte, part: Bytes, k: nat)
    requires k == Min(4, |part|)
    ensures Drop([c] + part, 5) == part[k..]
  {
  }

  lemma {:induction false} EmitOfBadCode(t: Bytes, k: nat)
    requires |t| > 1 && FirstPiece(t).BadCode? && k == Min(4, |Parts(t[2..])[0]|)
    ensures k <= |t[2..]|
    ensures Emitted(t) == [BACKSLASH, LETTER_U] + Emitted(t[2..][k..])
    ensures Bridged(Pieces(t)) == [BACKSLASH, LETTER_U] + Bridged(Pieces(t[2..][k..]))
  {
    var p := FirstPiece(t);
    var after, parts := Parts(t[2..]), Parts(t[1..]);
    PiecesUnfold(t, p);
    EscapeOfParts(t, p, parts);
    RunOfPart(t[2..], k);
    EmittedAfter(t[2..], k);
    DropOfPart(LETTER_U, after[0], k);
    assert parts[0] == [LETTER_U] + after[0] && parts[1..] == after[1..];
    assert Emitted(t) == Written(parts);
    assert Pieces(t)[1 + k..] == Pieces(t)[1..][k..];
  }

  /** The code point after a run of plain text, from the parts and from the pieces. */
  lemma {:induction false} NextEscape(t: Bytes, n: nat)
    requires Closed(t) && n == |Parts(t)[0]|
    ensures n <= |t|
    ensures PlainRun(Pieces(t)) == n
    ensures n == |t| ==> Parts(t)[1..] == [] && |Pieces(t)| == n
    ensures n < |t| ==> n + 1 < |t| && t[n] == BACKSLASH && Parts(t)[1..] == Parts(t[n + 1..])
    ensures n < |t| ==> Closed(t[n..]) && Pieces(t)[n..] == Pieces(t[n..])
    ensures n < |t| ==> n < |Pieces(t)| && Pieces(t)[n] == FirstPiece(t[n..])
  {
    LaterParts(t, n);
    RunOfPart(t, n);
    if n < |t| {
      ClosedAfter(t[n..], FirstPiece(t[n..]), |PieceText(FirstPiece(t[n..]))|);
    }
  }

  lemma {:induction false} AfterCode(t: Bytes, p: Piece)
    requires Closed(t) && |t| >= 6 && p == FirstPiece(t) && p.Code?
    ensures Closed(t[6..]) && Pieces(t)[0] == p && Pieces(t)[1..] == Pieces(t[6..])
    ensures Emitted(t) == Written(Parts(t[1..]))
    ensures Parts(t[1..])[1..] == Parts(t[6..])[1..]
    ensures Drop(Parts(t[1..])[0], 5) == Parts(t[6..])[0]
    ensures StartsCode(Parts(t[1..])) && Code4(Parts(t[1..])[0]) == Some(p.code)
  {
    ClosedAfter(t, p, 6);
    EscapeOfParts(t, p, Parts(t[1..]));
    var after := Parts(t[2..]);
    DropOfPart(LETTER_U, after[0], 4);
    FirstPart(t[2..], 4);
    assert t[2..][4..] == t[6..];
  }

  lemma {:induction false} EmitOfCode(t: Bytes, p: Piece)
    requires Closed(t) && |t| >= 6 && p == FirstPiece(t) && p.Code?
    requires !Bridges(Pieces(t))
    ensures Emitted(t) == UnitBytes(p.code) + Emitted(t[6..])
    ensures Bridged(Pieces(t)) == UnitBytes(p.code) + Bridged(Pieces(t[6..]))
  {
    AfterCode(t, p);
    JoinsAlike(t, p);
  }

  lemma {:induction false} JoinsAlike(t: Bytes, p: Piece)
    requires Closed(t) && |t| >= 6 && p == FirstPiece(t) && p.Code?
    ensures JoinsNext(Parts(t[1..])) == Bridges(Pieces(t))
  {
    AfterCode(t, p);
    var rest := t[6..];
    var n := |Parts(rest)[0]|;
    NextEscape(rest, n);
    if n < |rest| {
      EscapeOfParts(rest[n..], FirstPiece(rest[n..]), Parts(rest[n + 1..]));
    }
  }

  /** A bridge is plain text, a low surrogate and the text after it. */
  lemma {:induction false} BridgeEnds(t: Bytes, p: Piece, n: nat, low: Bytes)
    requires Closed(t) && |t| >= 6 && p == FirstPiece(t) && p.Code? && Bridges(Pieces(t))
    requires n == PlainRun(Pieces(t[6..])) <= |t[6..]| && low == t[6..][n..]
    ensures |low| >= 6 && Closed(low) && IsLow(FirstPiece(low))
    ensures Pieces(t)[1..][n..] == Pieces(low)
    ensures Parts(t[1..])[1..] == Parts(low[1..])
  {
    AfterCode(t, p);
    var rest := t[6..];
    assert n == |Parts(rest)[0]| by {
      RunOfPart(rest, 0);
    }
    NextEscape(rest, n);
    assert low[1..] == rest[n + 1..];
  }

  lemma {:induction false} EmitOfBridge(t: Bytes, p: Piece, low: Bytes, q: Piece)
    requires Closed(t) && |t| >= 6 && p == FirstPiece(t) && p.Code? && Bridges(Pieces(t))
    requires |low| >= 6 && Closed(low) && q == FirstPiece(low) && IsLow(q)
    requires Parts(t[1..])[1..] == Parts(low[1..])
    ensures Emitted(t) == CodeBytes(Pair(p.code, q.code)) + Emitted(low[6..])
  {
    AfterCode(t, p);
    JoinsAlike(t, p);
    AfterCode(low, q);
    var parts, next := Parts(t[1..]), Parts(low[1..]);
    assert parts[1] == next[0] && parts[2..] == next[1..];
  }

  lemma {:induction false} BridgedOfBridge(pieces: seq<Piece>, n: nat, low: seq<Piece>)
    requires Bridges(pieces) && n == PlainRun(pieces[1..]) && low == pieces[1..][n..] && low != []
    ensures IsLow(low[0])
    ensures Bridged(pieces) == CodeBytes(Pair(pieces[0].code, low[0].code)) + Bridged(low[1..])
  {
    assert pieces[2 + n..] == low[1..];
  }

  lemma {:induction false} EmitIsBridged(t: Bytes)
    requires Closed(t)
    ensures Emitted(t) == Bridged(Pieces(t))
    decreases |t|, 1
  {
    if t != [] {
      var p := FirstPiece(t);
      ClosedAfter(t, p, |PieceText(p)|);
      match p
      case Plain(_) =>
        EmitOfPlain(t);
        EmitIsBridged(t[1..]);
      case Short(_) =>
        EmitOfShort(t);
        EmitIsBridged(t[2..]);
      case BadCode =>
        var k := Min(4, |Parts(t[2..])[0]|);
        EmitOfBadCode(t, k);
        ClosedInRun(t[2..], k);
        EmitIsBridged(t[2..][k..]);
      case Code(_, _) =>
        if Bridges(Pieces(t)) {
          EmitAcross(t, p);
        } else {
          EmitOfCode(t, p);
          EmitIsBridged(t[6..]);
        }
    }
  }

  lemma {:induction false} EmitAcross(t: Bytes, p: Piece)
    requires Closed(t) && |t| >= 6 && p == FirstPiece(t) && p.Code? && Bridges(Pieces(t))
    ensures Emitted(t) == Bridged(Pieces(t))
    decreases |t|, 0
  {
    AfterCode(t, p);
    RunOfPart(t[6..], 0);
    var n := PlainRun(Pieces(t[6..]));
    var low := t[6..][n..];
    BridgeEnds(t, p, n, low);
    var q := FirstPiece(low);
    EmitOfBridge(t, p, low, q);
    AfterCode(low, q);
    BridgedOfBridge(Pieces(t), n, Pieces(low));
    EmitIsBridged(low[6..]);
  }
}
