/**
 When the two decoders of scripts/json-field.awk agree, what they both mean on well-formed strings (section 7 of
 RFC 8259), and why long keys need not be decoded.
 */
module FieldAgreement {
  import opened Bytes
  import opened Options
  import opened FieldDecode
  import opened FieldEmit
  import opened Integers

  // ---- Agreement

  /** The splitting decoder loses text at the first of these pieces. */
  predicate Skips(pieces: seq<Piece>)
  {
    pieces != [] && |pieces| > 1 && pieces[1].Plain? && (pieces[0].BadCode? || Bridges(pieces))
  }

  /** No bad escape is directly followed by plain text, and no plain text lies between a high and a low surrogate. */
  predicate Clean(pieces: seq<Piece>)
  {
    forall i {:trigger pieces[i..]} :: 0 <= i < |pieces| ==> !Skips(pieces[i..])
  }

  lemma {:induction false} CleanTail(pieces: seq<Piece>, k: nat)
    requires Clean(pieces) && k <= |pieces|
    ensures Clean(pieces[k..])
  {
    forall i | 0 <= i < |pieces[k..]| ensures !Skips(pieces[k..][i..]) {
      assert pieces[k..][i..] == pieces[k + i..];
    }
  }

  lemma {:induction false} CleanFront(pieces: seq<Piece>)
    requires pieces != [] && !Skips(pieces) && Clean(pieces[1..])
    ensures Clean(pieces)
  {
    forall i | 0 <= i < |pieces| ensures !Skips(pieces[i..]) {
      if i == 0 {
        assert pieces[0..] == pieces;
      } else {
        assert pieces[i..] == pieces[1..][i - 1..];
      }
    }
  }

  lemma {:induction false} RunZero(pieces: seq<Piece>)
    requires |pieces| > 1
    ensures (PlainRun(pieces[1..]) == 0) == !pieces[1].Plain?
  {
  }

  lemma {:induction false} CleanAgrees(pieces: seq<Piece>)
    requires Clean(pieces)
    ensures Bridged(pieces) == Walked(pieces)
    decreases |pieces|
  {
    if pieces != [] {
      assert pieces[0..] == pieces;
      CleanTail(pieces, 1);
      CleanAgrees(pieces[1..]);
      if |pieces| > 1 {
        RunZero(pieces);
        CleanTail(pieces, 2);
        CleanAgrees(pieces[2..]);
      }
    }
  }

  lemma {:induction false} WalkedRun(pieces: seq<Piece>, k: nat)
    requires k <= PlainRun(pieces)
    ensures |Walked(pieces)| == k + |Walked(pieces[k..])|
  {
    if k == 0 {
      assert pieces[0..] == pieces;
    } else {
      WalkedRun(pieces[1..], k - 1);
      assert pieces[1..][k - 1..] == pieces[k..];
    }
  }

  /** Whatever the splitting decoder loses is never made up for. */
  lemma {:induction false} NeverLonger(pieces: seq<Piece>)
    ensures |Bridged(pieces)| <= |Walked(pieces)|
    ensures !Clean(pieces) ==> |Bridged(pieces)| < |Walked(pieces)|
    decreases |pieces|
  {
    if pieces != [] {
      if Bridges(pieces) {
        NeverLongerAcross(pieces, PlainRun(pieces[1..]));
      } else if pieces[0].BadCode? {
        var k := Min(4, PlainRun(pieces[1..]));
        NeverLonger(pieces[1 + k..]);
        WalkedRun(pieces[1..], k);
        assert pieces[1..][k..] == pieces[1 + k..];
        if k == 0 && Clean(pieces[1..]) {
          CleanFront(pieces);
        }
      } else {
        NeverLonger(pieces[1..]);
        if |pieces| > 1 { RunZero(pieces); }
        if Clean(pieces[1..]) {
          CleanFront(pieces);
        }
      }
    }
  }

  lemma {:induction false} NeverLongerAcross(pieces: seq<Piece>, n: nat)
    requires Bridges(pieces) && n == PlainRun(pieces[1..])
    ensures |Bridged(pieces)| <= |Walked(pieces)|
    ensures !Clean(pieces) ==> |Bridged(pieces)| < |Walked(pieces)|
    decreases |pieces|, 0
  {
    var low := pieces[1..][n..];
    assert low == pieces[1 + n..];
    NeverLonger(low[1..]);
    BridgedOfBridge(pieces, n, low);
    RunZero(pieces);
    if n > 0 {
      WalkedGap(pieces, n, low);
    } else {
      assert low[1..] == pieces[2..];
      if Clean(low[1..]) {
        CleanFront(low);
        CleanFront(pieces);
      }
    }
  }

  /** Walking a gap between surrogates writes two replacement characters and the gap. */
  lemma {:induction false} WalkedGap(pieces: seq<Piece>, n: nat, low: seq<Piece>)
    requires Bridges(pieces) && n == PlainRun(pieces[1..]) > 0 && low == pieces[1..][n..] && low != []
    ensures |Walked(pieces)| == 6 + n + |Walked(low[1..])|
  {
    WalkedRun(pieces[1..], n);
    RunZero(pieces);
    assert low[0] == pieces[1 + n];
  }

  /** The two decoders write the same bytes for a closed token exactly when nothing in it is skipped. */
  lemma {:induction false} DecodersAgree(t: Bytes)
    requires Closed(t)
    ensures Emitted(t) == Unescaped(t) <==> Clean(Pieces(t))
  {
    EmitIsBridged(t);
    NeverLonger(Pieces(t));
    if Clean(Pieces(t)) {
      CleanAgrees(Pieces(t));
    }
  }

  /** A bad escape before plain text: one decoder writes `\uz`, the other `\u`. */
  lemma {:induction false} DecodersDifferOnBadHex()
    ensures Closed([BACKSLASH, LETTER_U, 122])
    ensures Emitted([BACKSLASH, LETTER_U, 122]) != Unescaped([BACKSLASH, LETTER_U, 122])
  {
    var t: Bytes := [BACKSLASH, LETTER_U, 122];
    PiecesUnfold(t, BadCode);
    assert t[2..] == [122];
    PiecesUnfold([122], Plain(122));
    assert Pieces(t) == [BadCode, Plain(122)];
    DecodersAgree(t);
    assert Pieces(t)[0..] == Pieces(t);
  }

  // ---- Lengths

  function QuoteCount(t: Bytes): nat
  {
    if t == [] then 0 else QuoteCount(t[1..]) + (if t[0] == 34 then 1 else 0)
  }

  lemma {:induction false} QuotesJoin(a: Bytes, b: Bytes)
    ensures QuoteCount(a + b) == QuoteCount(a) + QuoteCount(b)
  {
    if a == [] {
      assert a + b == b;
    } else {
      QuotesJoin(a[1..], b);
      assert (a + b)[1..] == a[1..] + b;
    }
  }

  lemma {:induction false} NoQuotes(t: Bytes)
    requires 34 !in t
    ensures QuoteCount(t) == 0
  {
    if t != [] {
      NoQuotes(t[1..]);
    }
  }

  lemma {:induction false} FewQuotes(p: Piece)
    requires p.Code? ==> HexCode(p.digits).Some?
    ensures QuoteCount(PieceText(p)) <= |PieceBytes(p)| || p.Dangling? || p.Code?
    ensures p.Code? || p.Dangling? ==> QuoteCount(PieceText(p)) == 0
  {
    if p.Code? || p.Dangling? || p.BadCode? {
      NoQuotes(PieceText(p));
    } else if p.Short? {
      QuotesJoin([BACKSLASH], [p.letter]);
      NoQuotes([BACKSLASH]);
      assert [p.letter][1..] == [];
      assert PieceText(p) == [BACKSLASH] + [p.letter];
    }
  }

  /** A token is a first piece and what follows. */
  lemma {:induction false} FirstText(t: Bytes, p: Piece, n: nat)
    requires t != [] && p == FirstPiece(t) && n == |PieceText(p)|
    ensures n <= |t| && t == PieceText(p) + t[n..]
    ensures p.Code? ==> HexCode(p.digits) == Some(p.code)
  {
    match p
    case Plain(_) => AtFront(t, PieceText(p));
    case Short(_) => AtFront(t, PieceText(p));
    case Dangling => AtFront(t, PieceText(p));
    case BadCode => AtFront(t, PieceText(p));
    case Code(_, digits) =>
      assert Prefix(t[2..], 4) == t[2..6] == digits;
      assert t[..6] == PieceText(p);
      AtFront(t, PieceText(p));
  }

  lemma {:induction false} AtFront(t: Bytes, front: Bytes)
    requires |front| <= |t| && forall i :: 0 <= i < |front| ==> t[i] == front[i]
    ensures t == front + t[|front|..]
  {
  }

  /** A closed token is at most six times as long as what it decodes to, and has at most as many quotes in it. */
  lemma {:induction false} LongEnough(t: Bytes)
    requires Closed(t)
    ensures |t| <= 6 * |Unescaped(t)|
    ensures QuoteCount(t) <= |Unescaped(t)|
    decreases |t|
  {
    if t != [] {
      var p := FirstPiece(t);
      var n := |PieceText(p)|;
      ClosedAfter(t, p, n);
      FirstText(t, p, n);
      FewQuotes(p);
      QuotesJoin(PieceText(p), t[n..]);
      if StartsPair(t) {
        LongEnoughPair(t, p);
      } else {
        LongEnough(t[n..]);
        UnescapedSingle(t, p, n);
      }
    }
  }

  lemma {:induction false} LongEnoughPair(t: Bytes, p: Piece)
    requires t != [] && Closed(t) && p == FirstPiece(t) && StartsPair(t)
    requires QuoteCount(t) == QuoteCount(t[6..])
    ensures |t| <= 6 * |Unescaped(t)|
    ensures QuoteCount(t) <= |Unescaped(t)|
    decreases |t|, 0
  {
    var low := t[6..];
    var q := FirstPiece(low);
    ClosedAfter(t, p, 6);
    ClosedAfter(low, q, 6);
    FirstText(low, q, 6);
    FewQuotes(q);
    QuotesJoin(PieceText(q), low[6..]);
    UnescapedPair(t, p, q);
    assert low[6..] == t[12..];
    LongEnough(t[12..]);
  }

  // ---- Keys

  lemma {:induction false} PlainIsItself(t: Bytes)
    requires BACKSLASH !in t
    ensures Unescaped(t) == t
  {
    if t != [] {
      UnescapedSingle(t, FirstPiece(t), 1);
      PlainIsItself(t[1..]);
    }
  }

  /** A key is decoded only when it has an escape in it and could be one of the names looked for. */
  function DecodedKey(token: Bytes, longest: nat): Bytes
  {
    if BACKSLASH !in token then token
    else if |token| > 6 * longest then token
    else Unescaped(token)
  }

  /** Leaving long keys alone never changes which name a key spells. */
  lemma {:induction false} PruningLosesNothing(token: Bytes, longest: nat, name: Bytes)
    requires Closed(token) && |name| <= longest
    ensures DecodedKey(token, longest) == name <==> Unescaped(token) == name
  {
    if BACKSLASH !in token {
      PlainIsItself(token);
    } else {
      LongEnough(token);
    }
  }

  // ---- Tokens

  /** The raw text of a string: escapes are complete and every quote is escaped. */
  predicate IsToken(t: Bytes)
  {
    Closed(t) && Plain(34) !in Pieces(t)
  }
}
