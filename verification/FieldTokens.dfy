/** Every string the scanner closes, on any input at all, is a token: its escapes are complete and its quotes escaped. */
module FieldTokens {
  import opened Bytes
  import opened Options
  import opened FieldDecode
  import opened FieldEmit
  import opened FieldAgreement
  import opened FieldScan
  import opened FieldDocument

  /** Every quote comes after an odd number of backslashes. */
  ghost predicate QuotesEscaped(raw: Bytes)
  {
    forall i :: 0 <= i < |raw| && raw[i] == QUOTE ==> Odd(raw[..i])
  }

  lemma {:induction false} OddAfter(a: Bytes, b: Bytes)
    requires !Odd(a)
    ensures Odd(a + b) == Odd(b)
    decreases |b|
  {
    if b == [] {
      assert a + b == a;
    } else {
      var n := |b| - 1;
      OddAfter(a, b[..n]);
      assert (a + b)[..|a| + n] == a + b[..n];
    }
  }

  lemma {:induction false} PieceIsEven(p: Piece)
    requires !p.Dangling? && p != Plain(BACKSLASH) && (p.Code? ==> HexCode(p.digits).Some?)
    ensures !Odd(PieceText(p))
  {
    if p.Short? {
      assert PieceText(p)[..1] == [BACKSLASH];
      assert [BACKSLASH][..0] == [];
      assert Odd([BACKSLASH]);
    }
  }

  lemma {:induction false} EscapedAfter(front: Bytes, rest: Bytes)
    requires !Odd(front) && QuotesEscaped(front + rest)
    ensures QuotesEscaped(rest)
  {
    var whole := front + rest;
    forall i | 0 <= i < |rest| && rest[i] == QUOTE ensures Odd(rest[..i]) {
      assert whole[|front| + i] == QUOTE;
      assert whole[..|front| + i] == front + rest[..i];
      OddAfter(front, rest[..i]);
    }
  }

  /** Counting backslashes finds exactly the ends of tokens. */
  lemma {:induction false} EvenIsToken(raw: Bytes)
    requires QuotesEscaped(raw) && !Odd(raw)
    ensures IsToken(raw)
    decreases |raw|
  {
    if raw != [] {
      var p := FirstPiece(raw);
      var n := |PieceText(p)|;
      FirstText(raw, p, n);
      PiecesUnfold(raw, p);
      assert raw[..0] == [];
      if !p.Dangling? {
        PieceIsEven(p);
        OddAfter(PieceText(p), raw[n..]);
        EscapedAfter(PieceText(p), raw[n..]);
        EvenIsToken(raw[n..]);
      }
    }
  }

  /** What the automaton has read of a string, and the strings it keeps. */
  ghost predicate Sound(s: Scan)
  {
    && (match s.mode
        case Inside(raw, escaped) => QuotesEscaped(raw) && escaped == Odd(raw)
        case Outside(pending) => pending.Some? ==> IsToken(pending.value))
    && forall f :: f in s.found ==> IsToken(s.found[f])
  }

  lemma {:induction false} OneMoreByte(raw: Bytes, escaped: bool, c: Byte)
    requires QuotesEscaped(raw) && escaped == Odd(raw) && (c == QUOTE ==> escaped)
    ensures QuotesEscaped(raw + [c]) && Odd(raw + [c]) == (!escaped && c == BACKSLASH)
  {
    var longer := raw + [c];
    assert longer[..|raw|] == raw;
    forall i | 0 <= i < |longer| && longer[i] == QUOTE ensures Odd(longer[..i]) {
      if i < |raw| {
        assert longer[..i] == raw[..i];
      }
    }
  }

  lemma {:induction false} CharIsSound(names: Names, s: Scan, c: Byte)
    requires Sound(s)
    ensures Sound(Char(names, s, c))
  {
    match s.mode
    case Inside(raw, escaped) =>
      if escaped || c != QUOTE {
        OneMoreByte(raw, escaped, c);
      } else {
        EvenIsToken(raw);
      }
    case Outside(_) => SettleIsSound(names, s);
  }

  lemma {:induction false} SettleIsSound(names: Names, s: Scan)
    requires Sound(s)
    ensures Sound(Settle(names, s))
  {
  }

  lemma {:induction false} CharsAreSound(names: Names, s: Scan, text: Bytes)
    requires Sound(s)
    ensures Sound(Chars(names, s, text))
    decreases |text|
  {
    if text != [] {
      CharIsSound(names, s, text[0]);
      CharsAreSound(names, Char(names, s, text[0]), text[1..]);
    }
  }

  /** The tokens are exactly the texts whose quotes are escaped and that end in an even number of backslashes. */
  lemma {:induction false} TokensAreEven(names: Names, raw: Bytes)
    ensures IsToken(raw) <==> QuotesEscaped(raw) && !Odd(raw)
  {
    if IsToken(raw) {
      var s := START.(mode := Inside([], false));
      TokenRun(names, s, raw);
      CharsAreSound(names, s, raw);
      assert [] + raw == raw;
    } else if QuotesEscaped(raw) && !Odd(raw) {
      EvenIsToken(raw);
    }
  }

  /** On every input, a string that has been closed is a token. */
  lemma {:induction false} ClosedIsToken(names: Names, text: Bytes, raw: Bytes)
    requires Chars(names, START, text).mode == Outside(Some(raw))
    ensures IsToken(raw)
  {
    CharsAreSound(names, START, text);
  }

  lemma {:induction false} FoundIsSound(wanted: seq<Bytes>, found: map<Bytes, Bytes>)
    requires forall f :: f in found ==> IsToken(found[f])
    ensures FirstFound(wanted, found).Some? ==> IsToken(FirstFound(wanted, found).value)
  {
    if wanted != [] {
      FoundIsSound(wanted[1..], found);
    }
  }

  /**
   On every input: what is printed is nothing, or one decoded token; and it is what decoding the token character by
   character gives exactly when nothing in the token is skipped.
   */
  lemma {:induction false} PrintsOneToken(names: Names, text: Bytes, s: Scan, raw: Option<Bytes>, out: Bytes)
    requires s == Settle(names, Chars(names, START, Supplied(text))) && raw == FirstFound(names.wanted, s.found)
    requires Read(names, text) == Answer(0, out)
    ensures raw.None? ==> out == []
    ensures raw.Some? ==> IsToken(raw.value) && out == Emitted(raw.value)
    ensures raw.Some? ==> (out == Unescaped(raw.value) <==> Clean(Pieces(raw.value)))
  {
    CharsAreSound(names, START, Supplied(text));
    SettleIsSound(names, Chars(names, START, Supplied(text)));
    FoundIsSound(names.wanted, s.found);
    if raw.Some? {
      DecodersAgree(raw.value);
    }
  }
}
