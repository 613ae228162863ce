/** Opaque identities in the Node decoders: byte strings in unpadded base64url (section 5 of RFC 4648). */
module Identities {
  import opened Bytes
  import opened Options
  import opened Unicode

  // The decoding of the runtime is lenient; encoding what was decoded and comparing makes the spelling canonical.

  // ---- Six bits at a time

  type Digit = d: int | 0 <= d < 64

  /** Three bytes are four digits; one or two left over are two or three, filled with zero bits. */
  function Digits(bytes: Bytes): seq<Digit>
  {
    if bytes == [] then []
    else if |bytes| == 1 then [bytes[0] / 4, bytes[0] % 4 * 16]
    else if |bytes| == 2 then [bytes[0] / 4, bytes[0] % 4 * 16 + bytes[1] / 16, bytes[1] % 16 * 4]
    else
      [bytes[0] / 4, bytes[0] % 4 * 16 + bytes[1] / 16, bytes[1] % 16 * 4 + bytes[2] / 64, bytes[2] % 64]
      + Digits(bytes[3..])
  }

  function First(a: Digit, b: Digit): Byte { a * 4 + b / 16 }

  function Second(b: Digit, c: Digit): Byte { b % 16 * 16 + c / 4 }

  function Third(c: Digit, d: Digit): Byte { c % 4 * 64 + d }

  /** Whatever bits are left over are ignored, and so is a single digit at the end. */
  function Packed(digits: seq<Digit>): Bytes
  {
    if |digits| < 2 then []
    else if |digits| == 2 then [First(digits[0], digits[1])]
    else if |digits| == 3 then [First(digits[0], digits[1]), Second(digits[1], digits[2])]
    else
      [First(digits[0], digits[1]), Second(digits[1], digits[2]), Third(digits[2], digits[3])] + Packed(digits[4..])
  }

  lemma {:induction false} GroupPacks(x: Byte, y: Byte, z: Byte)
    ensures First(x / 4, x % 4 * 16 + y / 16) == x
    ensures Second(x % 4 * 16 + y / 16, y % 16 * 4 + z / 64) == y
    ensures Third(y % 16 * 4 + z / 64, z % 64) == z
  {
    assert (x % 4 * 16 + y / 16) / 16 == x % 4;
    assert (x % 4 * 16 + y / 16) % 16 == y / 16;
    assert (y % 16 * 4 + z / 64) / 4 == y % 16;
    assert (y % 16 * 4 + z / 64) % 4 == z / 64;
  }

  lemma {:induction false} PackedDigits(bytes: Bytes)
    ensures Packed(Digits(bytes)) == bytes
    decreases |bytes|
  {
    if |bytes| == 1 {
      GroupPacks(bytes[0], 0, 0);
    } else if |bytes| == 2 {
      GroupPacks(bytes[0], bytes[1], 0);
    } else if |bytes| >= 3 {
      GroupPacks(bytes[0], bytes[1], bytes[2]);
      PackedDigits(bytes[3..]);
      assert Digits(bytes)[4..] == Digits(bytes[3..]);
      assert bytes == [bytes[0], bytes[1], bytes[2]] + bytes[3..];
    }
  }

  function EncodedLength(n: nat): nat
  {
    (4 * n + 2) / 3
  }

  lemma {:induction false} DigitsLength(bytes: Bytes)
    ensures |Digits(bytes)| == EncodedLength(|bytes|)
    decreases |bytes|
  {
    if |bytes| >= 3 {
      DigitsLength(bytes[3..]);
    }
  }

  // ---- The alphabet

  function Symbol(d: Digit): Unit
  {
    if d < 26 then 65 + d else if d < 52 then 71 + d else if d < 62 then d - 4 else if d == 62 then 45 else 95
  }

  predicate InAlphabet(c: int)
  {
    65 <= c <= 90 || 97 <= c <= 122 || 48 <= c <= 57 || c == 45 || c == 95
  }

  function Value(c: Unit): Digit
    requires InAlphabet(c)
  {
    if c == 45 then 62 else if c == 95 then 63 else if c <= 57 then c + 4 else if c <= 90 then c - 65 else c - 71
  }

  predicate Spellable(text: seq<Unit>)
  {
    forall i :: 0 <= i < |text| ==> InAlphabet(text[i])
  }

  function Symbols(digits: seq<Digit>): (r: seq<Unit>)
    ensures |r| == |digits| && Spellable(r)
  {
    if digits == [] then [] else [Symbol(digits[0])] + Symbols(digits[1..])
  }

  function Values(text: seq<Unit>): (r: seq<Digit>)
    requires Spellable(text)
    ensures |r| == |text|
  {
    if text == [] then [] else [Value(text[0])] + Values(text[1..])
  }

  lemma {:induction false} ValuesOfSymbols(digits: seq<Digit>)
    ensures Values(Symbols(digits)) == digits
  {
    if digits != [] {
      ValuesOfSymbols(digits[1..]);
      assert Symbols(digits)[1..] == Symbols(digits[1..]);
      assert digits == [digits[0]] + digits[1..];
    }
  }

  // ---- Identities

  function Encode(bytes: Bytes): (r: seq<Unit>)
    ensures Spellable(r)
  {
    Symbols(Digits(bytes))
  }

  function Decode(text: seq<Unit>): Bytes
    requires Spellable(text)
  {
    Packed(Values(text))
  }

  /** Every byte string comes back from its spelling, whose length depends only on its own. */
  lemma {:induction false} DecodeInverts(bytes: Bytes)
    ensures Decode(Encode(bytes)) == bytes
    ensures |Encode(bytes)| == EncodedLength(|bytes|)
  {
    ValuesOfSymbols(Digits(bytes));
    PackedDigits(bytes);
    DigitsLength(bytes);
  }

  /** The check with both of its limits. */
  function Identity(text: seq<Unit>, maximum: nat, encodedMaximum: nat): Option<Bytes>
  {
    if |text| > encodedMaximum || text == [] || !Spellable(text) then None
    else
      var bytes := Decode(text);
      if 1 <= |bytes| <= maximum && Encode(bytes) == text then Some(bytes) else None
  }

  /** Exactly one spelling of each identity within the limits is accepted, and it names that identity. */
  lemma {:induction false} OneSpelling(text: seq<Unit>, maximum: nat, encodedMaximum: nat, bytes: Bytes)
    ensures Identity(text, maximum, encodedMaximum) == Some(bytes) <==>
      text == Encode(bytes) && 1 <= |bytes| <= maximum && |text| <= encodedMaximum
  {
    DecodeInverts(bytes);
  }

  /** A limit on the text that the byte limit already implies changes no verdict. */
  lemma {:induction false} LengthGuardIsIdle(text: seq<Unit>, maximum: nat, encodedMaximum: nat)
    requires EncodedLength(maximum) <= encodedMaximum
    ensures Identity(text, maximum, encodedMaximum) == Identity(text, maximum, |text|)
  {
    if Spellable(text) {
      DecodeInverts(Decode(text));
    }
  }

  /** A smaller limit would refuse some identity. */
  lemma {:induction false} LengthGuardIsTight(maximum: nat, encodedMaximum: nat, bytes: Bytes)
    requires |bytes| == maximum > 0
    ensures Identity(Encode(bytes), maximum, encodedMaximum).Some? <==> EncodedLength(maximum) <= encodedMaximum
  {
    DecodeInverts(bytes);
  }

  /** The pairs of limits in use: each limit on the text is the least that changes no verdict. */
  lemma {:induction false} LimitsInUse(text: seq<Unit>)
    ensures Identity(text, 65536, 87382) == Identity(text, 65536, |text|)
    ensures Identity(text, 32, 43) == Identity(text, 32, |text|)
    ensures Identity(text, 256, 342) == Identity(text, 256, |text|)
    ensures EncodedLength(65536) == 87382 && EncodedLength(32) == 43 && EncodedLength(256) == 342
  {
    LengthGuardIsIdle(text, 65536, 87382);
    LengthGuardIsIdle(text, 32, 43);
    LengthGuardIsIdle(text, 256, 342);
  }

  // ---- The owner of a checkpoint

  datatype Owner<T> = Owner(kind: seq<Unit>, id: T)

  const RUN: seq<Unit> := [114, 117, 110]
  const COMPACT: seq<Unit> := [99, 111, 109, 112, 97, 99, 116]

  function DecodeOwner(value: Owner<seq<Unit>>): Option<Owner<Bytes>>
  {
    if value.kind != RUN && value.kind != COMPACT then None
    else match Identity(value.id, 65536, 87382)
      case None => None
      case Some(id) => Some(Owner(value.kind, id))
  }

  lemma {:induction false} OwnerIsCanonical(value: Owner<seq<Unit>>, owner: Owner<Bytes>)
    ensures DecodeOwner(value) == Some(owner) <==>
      && value == Owner(owner.kind, Encode(owner.id))
      && (owner.kind == RUN || owner.kind == COMPACT) && 1 <= |owner.id| <= 65536
  {
    OneSpelling(value.id, 65536, 87382, owner.id);
    DecodeInverts(owner.id);
  }

  // ---- A cancelled creation

  /** The two members of the record that are not fixed. */
  datatype Cancellation<T> = Cancellation(request: seq<Unit>, command: T)

  predicate IsRequest(text: seq<Unit>)
  {
    1 <= |text| <= 64 && forall i :: 0 <= i < |text| ==> InAlphabet(text[i]) || text[i] == 46 || text[i] == 126
  }

  function DecodeCancellation(value: Cancellation<seq<Unit>>): Option<Cancellation<Bytes>>
  {
    if !IsRequest(value.request) then None
    else match Identity(value.command, 256, 342)
      case None => None
      case Some(command) => Some(Cancellation(value.request, command))
  }

  function EncodeCancellation(value: Cancellation<Bytes>): Option<Cancellation<seq<Unit>>>
  {
    if !IsRequest(value.request) || |value.command| < 1 || |value.command| > 256 then None
    else Some(Cancellation(value.request, Encode(value.command)))
  }

  /** Encoding and decoding accept the same records and undo each other. */
  lemma {:induction false} CancellationRoundTrip(wire: Cancellation<seq<Unit>>, value: Cancellation<Bytes>)
    ensures DecodeCancellation(wire) == Some(value) <==> EncodeCancellation(value) == Some(wire)
  {
    OneSpelling(wire.command, 256, 342, value.command);
    DecodeInverts(value.command);
  }
}
