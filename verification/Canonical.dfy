/**
 The canonical schema bytes of clients/node/contract-manifest.mjs: integer-only JSON data written in a subset of
 the Erlang external term format, with the members of an object sorted by their encoded keys.
 */
module Canonical {
  import opened Bytes
  import opened Options
  import opened Unicode
  import opened Sequences

  type Text = seq<Unit>

  /** A JavaScript number, as far as the encoder distinguishes them. */
  datatype Number = Int(i: int) | NegativeZero | NonInteger

  datatype Value =
    | Null
    | Bool(b: bool)
    | Str(text: Text)
    | Num(n: Number)
    | Arr(items: seq<Value>)
    | Obj(members: seq<Member>)

  datatype Member = Member(key: Text, value: Value)

  const MAX_SAFE := 9007199254740991
  const LIMIT32 := 4294967296

  const NIL: Bytes := [110, 105, 108]
  const TRUE: Bytes := [116, 114, 117, 101]
  const FALSE: Bytes := [102, 97, 108, 115, 101]
  const LOOPEX_MAP: Bytes := [108, 111, 111, 112, 101, 120, 95, 109, 97, 112]

  // ---- Encoding

  function Atom(name: Bytes): Bytes
    requires |name| < 256
  {
    [119] + ([|name|] + name)
  }

  /** Four bytes, the most significant first. */
  function U32(n: nat): (r: Bytes)
    requires n < LIMIT32
    ensures |r| == 4
  {
    [n / 16777216, n / 65536 % 256, n / 256 % 256, n % 256]
  }

  function Binary(text: Text): Option<Bytes>
  {
    match Encoded(text)
    case None => None
    case Some(bytes) => if |bytes| < LIMIT32 then Some([109] + (U32(|bytes|) + bytes)) else None
  }

  function ListOf(n: nat, body: Bytes): Option<Bytes>
  {
    if n == 0 then Some([106])
    else if n < LIMIT32 then Some([108] + (U32(n) + (body + [106])))
    else None
  }

  /** The digits of a number in base 256, the least significant first. */
  function Digits(n: nat): Bytes
  {
    if n == 0 then [] else [n % 256] + Digits(n / 256)
  }

  /** The digit loop of the bignum form. */
  method DigitLoop(n: nat) returns (digits: Bytes)
    ensures digits == Digits(n)
  {
    digits := [];
    var magnitude := n;
    while magnitude > 0
      invariant digits + Digits(magnitude) == Digits(n)
    {
      Regroup(digits, [magnitude % 256], Digits(magnitude / 256));
      digits := digits + [magnitude % 256];
      magnitude := magnitude / 256;
    }
  }

  function Magnitude(i: int): nat { if i < 0 then -i else i }

  function EncodeInt(i: int): Option<Bytes>
  {
    if !(-MAX_SAFE <= i <= MAX_SAFE) then None
    else if 0 <= i <= 255 then Some([97] + [i])
    else if -2147483648 <= i <= 2147483647 then Some([98] + U32(if i < 0 then i + LIMIT32 else i))
    else if |Digits(Magnitude(i))| < 256 then
      Some([110] + ([|Digits(Magnitude(i))|] + ([if i < 0 then 1 else 0] + Digits(Magnitude(i)))))
    else None
  }

  function EncodeNumber(n: Number): Option<Bytes>
  {
    match n
    case NonInteger => None
    case NegativeZero => EncodeInt(0)
    case Int(i) => EncodeInt(i)
  }

  predicate IsByte(v: Value)
  {
    v.Num? && (v.n.NegativeZero? || (v.n.Int? && 0 <= v.n.i <= 255))
  }

  function ByteOf(v: Value): Byte
    requires IsByte(v)
  {
    if v.n.Int? then v.n.i else 0
  }

  predicate AllBytes(items: seq<Value>)
  {
    forall i | 0 <= i < |items| :: IsByte(items[i])
  }

  function BytesOf(items: seq<Value>): (r: Bytes)
    requires AllBytes(items)
    ensures |r| == |items|
  {
    if items == [] then [] else [ByteOf(items[0])] + BytesOf(items[1..])
  }

  /** Short nonempty arrays of bytes have a form of their own. */
  predicate ByteList(items: seq<Value>)
  {
    0 < |items| <= 65535 && AllBytes(items)
  }

  datatype Entry = Entry(key: Bytes, value: Bytes)

  /** The order of `Buffer.compare`. */
  predicate Less(a: Bytes, b: Bytes)
  {
    b != [] && (a == [] || a[0] < b[0] || (a[0] == b[0] && Less(a[1..], b[1..])))
  }

  function Insert(entry: Entry, entries: seq<Entry>): (r: seq<Entry>)
    ensures |r| == |entries| + 1
  {
    if entries == [] || !Less(entries[0].key, entry.key) then [entry] + entries
    else [entries[0]] + Insert(entry, entries[1..])
  }

  function Sorted(entries: seq<Entry>): (r: seq<Entry>)
    ensures |r| == |entries|
  {
    if entries == [] then [] else Insert(entries[0], Sorted(entries[1..]))
  }

  function Tuples(entries: seq<Entry>): Bytes
  {
    if entries == [] then [] else [104, 2] + (entries[0].key + (entries[0].value + Tuples(entries[1..])))
  }

  function Encode(v: Value): Option<Bytes>
    decreases v, 1
  {
    match v
    case Null => Some(Atom(NIL))
    case Bool(b) => Some(Atom(if b then TRUE else FALSE))
    case Str(text) => Binary(text)
    case Num(n) => EncodeNumber(n)
    case Arr(items) =>
      if ByteList(items) then Some([107] + ([|items| / 256, |items| % 256] + BytesOf(items)))
      else
        var body := EncodeItems(items);
        if body.None? then None else ListOf(|items|, body.value)
    case Obj(members) =>
      var entries := EncodeMembers(members);
      if entries.None? then None
      else
        var list := ListOf(|members|, Tuples(Sorted(entries.value)));
        if list.None? then None else Some([104] + ([2] + (Atom(LOOPEX_MAP) + list.value)))
  }

  function EncodeItems(items: seq<Value>): Option<Bytes>
    decreases items, 0
  {
    if items == [] then Some([])
    else
      var first, rest := Encode(items[0]), EncodeItems(items[1..]);
      if first.None? || rest.None? then None else Some(first.value + rest.value)
  }

  function EncodeMembers(members: seq<Member>): Option<seq<Entry>>
    decreases members, 0
  {
    if members == [] then Some([])
    else
      var key, value, rest := Binary(members[0].key), Encode(members[0].value), EncodeMembers(members[1..]);
      if key.None? || value.None? || rest.None? then None
      else Some([Entry(key.value, value.value)] + rest.value)
  }

  /** The preimage of a schema digest. */
  function CanonicalBytes(v: Value): Option<Bytes>
  {
    var encoded := Encode(v);
    if encoded.None? then None else Some([131] + encoded.value)
  }

  // ---- Decoding

  datatype Parsed<T> = Parsed(value: T, rest: Bytes)

  function TakeBytes(b: Bytes, n: nat): Option<Parsed<Bytes>>
  {
    if |b| < n then None else Some(Parsed(b[..n], b[n..]))
  }

  function TakeU32(b: seq<int>): Option<nat>
  {
    if |b| < 4 then None
    else
      var n := b[0] * 16777216 + b[1] * 65536 + b[2] * 256 + b[3];
      if n < 0 then None else Some(n)
  }

  function FromDigits(digits: seq<int>): int
  {
    if digits == [] then 0 else digits[0] + 256 * FromDigits(digits[1..])
  }

  function ItemsOf(bytes: Bytes): seq<Value>
  {
    if bytes == [] then [] else [Num(Int(bytes[0]))] + ItemsOf(bytes[1..])
  }

  function DecodeAtom(b: Bytes): Option<Parsed<Value>>
  {
    if b == [] then None
    else
      match TakeBytes(b[1..], b[0])
      case None => None
      case Some(Parsed(name, rest)) =>
        if name == NIL then Some(Parsed(Null, rest))
        else if name == TRUE then Some(Parsed(Bool(true), rest))
        else if name == FALSE then Some(Parsed(Bool(false), rest))
        else None
  }

  function DecodeText(b: Bytes): Option<Parsed<Text>>
  {
    match TakeU32(b)
    case None => None
    case Some(n) =>
      match TakeBytes(b[4..], n)
      case None => None
      case Some(Parsed(bytes, rest)) =>
        match Decoded(bytes)
        case None => None
        case Some(text) => Some(Parsed(text, rest))
  }

  function DecodeInt32(b: Bytes): Option<Parsed<Value>>
  {
    match TakeU32(b)
    case None => None
    case Some(n) => Some(Parsed(Num(Int(if n < 2147483648 then n else n - LIMIT32)), b[4..]))
  }

  function DecodeBig(b: Bytes): Option<Parsed<Value>>
  {
    if |b| < 2 then None
    else
      match TakeBytes(b[2..], b[0])
      case None => None
      case Some(Parsed(digits, rest)) =>
        Some(Parsed(Num(Int(if b[1] == 0 then FromDigits(digits) else -FromDigits(digits))), rest))
  }

  function DecodeByteList(b: Bytes): Option<Parsed<Value>>
  {
    if |b| < 2 then None
    else
      var high: int, low: int := b[0], b[1];
      match TakeBytes(b[2..], high * 256 + low)
      case None => None
      case Some(Parsed(bytes, rest)) => Some(Parsed(Arr(ItemsOf(bytes)), rest))
  }

  function Decode(b: Bytes): (r: Option<Parsed<Value>>)
    ensures r.Some? ==> |r.value.rest| < |b|
    decreases |b|, 0
  {
    if b == [] then None
    else if b[0] == 119 then DecodeAtom(b[1..])
    else if b[0] == 97 then (if |b| < 2 then None else Some(Parsed(Num(Int(b[1])), b[2..])))
    else if b[0] == 98 then DecodeInt32(b[1..])
    else if b[0] == 110 then DecodeBig(b[1..])
    else if b[0] == 109 then
      match DecodeText(b[1..])
      case None => None
      case Some(Parsed(text, rest)) => Some(Parsed(Str(text), rest))
    else if b[0] == 106 then Some(Parsed(Arr([]), b[1..]))
    else if b[0] == 107 then DecodeByteList(b[1..])
    else if b[0] == 108 then
      match TakeU32(b[1..])
      case None => None
      case Some(n) =>
        match DecodeItems(n, b[5..])
        case None => None
        case Some(Parsed(items, rest)) =>
          if rest != [] && rest[0] == 106 then Some(Parsed(Arr(items), rest[1..])) else None
    else if b[0] == 104 then
      if |b| < 14 || b[1..14] != [2] + Atom(LOOPEX_MAP) then None
      else DecodeObject(b[14..])
    else None
  }

  function DecodeObject(b: Bytes): (r: Option<Parsed<Value>>)
    ensures r.Some? ==> |r.value.rest| <= |b|
    decreases |b|, 1
  {
    if b == [] then None
    else if b[0] == 106 then Some(Parsed(Obj([]), b[1..]))
    else if b[0] == 108 then
      match TakeU32(b[1..])
      case None => None
      case Some(n) =>
        match DecodeMembers(n, b[5..])
        case None => None
        case Some(Parsed(members, rest)) =>
          if rest != [] && rest[0] == 106 then Some(Parsed(Obj(members), rest[1..])) else None
    else None
  }

  function DecodeItems(n: nat, b: Bytes): (r: Option<Parsed<seq<Value>>>)
    ensures r.Some? ==> |r.value.rest| <= |b|
    decreases |b|, 2
  {
    if n == 0 then Some(Parsed([], b))
    else
      match Decode(b)
      case None => None
      case Some(Parsed(item, rest)) =>
        match DecodeItems(n - 1, rest)
        case None => None
        case Some(Parsed(items, rest')) => Some(Parsed([item] + items, rest'))
  }

  function DecodeMembers(n: nat, b: Bytes): (r: Option<Parsed<seq<Member>>>)
    ensures r.Some? ==> |r.value.rest| <= |b|
    decreases |b|, 2
  {
    if n == 0 then Some(Parsed([], b))
    else if |b| < 3 || b[..3] != [104, 2, 109] then None
    else
      match DecodeText(b[3..])
      case None => None
      case Some(Parsed(key, rest)) =>
        match if |rest| < |b| then Decode(rest) else None
        case None => None
        case Some(Parsed(value, rest')) =>
          match DecodeMembers(n - 1, rest')
          case None => None
          case Some(Parsed(members, rest'')) => Some(Parsed([Member(key, value)] + members, rest''))
  }
}
