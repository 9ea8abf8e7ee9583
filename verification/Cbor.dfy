/** The wire value model, its deterministic encoding, and the decoding rule. */
module Cbor {
  import opened Bytes
  import opened Sorting

  /** The eight shapes of the wire. `NegInt(u)` is the integer -1-u, text is its Go string's bytes, and a
      float is its binary64 bit pattern. */
  datatype Value =
    | UInt(u: u64)
    | NegInt(u: u64)
    | Bytes(b: bytes)
    | Text(t: bytes)
    | List(items: seq<Value>)
    | Map(entries: seq<Entry>)
    | Null
    | Float(bits: u64)

  datatype Entry = Entry(key: Value, val: Value)

  const MAX_NESTING := 64
  const MAX_ELEMENTS := 131072

  // ---------------------------------------------------------------- encoding

  /** appendHead: the major type with its argument in the fewest bytes; eight bytes keep what uint64 keeps. */
  function Head(major: nat, n: nat): (h: bytes)
    requires major < 8
    ensures 1 <= |h| <= 9
  {
    if n <= 23 then [major * 32 + n]
    else if n <= 0xFF then [major * 32 + 24] + BigEndian(n, 1)
    else if n <= 0xFFFF then [major * 32 + 25] + BigEndian(n, 2)
    else if n <= 0xFFFF_FFFF then [major * 32 + 26] + BigEndian(n, 4)
    else [major * 32 + 27] + BigEndian(n, 8)
  }

  /** One map entry's key bytes and value bytes, as appendMap pairs them. */
  datatype Pair = Pair(key: bytes, val: bytes)

  function Encode(v: Value): (b: bytes)
    ensures b != []
    decreases v, 0
  {
    match v
    case UInt(u) => Head(0, u)
    case NegInt(u) => Head(1, u)
    case Bytes(b) => Head(2, |b|) + b
    case Text(t) => Head(3, |t|) + t
    case List(items) => Head(4, |items|) + EncodeAll(items)
    case Map(entries) =>
      Head(5, |entries|) + JoinPairs(Sort(PairBefore, EncodePairs(entries)))
    case Null => [0xF6]
    case Float(bits) => [0xFB] + BigEndian(bits, 8)
  }

  function EncodeAll(items: seq<Value>): bytes
    decreases items, 1
  {
    if items == [] then [] else Encode(items[0]) + EncodeAll(items[1..])
  }

  function EncodePairs(entries: seq<Entry>): (ps: seq<Pair>)
    ensures |ps| == |entries|
    decreases entries, 2
  {
    if entries == [] then [] else [EncodePair(entries[0])] + EncodePairs(entries[1..])
  }

  function EncodePair(e: Entry): Pair
    decreases e, 1
  {
    Pair(Encode(e.key), Encode(e.val))
  }

  function JoinPairs(ps: seq<Pair>): bytes {
    if ps == [] then [] else ps[0].key + ps[0].val + JoinPairs(ps[1..])
  }

  /** The order appendMap hands to sort.Slice. */
  predicate PairBefore(p: Pair, q: Pair) { Less(p.key, q.key) }

  // ---------------------------------------------------------------- decoding

  datatype Refusal =
    | TrailingBytes | BadKey | DuplicateKey | InvalidText | NestingTooDeep
    | IntegerOutOfRange | TooManyElements | Malformed

  /** What reading at one point of the input gives: a value, the bytes after it and the budget left. */
  datatype Parsed<+T> = Ok(value: T, rest: bytes, budget: nat) | Refused(why: Refusal)

  datatype Decoded = Accepted(value: Value) | Rejected(why: Refusal)

  datatype Argument = Arg(n: u64, rest: bytes) | NoArg

  /** How many bytes follow a head for additional information 24 to 27. */
  function ArgumentWidth(ai: nat): nat
    requires 24 <= ai <= 27
  {
    if ai == 24 then 1 else if ai == 25 then 2 else if ai == 26 then 4 else 8
  }

  /** decoder.argument: the argument itself up to 23, or the bytes after the head in the sender's width. */
  function ReadArgument(ai: nat, s: bytes): (a: Argument)
    ensures a.Arg? ==> |a.rest| <= |s|
  {
    if ai <= 23 then Arg(ai, s)
    else if 24 <= ai <= 27 then
      var width := ArgumentWidth(ai);
      if width > |s| then NoArg
      else
        FromBigEndianBound(s[..width]); Pow256Values();
        Arg(FromBigEndian(s[..width]), s[width..])
    else NoArg
  }

  /** A binary64 pattern that is neither NaN nor infinite. */
  predicate Finite(bits: u64) { (bits / 0x10_0000_0000_0000) % 2048 != 2047 }

  function Pow2(n: nat): nat {
    if n == 0 then 1 else 2 * Pow2(n - 1)
  }

  lemma Pow2Values()
    ensures Pow2(10) == 1024 && Pow2(23) == 0x80_0000
  {
    assert Pow2(5) == 32;
    assert Pow2(10) == 32 * Pow2(5);
    assert Pow2(15) == 32 * Pow2(10);
    assert Pow2(20) == 32 * Pow2(15);
  }

  /** The binary64 pattern of (-1)^sign * frac/top * 2^exponent. Doubling `frac` until its leading bit is the
      implicit one takes a subnormal to the normal form binary64 holds it in. */
  function Widen(sign: nat, exponent: int, frac: nat, top: nat, shift: nat, n: nat): u64
    requires sign <= 1 && 0 < top && top * shift == 0x10_0000_0000_0000
    requires 0 < frac < 2 * top && top <= frac * Pow2(n) && n - 1022 <= exponent < 1024
    decreases n
  {
    if frac >= top then
      MantissaFits(frac - top, top, shift);
      sign * TWO63 + (exponent + 1023) * 0x10_0000_0000_0000 + (frac - top) * shift
    else
      DoubledReaches(frac, n);
      Widen(sign, exponent - 1, 2 * frac, top, shift, n - 1)
  }

  lemma MantissaFits(m: nat, top: nat, shift: nat)
    requires m < top && 0 < top * shift
    ensures 0 <= m * shift < top * shift
  {
    assert (top - m) * shift > 0;
  }

  lemma DoubledReaches(frac: nat, n: nat)
    ensures n > 0 ==> 2 * frac * Pow2(n - 1) == frac * Pow2(n)
    ensures n == 0 ==> frac * Pow2(n) == frac
  {
  }

  /** A half float as binary64; an all-ones exponent is some pattern that is not finite. */
  function FromHalf(h: nat): u64
    requires h < 0x1_0000
  {
    var sign, exponent, frac := h / 0x8000, (h / 0x400) % 32, h % 0x400;
    Pow2Values();
    if exponent == 31 then 0x7FF0_0000_0000_0000
    else if exponent == 0 && frac == 0 then sign * TWO63
    else if exponent == 0 then Widen(sign, -14, frac, 0x400, 0x400_0000_0000, 10)
    else Widen(sign, exponent - 15, 0x400 + frac, 0x400, 0x400_0000_0000, 0)
  }

  /** A single float as binary64. */
  function FromSingle(f: nat): u64
    requires f < 0x1_0000_0000
  {
    var sign, exponent, frac := f / 0x8000_0000, (f / 0x80_0000) % 256, f % 0x80_0000;
    Pow2Values();
    if exponent == 255 then 0x7FF0_0000_0000_0000
    else if exponent == 0 && frac == 0 then sign * TWO63
    else if exponent == 0 then
      assert frac * Pow2(23) >= 0x80_0000;
      Widen(sign, -126, frac, 0x80_0000, 0x2000_0000, 23)
    else Widen(sign, exponent - 127, 0x80_0000 + frac, 0x80_0000, 0x2000_0000, 0)
  }

  /** floatFrom: a half, a single or a double by its length. */
  function FloatFrom(b: bytes): u64
    requires |b| in {2, 4, 8}
  {
    FromBigEndianBound(b); Pow256Values();
    if |b| == 2 then FromHalf(FromBigEndian(b))
    else if |b| == 4 then FromSingle(FromBigEndian(b))
    else FromBigEndian(b)
  }

  /** decoder.simpleOrFloat: null, or a finite half, single or double float. */
  function SimpleOrFloat(ai: nat, s: bytes, budget: nat): (r: Parsed<Value>)
    ensures r.Ok? ==> |r.rest| <= |s|
  {
    if ai == 22 then
      if budget == 0 then Refused(TooManyElements) else Ok(Null, s, budget - 1)
    else if 25 <= ai <= 27 then
      var width := ArgumentWidth(ai);
      if width > |s| then Refused(Malformed)
      else if budget == 0 then Refused(TooManyElements)
      else if !Finite(FloatFrom(s[..width])) then Refused(Malformed)
      else Ok(Float(FloatFrom(s[..width])), s[width..], budget - 1)
    else if ai <= 24 then
      if ReadArgument(ai, s).NoArg? then Refused(Malformed)
      else if budget == 0 then Refused(TooManyElements)
      else Refused(Malformed)
    else Refused(Malformed)
  }

  predicate IsKey(k: Value) { k.Text? || k.UInt? || k.NegInt? }

  /** decoder.item at the front of `s`, inside `depth` arrays and maps. */
  function Item(s: bytes, budget: nat, depth: nat): (r: Parsed<Value>)
    ensures r.Ok? ==> |r.rest| < |s|
    decreases |s|, 0
  {
    if s == [] then Refused(Malformed)
    else if s[0] / 32 == 7 then SimpleOrFloat(s[0] % 32, s[1..], budget)
    else
      match ReadArgument(s[0] % 32, s[1..])
      case NoArg => Refused(Malformed)
      case Arg(n, rest) =>
        if budget == 0 then Refused(TooManyElements)
        else Body(s[0] / 32, n, rest, budget - 1, depth)
  }

  /** What follows an item's head, argument and count. */
  function Body(major: nat, n: u64, s: bytes, budget: nat, depth: nat): (r: Parsed<Value>)
    requires major < 7
    ensures r.Ok? ==> |r.rest| <= |s|
    decreases |s|, 3
  {
    match major
    case 0 => if n >= TWO63 then Refused(IntegerOutOfRange) else Ok(UInt(n), s, budget)
    case 1 => if n >= TWO63 then Refused(IntegerOutOfRange) else Ok(NegInt(n), s, budget)
    case 2 => if n > |s| then Refused(Malformed) else Ok(Bytes(s[..n]), s[n..], budget)
    case 3 =>
      if n > |s| then Refused(Malformed)
      else if !ValidUtf8(s[..n]) then Refused(InvalidText)
      else Ok(Text(s[..n]), s[n..], budget)
    case 4 =>
      if depth >= MAX_NESTING then Refused(NestingTooDeep)
      else
        (match Items(n, s, budget, depth + 1)
         case Ok(items, rest, left) => Ok(List(items), rest, left)
         case Refused(why) => Refused(why))
    case 5 =>
      if depth >= MAX_NESTING then Refused(NestingTooDeep)
      else
        (match Entries(n, s, budget, depth + 1, {})
         case Ok(entries, rest, left) => Ok(Map(entries), rest, left)
         case Refused(why) => Refused(why))
    case _ => Refused(Malformed)
  }

  /** decoder.list's loop: `n` items one after another. */
  function Items(n: nat, s: bytes, budget: nat, depth: nat): (r: Parsed<seq<Value>>)
    ensures r.Ok? ==> |r.rest| <= |s|
    decreases |s|, 1
  {
    if n == 0 then Ok([], s, budget)
    else
      match Item(s, budget, depth)
      case Refused(why) => Refused(why)
      case Ok(v, rest, left) =>
        match Items(n - 1, rest, left, depth)
        case Refused(why) => Refused(why)
        case Ok(items, rest', left') => Ok([v] + items, rest', left')
  }

  /** A map entry's key and then its value. */
  function KeyAndValue(s: bytes, budget: nat, depth: nat): (r: Parsed<Entry>)
    ensures r.Ok? ==> |r.rest| < |s|
    decreases |s|, 1
  {
    match Item(s, budget, depth)
    case Refused(why) => Refused(why)
    case Ok(key, rest, left) =>
      match Item(rest, left, depth)
      case Refused(why) => Refused(why)
      case Ok(val, rest', left') => Ok(Entry(key, val), rest', left')
  }

  /** decoder.mapOf's loop: `n` entries, none with a key in `seen`; an entry's value decodes before its key is
      judged. Two admitted keys are the same key when their kind and text or argument are, that is, when they
      are equal values. */
  function Entries(n: nat, s: bytes, budget: nat, depth: nat, seen: set<Value>): (r: Parsed<seq<Entry>>)
    ensures r.Ok? ==> |r.rest| <= |s|
    decreases |s|, 2
  {
    if n == 0 then Ok([], s, budget)
    else
      match KeyAndValue(s, budget, depth)
      case Refused(why) => Refused(why)
      case Ok(e, rest, left) =>
        if !IsKey(e.key) then Refused(BadKey)
        else if e.key in seen then Refused(DuplicateKey)
        else
          match Entries(n - 1, rest, left, depth, seen + {e.key})
          case Refused(why) => Refused(why)
          case Ok(entries, rest', left') => Ok([e] + entries, rest', left')
  }

  /** Decode: exactly one value, nothing after it. */
  function Decode(data: bytes): Decoded {
    match Item(data, MAX_ELEMENTS, 0)
    case Refused(why) => Rejected(why)
    case Ok(v, rest, _) => if rest != [] then Rejected(TrailingBytes) else Accepted(v)
  }

  // ------------------------------------------------- the rule, said of values

  /** How many items a value holds, itself included. */
  function Count(v: Value): (n: nat)
    ensures n >= 1
    decreases v, 0
  {
    match v
    case List(items) => 1 + CountAll(items)
    case Map(entries) => 1 + CountEntries(entries)
    case _ => 1
  }

  function CountAll(items: seq<Value>): nat
    decreases items, 1
  {
    if items == [] then 0 else Count(items[0]) + CountAll(items[1..])
  }

  function CountEntries(entries: seq<Entry>): nat
    decreases entries, 2
  {
    if entries == [] then 0 else CountEntry(entries[0]) + CountEntries(entries[1..])
  }

  function CountEntry(e: Entry): nat
    decreases e, 1
  {
    Count(e.key) + Count(e.val)
  }

  /** What the decoding rule admits at `depth`, apart from the item budget: integers in the signed 64-bit range,
      text in UTF-8, finite floats, nesting below `max`, and maps of distinct text or integer keys. */
  predicate Admissible(v: Value, depth: nat, max: nat)
    decreases v, 0
  {
    match v
    case UInt(u) => u < TWO63
    case NegInt(u) => u < TWO63
    case Bytes(_) => true
    case Text(t) => ValidUtf8(t)
    case Null => true
    case Float(bits) => Finite(bits)
    case List(items) => depth < max && AdmissibleAll(items, depth + 1, max)
    case Map(entries) => depth < max && AdmissibleEntries(entries, depth + 1, max) && DistinctKeys(entries)
  }

  predicate AdmissibleAll(items: seq<Value>, depth: nat, max: nat)
    decreases items, 1
  {
    items == [] || (Admissible(items[0], depth, max) && AdmissibleAll(items[1..], depth, max))
  }

  predicate AdmissibleEntries(entries: seq<Entry>, depth: nat, max: nat)
    decreases entries, 2
  {
    entries == [] || (AdmissibleEntry(entries[0], depth, max) && AdmissibleEntries(entries[1..], depth, max))
  }

  predicate AdmissibleEntry(e: Entry, depth: nat, max: nat)
    decreases e, 1
  {
    IsKey(e.key) && Admissible(e.key, depth, max) && Admissible(e.val, depth, max)
  }

  function Keys(entries: seq<Entry>): set<Value> {
    if entries == [] then {} else {entries[0].key} + Keys(entries[1..])
  }

  predicate DistinctKeys(entries: seq<Entry>) {
    entries == [] || (entries[0].key !in Keys(entries[1..]) && DistinctKeys(entries[1..]))
  }

  /** What a Go value always satisfies: every slice in it is shorter than 2^63. */
  predicate Fits(v: Value)
    decreases v, 0
  {
    match v
    case Bytes(b) => |b| < TWO63
    case Text(t) => |t| < TWO63
    case List(items) => |items| < TWO63 && FitsAll(items)
    case Map(entries) => |entries| < TWO63 && FitsEntries(entries)
    case _ => true
  }

  predicate FitsAll(items: seq<Value>)
    decreases items, 1
  {
    items == [] || (Fits(items[0]) && FitsAll(items[1..]))
  }

  predicate FitsEntries(entries: seq<Entry>)
    decreases entries, 2
  {
    entries == [] || (FitsEntry(entries[0]) && FitsEntries(entries[1..]))
  }

  predicate FitsEntry(e: Entry)
    decreases e, 1
  {
    Fits(e.key) && Fits(e.val)
  }

  /** The whole rule: admissible from depth 0 and within the item budget. */
  predicate Rule(v: Value) {
    Admissible(v, 0, MAX_NESTING) && Count(v) <= MAX_ELEMENTS
  }
}
