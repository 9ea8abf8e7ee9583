/** Reading back what was written: a value serialized with its entries in any order decodes to itself exactly
    when the decoding rule admits it. */
module CborRoundTrip {
  import opened Bytes
  import opened Cbor

  /** The encoding of a value with every map's entries in the order they stand. */
  function Serialize(v: Value): (b: bytes)
    ensures b != []
    decreases v, 0
  {
    match v
    case UInt(u) => Head(0, u)
    case NegInt(u) => Head(1, u)
    case Bytes(b) => Head(2, |b|) + b
    case Text(t) => Head(3, |t|) + t
    case List(items) => Head(4, |items|) + SerializeAll(items)
    case Map(entries) => Head(5, |entries|) + SerializeEntries(entries)
    case Null => [0xF6]
    case Float(bits) => [0xFB] + BigEndian(bits, 8)
  }

  function SerializeAll(items: seq<Value>): bytes
    decreases items, 1
  {
    if items == [] then [] else Serialize(items[0]) + SerializeAll(items[1..])
  }

  function SerializeEntries(entries: seq<Entry>): bytes
    decreases entries, 2
  {
    if entries == [] then [] else SerializeEntry(entries[0]) + SerializeEntries(entries[1..])
  }

  function SerializeEntry(e: Entry): bytes
    decreases e, 1
  {
    Serialize(e.key) + Serialize(e.val)
  }

  lemma {:induction false} WideHeadReadsBack(major: nat, ai: nat, n: u64, rest: bytes)
    requires major < 8 && 24 <= ai <= 27 && n < Pow256(ArgumentWidth(ai))
    ensures var s := [major * 32 + ai] + BigEndian(n, ArgumentWidth(ai)) + rest;
            s[0] / 32 == major && s[0] % 32 == ai && ReadArgument(ai, s[1..]) == Arg(n, rest)
  {
    var width := ArgumentWidth(ai);
    var tail := BigEndian(n, width) + rest;
    assert ([major * 32 + ai] + BigEndian(n, width) + rest)[1..] == tail;
    assert tail[..width] == BigEndian(n, width) && tail[width..] == rest;
    BigEndianRoundTrip(n, width);
  }

  /** A head reads back to its major type and argument, in whichever width it took. */
  lemma {:induction false} HeadReadsBack(major: nat, n: u64, rest: bytes)
    requires major < 8
    ensures var s := Head(major, n) + rest;
            && s[0] / 32 == major
            && ReadArgument(s[0] % 32, s[1..]) == Arg(n, rest)
  {
    Pow256Values();
    if n <= 23 {
      assert (Head(major, n) + rest)[1..] == rest;
    } else {
      var ai := if n <= 0xFF then 24 else if n <= 0xFFFF then 25 else if n <= 0xFFFF_FFFF then 26 else 27;
      WideHeadReadsBack(major, ai, n, rest);
    }
  }

  /** Reading past a head reaches the item's body with one item counted. */
  lemma {:induction false} ItemAfterHead(major: nat, n: u64, rest: bytes, budget: nat, depth: nat)
    requires major < 7
    ensures HeadThen(Head(major, n) + rest, major, n, rest, budget, depth)
  {
    HeadReadsBack(major, n, rest);
  }

  ghost predicate Reads<T>(r: Parsed<T>, admitted: bool, v: T, rest: bytes, count: nat, budget: nat) {
    if admitted && count <= budget then r == Ok(v, rest, budget - count) else r.Refused?
  }

  /** The heart of the codec: whatever follows a serialized value and whatever budget and depth it is met at, the
      decoder gives that value back, the bytes after it and the budget less its items, if and only if the rule
      admits it there and its items fit the budget. */
  lemma {:induction false} ItemReadsBack(v: Value, rest: bytes, budget: nat, depth: nat)
    requires Fits(v)
    ensures Reads(Item(Serialize(v) + rest, budget, depth), Admissible(v, depth, MAX_NESTING), v, rest,
                  Count(v), budget)
    decreases v, 1
  {
    match v
    case List(_) => ListReadsBack(v, rest, budget, depth);
    case Map(_) => MapReadsBack(v, rest, budget, depth);
    case _ => ScalarReadsBack(v, rest, budget, depth);
  }

  lemma {:induction false} ListReadsBack(v: Value, rest: bytes, budget: nat, depth: nat)
    requires Fits(v) && v.List?
    ensures Reads(Item(Serialize(v) + rest, budget, depth), Admissible(v, depth, MAX_NESTING), v, rest,
                  Count(v), budget)
    decreases v, 0
  {
    var body := SerializeAll(v.items) + rest;
    assert Serialize(v) + rest == Head(4, |v.items|) + body;
    ItemAfterHead(4, |v.items|, body, budget, depth);
    if budget > 0 && depth < MAX_NESTING {
      ItemsReadBack(v.items, rest, budget - 1, depth + 1);
    }
    ListBody(Serialize(v) + rest, body, v.items, rest, budget, depth);
  }

  lemma {:induction false} MapReadsBack(v: Value, rest: bytes, budget: nat, depth: nat)
    requires Fits(v) && v.Map?
    ensures Reads(Item(Serialize(v) + rest, budget, depth), Admissible(v, depth, MAX_NESTING), v, rest,
                  Count(v), budget)
    decreases v, 0
  {
    var body := SerializeEntries(v.entries) + rest;
    assert Serialize(v) + rest == Head(5, |v.entries|) + body;
    ItemAfterHead(5, |v.entries|, body, budget, depth);
    if budget > 0 && depth < MAX_NESTING {
      EntriesReadBack(v.entries, rest, budget - 1, depth + 1, {});
    }
    MapBody(Serialize(v) + rest, body, v.entries, rest, budget, depth);
  }

  lemma {:induction false} ScalarReadsBack(v: Value, rest: bytes, budget: nat, depth: nat)
    requires Fits(v) && !v.List? && !v.Map?
    ensures Reads(Item(Serialize(v) + rest, budget, depth), Admissible(v, depth, MAX_NESTING), v, rest, 1, budget)
  {
    match v
    case UInt(u) => ItemAfterHead(0, u, rest, budget, depth);
    case NegInt(u) => ItemAfterHead(1, u, rest, budget, depth);
    case Bytes(b) => StringReadsBack(2, b, rest, budget, depth);
    case Text(t) => StringReadsBack(3, t, rest, budget, depth);
    case Null =>
      assert (Serialize(v) + rest)[1..] == rest;
    case Float(bits) => FloatReadsBack(bits, rest, budget);
  }

  lemma {:induction false} StringReadsBack(major: nat, b: bytes, rest: bytes, budget: nat, depth: nat)
    requires 2 <= major <= 3 && |b| < TWO63
    ensures Reads(Item(Head(major, |b|) + b + rest, budget, depth), major == 2 || ValidUtf8(b),
                  if major == 2 then Bytes(b) else Text(b), rest, 1, budget)
  {
    assert Head(major, |b|) + b + rest == Head(major, |b|) + (b + rest);
    ItemAfterHead(major, |b|, b + rest, budget, depth);
    StringBody(Head(major, |b|) + b + rest, major, b, rest, budget, depth);
  }

  lemma {:induction false} StringBody(s: bytes, major: nat, b: bytes, rest: bytes, budget: nat, depth: nat)
    requires 2 <= major <= 3 && |b| < TWO63 && HeadThen(s, major, |b|, b + rest, budget, depth)
    ensures Reads(Item(s, budget, depth), major == 2 || ValidUtf8(b),
                  if major == 2 then Bytes(b) else Text(b), rest, 1, budget)
  {
    assert (b + rest)[..|b|] == b && (b + rest)[|b|..] == rest;
  }

  lemma {:induction false} FloatReadsBack(bits: u64, rest: bytes, budget: nat)
    ensures Reads(SimpleOrFloat(27, BigEndian(bits, 8) + rest, budget), Finite(bits), Float(bits), rest, 1, budget)
    ensures var s := Serialize(Float(bits)) + rest; s[0] == 0xFB && s[1..] == BigEndian(bits, 8) + rest
  {
    EightBytes(bits, BigEndian(bits, 8) + rest, rest);
    DoubleReads(BigEndian(bits, 8) + rest, bits, rest, budget);
  }

  lemma {:induction false} EightBytes(bits: u64, s: bytes, rest: bytes)
    requires s == BigEndian(bits, 8) + rest
    ensures |s| >= 8 && s[8..] == rest && FromBigEndian(s[..8]) == bits
  {
    Pow256Values();
    assert s[..8] == BigEndian(bits, 8);
    BigEndianRoundTrip(bits, 8);
  }

  lemma {:induction false} DoubleReads(s: bytes, bits: u64, rest: bytes, budget: nat)
    requires |s| >= 8 && s[8..] == rest && FromBigEndian(s[..8]) == bits
    ensures Reads(SimpleOrFloat(27, s, budget), Finite(bits), Float(bits), rest, 1, budget)
  {
  }

  /** Reading at `s` an item whose head has major type `major` and argument `n`, with `body` after it. */
  ghost predicate HeadThen(s: bytes, major: nat, n: nat, body: bytes, budget: nat, depth: nat)
    requires major < 7 && n < TWO64
  {
    Item(s, budget, depth) == if budget == 0 then Refused(TooManyElements) else Body(major, n, body, budget - 1, depth)
  }

  lemma {:induction false} ListBody(s: bytes, body: bytes, items: seq<Value>, rest: bytes, budget: nat, depth: nat)
    requires |items| < TWO63 && HeadThen(s, 4, |items|, body, budget, depth)
    requires budget > 0 && depth < MAX_NESTING ==>
               Reads(Items(|items|, body, budget - 1, depth + 1),
                     AdmissibleAll(items, depth + 1, MAX_NESTING), items, rest, CountAll(items), budget - 1)
    ensures var v := List(items);
            Reads(Item(s, budget, depth), Admissible(v, depth, MAX_NESTING), v, rest, Count(v), budget)
  {
  }

  lemma {:induction false} MapBody(s: bytes, body: bytes, entries: seq<Entry>, rest: bytes, budget: nat, depth: nat)
    requires |entries| < TWO63 && HeadThen(s, 5, |entries|, body, budget, depth)
    requires budget > 0 && depth < MAX_NESTING ==>
               Reads(Entries(|entries|, body, budget - 1, depth + 1, {}),
                     AdmissibleEntries(entries, depth + 1, MAX_NESTING) && DistinctKeys(entries),
                     entries, rest, CountEntries(entries), budget - 1)
    ensures var v := Map(entries);
            Reads(Item(s, budget, depth), Admissible(v, depth, MAX_NESTING), v, rest, Count(v), budget)
  {
  }

  lemma {:induction false} ItemsReadBack(items: seq<Value>, rest: bytes, budget: nat, depth: nat)
    requires FitsAll(items)
    ensures Reads(Items(|items|, SerializeAll(items) + rest, budget, depth),
                  AdmissibleAll(items, depth, MAX_NESTING), items, rest, CountAll(items), budget)
    decreases items, 2
  {
    if items == [] {
      assert SerializeAll(items) + rest == rest;
    } else {
      var after := SerializeAll(items[1..]) + rest;
      assert SerializeAll(items) + rest == Serialize(items[0]) + after;
      ItemReadsBack(items[0], after, budget, depth);
      if Admissible(items[0], depth, MAX_NESTING) && Count(items[0]) <= budget {
        ItemsReadBack(items[1..], rest, budget - Count(items[0]), depth);
        assert [items[0]] + items[1..] == items;
      }
    }
  }

  lemma {:induction false} EntriesReadBack(entries: seq<Entry>, rest: bytes, budget: nat, depth: nat, seen: set<Value>)
    requires FitsEntries(entries)
    ensures Reads(Entries(|entries|, SerializeEntries(entries) + rest, budget, depth, seen),
                  AdmissibleEntries(entries, depth, MAX_NESTING) && DistinctKeys(entries) && Keys(entries) !! seen,
                  entries, rest, CountEntries(entries), budget)
    decreases entries, 3
  {
    if entries == [] {
      assert SerializeEntries(entries) + rest == rest;
    } else {
      var after := SerializeEntries(entries[1..]) + rest;
      assert SerializeEntries(entries) + rest == SerializeEntry(entries[0]) + after;
      EntryReadsBack(entries[0], after, budget, depth);
      if AdmissibleEntry(entries[0], depth, MAX_NESTING) && CountEntry(entries[0]) <= budget
          && entries[0].key !in seen {
        var left := budget - CountEntry(entries[0]);
        EntriesReadBack(entries[1..], rest, left, depth, seen + {entries[0].key});
        assert [entries[0]] + entries[1..] == entries;
      }
    }
  }

  /** One entry: its key and then its value, or a refusal at either. */
  lemma {:induction false} EntryReadsBack(e: Entry, rest: bytes, budget: nat, depth: nat)
    requires FitsEntry(e)
    ensures Reads(KeyAndValue(SerializeEntry(e) + rest, budget, depth),
                  Admissible(e.key, depth, MAX_NESTING) && Admissible(e.val, depth, MAX_NESTING),
                  e, rest, CountEntry(e), budget)
    decreases e, 2
  {
    var after := Serialize(e.val) + rest;
    var keyOk, valOk := Admissible(e.key, depth, MAX_NESTING), Admissible(e.val, depth, MAX_NESTING);
    EntrySplits(e, rest);
    ItemReadsBack(e.key, after, budget, depth);
    if keyOk && Count(e.key) <= budget {
      ItemReadsBack(e.val, rest, budget - Count(e.key), depth);
    }
    EntryFrom(SerializeEntry(e) + rest, Serialize(e.key) + after, after, rest, e, keyOk, valOk, budget, depth);
  }

  lemma {:induction false} EntryFrom(s: bytes, t: bytes, after: bytes, rest: bytes, e: Entry, keyOk: bool, valOk: bool,
                                     budget: nat, depth: nat)
    requires s == t && Reads(Item(t, budget, depth), keyOk, e.key, after, Count(e.key), budget)
    requires keyOk && Count(e.key) <= budget ==>
               Reads(Item(after, budget - Count(e.key), depth), valOk, e.val, rest, Count(e.val), budget - Count(e.key))
    ensures Reads(KeyAndValue(s, budget, depth), keyOk && valOk, e, rest, CountEntry(e), budget)
  {
    KeyThenValue(t, after, rest, e, keyOk, valOk, Count(e.key), Count(e.val), budget, depth);
  }

  lemma {:induction false} KeyThenValue(s: bytes, after: bytes, rest: bytes, e: Entry, keyOk: bool, valOk: bool,
                                        n: nat, m: nat, budget: nat, depth: nat)
    requires Reads(Item(s, budget, depth), keyOk, e.key, after, n, budget)
    requires keyOk && n <= budget ==> Reads(Item(after, budget - n, depth), valOk, e.val, rest, m, budget - n)
    ensures Reads(KeyAndValue(s, budget, depth), keyOk && valOk, e, rest, n + m, budget)
  {
  }

  /** The major type a value's head carries; null and floats share one. */
  function Major(v: Value): nat {
    match v
    case UInt(_) => 0
    case NegInt(_) => 1
    case Bytes(_) => 2
    case Text(_) => 3
    case List(_) => 4
    case Map(_) => 5
    case _ => 7
  }

  /** What a head's argument says of a value: the integer, or the length of what follows. */
  function HeadArgument(v: Value): nat {
    match v
    case UInt(u) => u
    case NegInt(u) => u
    case Bytes(b) => |b|
    case Text(t) => |t|
    case List(items) => |items|
    case Map(entries) => |entries|
    case _ => 0
  }

  function AfterHead(v: Value): bytes {
    match v
    case Bytes(b) => b
    case Text(t) => t
    case List(items) => SerializeAll(items)
    case Map(entries) => SerializeEntries(entries)
    case _ => []
  }

  lemma {:induction false} SerializeHasHead(v: Value)
    requires Major(v) != 7
    ensures Serialize(v) == Head(Major(v), HeadArgument(v)) + AfterHead(v)
  {
    assert Head(Major(v), HeadArgument(v)) + [] == Head(Major(v), HeadArgument(v));
  }

  /** What the first bytes of a serialization say, whatever follows it. */
  lemma {:induction false} HeadOf(v: Value, r: bytes, s: bytes)
    requires Fits(v) && s == Serialize(v) + r
    ensures s != [] && s[0] / 32 == Major(v)
    ensures Major(v) != 7 ==> ReadArgument(s[0] % 32, s[1..]) == Arg(HeadArgument(v), AfterHead(v) + r)
  {
    if Major(v) != 7 {
      var head := Head(Major(v), HeadArgument(v));
      SerializeHasHead(v);
      assert s == head + (AfterHead(v) + r);
      HeadReadsBack(Major(v), HeadArgument(v), AfterHead(v) + r);
    } else {
      assert s[0] == Serialize(v)[0];
    }
  }

  lemma {:induction false} HeadsAgree(v: Value, w: Value, r: bytes, q: bytes)
    requires Fits(v) && Fits(w) && Serialize(v) + r == Serialize(w) + q
    ensures Major(w) == Major(v)
    ensures Major(v) != 7 ==> HeadArgument(w) == HeadArgument(v) && AfterHead(v) + r == AfterHead(w) + q
  {
    HeadOf(v, r, Serialize(v) + r);
    HeadOf(w, q, Serialize(v) + r);
  }

  /** Serialization is injective and prefix-free, on every value Go can hold. */
  lemma {:induction false} SerializePrefixFree(v: Value, w: Value, r: bytes, q: bytes)
    requires Fits(v) && Fits(w) && Serialize(v) + r == Serialize(w) + q
    ensures v == w && r == q
    decreases v, 0
  {
    match v
    case Null =>
      HeadsAgree(v, w, r, q);
      assert w == Null by { assert (Serialize(w) + q)[0] == 0xF6; }
      assert (Serialize(v) + r)[1..] == r && (Serialize(w) + q)[1..] == q;
    case Float(bits) =>
      HeadsAgree(v, w, r, q);
      assert w.Float? by { assert (Serialize(w) + q)[0] == 0xFB; }
      FloatsAgree(bits, w.bits, r, q);
    case List(items) =>
      HeadsAgree(v, w, r, q);
      AllPrefixFree(items, w.items, r, q);
    case Map(entries) =>
      HeadsAgree(v, w, r, q);
      EntriesPrefixFree(entries, w.entries, r, q);
    case _ =>
      HeadsAgree(v, w, r, q);
      assert AfterHead(v) == (AfterHead(v) + r)[..|AfterHead(v)|];
      assert AfterHead(w) == (AfterHead(w) + q)[..|AfterHead(w)|];
      assert r == (AfterHead(v) + r)[|AfterHead(v)|..] && q == (AfterHead(w) + q)[|AfterHead(w)|..];
  }

  lemma {:induction false} FloatsAgree(bits: u64, other: u64, r: bytes, q: bytes)
    requires Serialize(Float(bits)) + r == Serialize(Float(other)) + q
    ensures bits == other && r == q
  {
    var s, t := BigEndian(bits, 8) + r, BigEndian(other, 8) + q;
    assert (Serialize(Float(bits)) + r)[1..] == s && (Serialize(Float(other)) + q)[1..] == t;
    EightBytes(bits, s, r);
    EightBytes(other, t, q);
  }

  lemma {:induction false} AllPrefixFree(items: seq<Value>, others: seq<Value>, r: bytes, q: bytes)
    requires FitsAll(items) && FitsAll(others) && |items| == |others|
    requires SerializeAll(items) + r == SerializeAll(others) + q
    ensures items == others && r == q
    decreases items, 1
  {
    if items == [] {
      assert SerializeAll(items) + r == r && SerializeAll(others) + q == q;
    } else {
      AllSplit(items, r);
      AllSplit(others, q);
      SerializePrefixFree(items[0], others[0], SerializeAll(items[1..]) + r, SerializeAll(others[1..]) + q);
      AllPrefixFree(items[1..], others[1..], r, q);
      assert items == [items[0]] + items[1..] && others == [others[0]] + others[1..];
    }
  }

  lemma AllSplit(items: seq<Value>, r: bytes)
    requires items != []
    ensures SerializeAll(items) + r == Serialize(items[0]) + (SerializeAll(items[1..]) + r)
  {
  }

  lemma {:induction false} EntriesPrefixFree(es: seq<Entry>, fs: seq<Entry>, r: bytes, q: bytes)
    requires FitsEntries(es) && FitsEntries(fs) && |es| == |fs|
    requires SerializeEntries(es) + r == SerializeEntries(fs) + q
    ensures es == fs && r == q
    decreases es, 2
  {
    if es == [] {
      assert SerializeEntries(es) + r == r && SerializeEntries(fs) + q == q;
    } else {
      var x, y := SerializeEntries(es[1..]) + r, SerializeEntries(fs[1..]) + q;
      EntriesSplit(es, r);
      EntriesSplit(fs, q);
      EntryPrefixFree(es[0], fs[0], x, y);
      EntriesPrefixFree(es[1..], fs[1..], r, q);
      assert es == [es[0]] + es[1..] && fs == [fs[0]] + fs[1..];
    }
  }

  lemma {:induction false} EntriesSplit(es: seq<Entry>, r: bytes)
    requires es != []
    ensures SerializeEntries(es) + r == SerializeEntry(es[0]) + (SerializeEntries(es[1..]) + r)
  {
  }

  lemma {:induction false} EntrySplits(e: Entry, r: bytes)
    ensures SerializeEntry(e) + r == Serialize(e.key) + (Serialize(e.val) + r)
  {
  }

  lemma {:induction false} EntryPrefixFree(e: Entry, f: Entry, r: bytes, q: bytes)
    requires FitsEntry(e) && FitsEntry(f) && SerializeEntry(e) + r == SerializeEntry(f) + q
    ensures e == f && r == q
    decreases e, 1
  {
    var x, y := Serialize(e.val) + r, Serialize(f.val) + q;
    EntrySplits(e, r);
    EntrySplits(f, q);
    SerializePrefixFree(e.key, f.key, x, y);
    SerializePrefixFree(e.val, f.val, r, q);
  }
}
