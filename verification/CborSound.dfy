/** What the decoder accepts: on any bytes it stops, and whatever it accepts passes the rule, re-encodes to at
    most three times the input, and re-encodes to a fixed point. */
module CborSound {
  import opened Bytes
  import opened Sorting
  import opened Cbor
  import opened CborRoundTrip
  import opened CborCanon

  /** A shortest head is no longer than the head an argument was read from. */
  lemma ShortestHead(ai: nat, s: bytes, major: nat)
    requires major < 8 && ai < 32 && ReadArgument(ai, s).Arg?
    ensures var a := ReadArgument(ai, s);
            |Head(major, a.n)| <= 1 + |s| - |a.rest|
  {
    if ai > 23 {
      var width := ArgumentWidth(ai);
      FromBigEndianBound(s[..width]);
      Pow256Values();
    }
  }

  /** What is known of a value read from `s`, which had `budget` items to spend at `depth`. */
  ghost predicate WellRead(r: Parsed<Value>, s: bytes, budget: nat, depth: nat) {
    r.Ok? ==>
      && Admissible(r.value, depth, MAX_NESTING)
      && Fits(r.value)
      && Count(r.value) + r.budget == budget
      && |r.rest| <= |s|
      && |Serialize(r.value)| <= 3 * (|s| - |r.rest|)
  }

  lemma {:induction false} ItemSound(s: bytes, budget: nat, depth: nat)
    requires |s| < TWO63
    ensures WellRead(Item(s, budget, depth), s, budget, depth)
    decreases |s|, 0
  {
    if s == [] {
    } else if s[0] / 32 == 7 {
      FloatSound(s[0] % 32, s[1..], budget, depth);
    } else {
      var a := ReadArgument(s[0] % 32, s[1..]);
      if a.Arg? && budget > 0 {
        BodySound(s[0] / 32, a.n, a.rest, budget - 1, depth);
        ShortestHead(s[0] % 32, s[1..], s[0] / 32);
        HeadAndBody(s, s[0] / 32, a.n, a.rest, budget, depth);
      }
    }
  }

  lemma FloatSound(ai: nat, s: bytes, budget: nat, depth: nat)
    requires ai < 32
    ensures var r := SimpleOrFloat(ai, s, budget);
            r.Ok? ==>
              && (r.value.Null? || (r.value.Float? && Finite(r.value.bits) && |r.rest| + 2 <= |s|))
              && r.budget + 1 == budget
  {
  }

  /** The same, past an item's head and count: the head's own bytes are accounted for by the caller. */
  ghost predicate BodyWellRead(r: Parsed<Value>, major: nat, n: nat, s: bytes, budget: nat, depth: nat)
    requires major < 8
  {
    r.Ok? ==>
      && Admissible(r.value, depth, MAX_NESTING)
      && Fits(r.value)
      && Count(r.value) + r.budget == budget + 1
      && |r.rest| <= |s|
      && |Serialize(r.value)| <= |Head(major, n)| + 3 * (|s| - |r.rest|)
  }

  lemma HeadAndBody(s: bytes, major: nat, n: u64, rest: bytes, budget: nat, depth: nat)
    requires major < 7 && budget > 0 && |rest| < |s| && |Head(major, n)| <= |s| - |rest|
    requires Item(s, budget, depth) == Body(major, n, rest, budget - 1, depth)
    requires BodyWellRead(Body(major, n, rest, budget - 1, depth), major, n, rest, budget - 1, depth)
    ensures WellRead(Item(s, budget, depth), s, budget, depth)
  {
  }

  lemma {:induction false} BodySound(major: nat, n: u64, s: bytes, budget: nat, depth: nat)
    requires major < 7 && |s| < TWO63
    ensures BodyWellRead(Body(major, n, s, budget, depth), major, n, s, budget, depth)
    decreases |s|, 2
  {
    if major == 4 && depth < MAX_NESTING {
      ItemsSound(n, s, budget, depth + 1);
    } else if major == 5 && depth < MAX_NESTING {
      EntriesSound(n, s, budget, depth + 1, {});
    }
  }

  lemma {:induction false} ItemsSound(n: nat, s: bytes, budget: nat, depth: nat)
    requires |s| < TWO63
    ensures var r := Items(n, s, budget, depth);
            r.Ok? ==>
              && |r.value| == n <= |s| - |r.rest|
              && AdmissibleAll(r.value, depth, MAX_NESTING)
              && FitsAll(r.value)
              && CountAll(r.value) + r.budget == budget
              && |SerializeAll(r.value)| <= 3 * (|s| - |r.rest|)
    decreases |s|, 1
  {
    if n > 0 {
      var r := Item(s, budget, depth);
      ItemSound(s, budget, depth);
      if r.Ok? {
        ItemsSound(n - 1, r.rest, r.budget, depth);
        var t := Items(n - 1, r.rest, r.budget, depth);
        if t.Ok? {
          assert ([r.value] + t.value)[1..] == t.value;
        }
      }
    }
  }

  lemma {:induction false} EntriesSound(n: nat, s: bytes, budget: nat, depth: nat, seen: set<Value>)
    requires |s| < TWO63
    ensures var r := Entries(n, s, budget, depth, seen);
            r.Ok? ==>
              && |r.value| == n <= |s| - |r.rest|
              && AdmissibleEntries(r.value, depth, MAX_NESTING)
              && DistinctKeys(r.value) && Keys(r.value) !! seen
              && FitsEntries(r.value)
              && CountEntries(r.value) + r.budget == budget
              && |SerializeEntries(r.value)| <= 3 * (|s| - |r.rest|)
    decreases |s|, 1
  {
    if n > 0 {
      var r := KeyAndValue(s, budget, depth);
      if r.Ok? {
        var k := Item(s, budget, depth);
        ItemSound(s, budget, depth);
        ItemSound(k.rest, k.budget, depth);
        if IsKey(r.value.key) && r.value.key !in seen {
          EntriesSound(n - 1, r.rest, r.budget, depth, seen + {r.value.key});
          var t := Entries(n - 1, r.rest, r.budget, depth, seen + {r.value.key});
          if t.Ok? {
            assert ([r.value] + t.value)[1..] == t.value;
          }
        }
      }
    }
  }

  // ----------------------------------------------------- canonical values stay

  lemma {:induction false} CanonIdempotent(v: Value)
    ensures Canon(Canon(v)) == Canon(v)
    decreases v, 0
  {
    match v
    case List(items) => CanonAllIdempotent(items);
    case Map(entries) =>
      var a := CanonEntries(entries);
      CanonEntriesIdempotent(entries);
      forall e | e in SortEntries(a)
        ensures CanonEntry(e) == e
      {
        SortMember(Before, a, e);
      }
      CanonEntriesFixed(SortEntries(a));
      SortIsSorted(a);
      SortOfSorted(Before, SortEntries(a));
    case _ =>
  }

  lemma {:induction false} CanonAllIdempotent(items: seq<Value>)
    ensures CanonAll(CanonAll(items)) == CanonAll(items)
    decreases items, 1
  {
    if items != [] {
      CanonIdempotent(items[0]);
      CanonAllIdempotent(items[1..]);
      assert CanonAll(items)[1..] == CanonAll(items[1..]);
    }
  }

  lemma {:induction false} CanonEntriesIdempotent(entries: seq<Entry>)
    ensures forall e :: e in CanonEntries(entries) ==> CanonEntry(e) == e
    decreases entries, 2
  {
    if entries != [] {
      CanonEntryIdempotent(entries[0]);
      CanonEntriesIdempotent(entries[1..]);
    }
  }

  lemma {:induction false} CanonEntryIdempotent(e: Entry)
    ensures CanonEntry(CanonEntry(e)) == CanonEntry(e)
    decreases e, 1
  {
    CanonIdempotent(e.key);
    CanonIdempotent(e.val);
  }

  lemma {:induction false} CanonEntriesFixed(es: seq<Entry>)
    requires forall e :: e in es ==> CanonEntry(e) == e
    ensures CanonEntries(es) == es
  {
    if es != [] {
      CanonEntriesFixed(es[1..]);
      assert [es[0]] + es[1..] == es;
    }
  }

  /** The decoder is sound: what it accepts passes the rule and is at most three times longer on the wire, and
      decoding what it re-encodes to gives a value that encodes to those same bytes. */
  lemma {:induction false} DecodeSound(data: bytes)
    requires |data| < TWO63 && Decode(data).Accepted?
    ensures var v := Decode(data).value;
            && Rule(v) && Fits(v)
            && |Encode(v)| <= 3 * |data|
            && Decode(Encode(v)) == Accepted(Canon(v))
            && Encode(Canon(v)) == Encode(v)
  {
    var v := Decode(data).value;
    ItemSound(data, MAX_ELEMENTS, 0);
    RuleIffDecodes(v);
    EncodeIsSerializeOfCanon(v);
    EncodeIsSerializeOfCanon(Canon(v));
    CanonIdempotent(v);
    CanonKeeps(v, 0, MAX_NESTING);
  }

  /** Three times is reached: a half float takes three bytes and re-encodes to nine. */
  lemma TripleReached()
    ensures var data := [0xF9, 0, 0];
            && Decode(data) == Accepted(Float(0))
            && |Encode(Float(0))| == 3 * |data|
  {
    var data: bytes := [0xF9, 0, 0];
    assert data[1..] == [0, 0];
    assert data[1..][..2] == [0, 0];
    assert FromBigEndian([0]) == 0;
    var z: bytes := [0, 0];
    assert z[..1] == [0];
    assert FromBigEndian(z) == 0;
  }
}
