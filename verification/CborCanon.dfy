/** The deterministic encoding: it is the serialization of the value with every map sorted by encoded key, it
    decodes exactly when the rule admits the value, and it identifies values up to the order of map entries. */
module CborCanon {
  import opened Bytes
  import opened Sorting
  import opened Cbor
  import opened CborRoundTrip

  /** `v` with each map's entries sorted by the bytes of their encoded keys, at every depth. */
  function Canon(v: Value): Value
    decreases v, 0
  {
    match v
    case List(items) => List(CanonAll(items))
    case Map(entries) => Map(SortEntries(CanonEntries(entries)))
    case _ => v
  }

  function CanonAll(items: seq<Value>): (r: seq<Value>)
    ensures |r| == |items|
    decreases items, 1
  {
    if items == [] then [] else [Canon(items[0])] + CanonAll(items[1..])
  }

  function CanonEntries(entries: seq<Entry>): (r: seq<Entry>)
    ensures |r| == |entries|
    decreases entries, 2
  {
    if entries == [] then [] else [CanonEntry(entries[0])] + CanonEntries(entries[1..])
  }

  function CanonEntry(e: Entry): Entry
    decreases e, 1
  {
    Entry(Canon(e.key), Canon(e.val))
  }

  predicate Before(e: Entry, f: Entry) { Less(Serialize(e.key), Serialize(f.key)) }

  function SortEntries(es: seq<Entry>): (r: seq<Entry>)
    ensures |r| == |es|
  {
    Sort(Before, es)
  }

  lemma BeforeIsOrder()
    ensures Order(Before)
  {
    forall a: Entry, b: Entry
      ensures Before(a, b) ==> !Before(b, a)
    {
      LessTrichotomy(Serialize(a.key), Serialize(b.key));
    }
    forall a: Entry, b: Entry, c: Entry | !Before(a, b) && !Before(b, c)
      ensures !Before(a, c)
    {
      var x, y, z := Serialize(a.key), Serialize(b.key), Serialize(c.key);
      LessTrichotomy(x, y);
      LessTrichotomy(y, z);
      LessTrichotomy(x, z);
      if Less(x, z) && Less(y, x) {
        LessTransitive(y, x, z);
      }
    }
  }

  /** What SortEntries computes: the same entries, in ascending order of encoded key. */
  lemma SortIsSorted(es: seq<Entry>)
    ensures Sorted(Before, SortEntries(es))
    ensures multiset(SortEntries(es)) == multiset(es)
  {
    BeforeIsOrder();
    SortSorted(Before, es);
    SortMembers(Before, es);
  }

  // ----------------------------------------------- Encode is Serialize of Canon

  function PairOf(e: Entry): Pair { Pair(Serialize(e.key), Serialize(e.val)) }

  lemma {:induction false} JoinPairsOf(es: seq<Entry>)
    ensures JoinPairs(MapSeq(PairOf, es)) == SerializeEntries(es)
  {
    if es != [] {
      JoinPairsOf(es[1..]);
      assert MapSeq(PairOf, es)[1..] == MapSeq(PairOf, es[1..]);
    }
  }

  lemma {:induction false} EncodeIsSerializeOfCanon(v: Value)
    ensures Encode(v) == Serialize(Canon(v))
    decreases v, 0
  {
    match v
    case List(items) => EncodeAllIsSerializeAll(items);
    case Map(entries) =>
      EncodePairsIsPairsOf(entries);
      SortMaps(PairOf, Before, PairBefore, CanonEntries(entries));
      JoinPairsOf(SortEntries(CanonEntries(entries)));
    case _ =>
  }

  lemma {:induction false} EncodeAllIsSerializeAll(items: seq<Value>)
    ensures EncodeAll(items) == SerializeAll(CanonAll(items))
    decreases items, 1
  {
    if items != [] {
      EncodeIsSerializeOfCanon(items[0]);
      EncodeAllIsSerializeAll(items[1..]);
      assert CanonAll(items)[1..] == CanonAll(items[1..]);
    }
  }

  lemma {:induction false} EncodePairsIsPairsOf(entries: seq<Entry>)
    ensures EncodePairs(entries) == MapSeq(PairOf, CanonEntries(entries))
    decreases entries, 2
  {
    if entries != [] {
      EncodePairIsPairOf(entries[0]);
      EncodePairsIsPairsOf(entries[1..]);
      assert CanonEntries(entries)[1..] == CanonEntries(entries[1..]);
    }
  }

  lemma {:induction false} EncodePairIsPairOf(e: Entry)
    ensures EncodePair(e) == PairOf(CanonEntry(e))
    decreases e, 1
  {
    EncodeIsSerializeOfCanon(e.key);
    EncodeIsSerializeOfCanon(e.val);
  }

  // ---------------------------------- what the rule reads is blind to the order

  lemma {:induction false} InsertKeeps(e: Entry, es: seq<Entry>, depth: nat, max: nat)
    ensures var r := Insert(Before, e, es);
            && AdmissibleEntries(r, depth, max) == (AdmissibleEntry(e, depth, max) && AdmissibleEntries(es, depth, max))
            && Keys(r) == Keys(es) + {e.key}
            && DistinctKeys(r) == (e.key !in Keys(es) && DistinctKeys(es))
            && CountEntries(r) == CountEntry(e) + CountEntries(es)
            && FitsEntries(r) == (FitsEntry(e) && FitsEntries(es))
            && |SerializeEntries(r)| == |SerializeEntry(e)| + |SerializeEntries(es)|
  {
    if es == [] || !Before(es[0], e) {
      assert ([e] + es)[1..] == es;
    } else {
      var t := Insert(Before, e, es[1..]);
      InsertKeeps(e, es[1..], depth, max);
      assert ([es[0]] + t)[1..] == t;
    }
  }

  lemma {:induction false} SortKeeps(es: seq<Entry>, depth: nat, max: nat)
    ensures var r := SortEntries(es);
            && AdmissibleEntries(r, depth, max) == AdmissibleEntries(es, depth, max)
            && Keys(r) == Keys(es)
            && DistinctKeys(r) == DistinctKeys(es)
            && CountEntries(r) == CountEntries(es)
            && FitsEntries(r) == FitsEntries(es)
            && |SerializeEntries(r)| == |SerializeEntries(es)|
  {
    if es != [] {
      SortKeeps(es[1..], depth, max);
      InsertKeeps(es[0], SortEntries(es[1..]), depth, max);
    }
  }

  /** Sorting a value changes neither whether the rule admits it, nor its items, nor its length on the wire. */
  lemma {:induction false} CanonKeeps(v: Value, depth: nat, max: nat)
    ensures Admissible(Canon(v), depth, max) == Admissible(v, depth, max)
    ensures Count(Canon(v)) == Count(v)
    ensures Fits(Canon(v)) == Fits(v)
    ensures |Serialize(Canon(v))| == |Serialize(v)|
    decreases v, 0
  {
    match v
    case List(items) => CanonAllKeeps(items, depth + 1, max);
    case Map(entries) =>
      CanonEntriesKeep(entries, depth + 1, max);
      SortKeeps(CanonEntries(entries), depth + 1, max);
    case _ =>
  }

  lemma {:induction false} CanonAllKeeps(items: seq<Value>, depth: nat, max: nat)
    ensures AdmissibleAll(CanonAll(items), depth, max) == AdmissibleAll(items, depth, max)
    ensures CountAll(CanonAll(items)) == CountAll(items)
    ensures FitsAll(CanonAll(items)) == FitsAll(items)
    ensures |SerializeAll(CanonAll(items))| == |SerializeAll(items)|
    decreases items, 1
  {
    if items != [] {
      CanonKeeps(items[0], depth, max);
      CanonAllKeeps(items[1..], depth, max);
      assert CanonAll(items)[1..] == CanonAll(items[1..]);
    }
  }

  lemma {:induction false} CanonEntriesKeep(entries: seq<Entry>, depth: nat, max: nat)
    ensures AdmissibleEntries(CanonEntries(entries), depth, max) == AdmissibleEntries(entries, depth, max)
    ensures AdmissibleEntries(entries, depth, max) ==>
              Keys(CanonEntries(entries)) == Keys(entries)
                  && DistinctKeys(CanonEntries(entries)) == DistinctKeys(entries)
    ensures CountEntries(CanonEntries(entries)) == CountEntries(entries)
    ensures FitsEntries(CanonEntries(entries)) == FitsEntries(entries)
    ensures |SerializeEntries(CanonEntries(entries))| == |SerializeEntries(entries)|
    decreases entries, 2
  {
    if entries != [] {
      CanonEntryKeeps(entries[0], depth, max);
      CanonEntriesKeep(entries[1..], depth, max);
      assert CanonEntries(entries)[1..] == CanonEntries(entries[1..]);
    }
  }

  lemma {:induction false} CanonEntryKeeps(e: Entry, depth: nat, max: nat)
    ensures AdmissibleEntry(CanonEntry(e), depth, max) == AdmissibleEntry(e, depth, max)
    ensures IsKey(e.key) ==> CanonEntry(e).key == e.key
    ensures CountEntry(CanonEntry(e)) == CountEntry(e)
    ensures FitsEntry(CanonEntry(e)) == FitsEntry(e)
    ensures |SerializeEntry(CanonEntry(e))| == |SerializeEntry(e)|
    decreases e, 1
  {
    CanonKeeps(e.key, depth, max);
    CanonKeeps(e.val, depth, max);
  }

  // ------------------------------------------------------------- main theorems

  /** The send-side rule and the decoder agree exactly: a value passes the rule if and only if its encoding
      decodes, and then it decodes to that value with every map sorted by encoded key. */
  lemma {:induction false} RuleIffDecodes(v: Value)
    requires Fits(v)
    ensures Rule(v) <==> Decode(Encode(v)).Accepted?
    ensures Rule(v) ==> Decode(Encode(v)) == Accepted(Canon(v))
  {
    EncodeIsSerializeOfCanon(v);
    CanonKeeps(v, 0, MAX_NESTING);
    ItemReadsBack(Canon(v), [], MAX_ELEMENTS, 0);
    assert Encode(v) + [] == Encode(v);
  }

  /** An encoding that starts another encoding is that encoding. */
  lemma {:induction false} EncodePrefixFree(v: Value, w: Value)
    requires Fits(v) && Fits(w)
    requires Encode(v) <= Encode(w)
    ensures Encode(v) == Encode(w)
  {
    EncodeIsSerializeOfCanon(v);
    EncodeIsSerializeOfCanon(w);
    CanonKeeps(v, 0, MAX_NESTING);
    CanonKeeps(w, 0, MAX_NESTING);
    assert Encode(w) == Encode(v) + Encode(w)[|Encode(v)|..];
    assert Encode(w) + [] == Encode(w);
    SerializePrefixFree(Canon(v), Canon(w), Encode(w)[|Encode(v)|..], []);
  }

  /** Equal up to the order of map entries, at every depth. */
  ghost predicate Same(v: Value, w: Value)
    decreases v, 0
  {
    match v
    case List(items) => w.List? && |items| == |w.items| && SameAll(items, w.items)
    case Map(entries) => w.Map? && |entries| == |w.entries| && SameEntries(entries, w.entries)
    case _ => v == w
  }

  ghost predicate SameAll(items: seq<Value>, others: seq<Value>)
    requires |items| == |others|
    decreases items, 1
  {
    items == [] || (Same(items[0], others[0]) && SameAll(items[1..], others[1..]))
  }

  ghost predicate SameEntries(entries: seq<Entry>, others: seq<Entry>)
    decreases entries, 2
  {
    entries == [] || (SameEntry(entries[0], others) && SameEntries(entries[1..], others))
  }

  ghost predicate SameEntry(e: Entry, others: seq<Entry>)
    decreases e, 1
  {
    exists j :: 0 <= j < |others| && others[j].key == e.key && Same(e.val, others[j].val)
  }

  ghost predicate GoodKeys(es: seq<Entry>) {
    forall e :: e in es ==> IsKey(e.key) && Fits(e.key) && Admissible(e.key, 0, MAX_NESTING)
  }

  lemma {:induction false} KeysIndexed(es: seq<Entry>, k: Value)
    ensures k in Keys(es) <==> exists i :: 0 <= i < |es| && es[i].key == k
  {
    if es != [] {
      KeysIndexed(es[1..], k);
      if k in Keys(es[1..]) {
        var i :| 0 <= i < |es[1..]| && es[1..][i].key == k;
        assert es[i + 1].key == k;
      }
    }
  }

  ghost predicate DistinctAt(es: seq<Entry>) {
    forall i, j :: 0 <= i < j < |es| ==> es[i].key != es[j].key
  }

  lemma {:induction false} DistinctIndexed(es: seq<Entry>)
    ensures DistinctKeys(es) <==> DistinctAt(es)
  {
    if es != [] {
      DistinctIndexed(es[1..]);
      KeysIndexed(es[1..], es[0].key);
      if DistinctKeys(es) {
        forall i, j | 0 <= i < j < |es|
          ensures es[i].key != es[j].key
        {
          assert es[j] == es[1..][j - 1];
          assert i > 0 ==> es[i] == es[1..][i - 1];
        }
      }
      if DistinctAt(es) {
        assert forall i, j :: 0 <= i < j < |es[1..]| ==> es[1..][i] == es[i + 1] && es[1..][j] == es[j + 1];
      }
    }
  }

  /** Distinct admissible keys have distinct bytes, so the order of encoded keys tells their entries apart. */
  lemma GoodKeysApart(es: seq<Entry>)
    requires DistinctAt(es) && GoodKeys(es)
    ensures Apart(Before, es)
  {
    forall i, j | 0 <= i < j < |es|
      ensures Before(es[i], es[j]) || Before(es[j], es[i])
    {
      assert es[i] in es && es[j] in es;
      if Serialize(es[i].key) == Serialize(es[j].key) {
        SerializePrefixFree(es[i].key, es[j].key, [], []);
      }
      LessTrichotomy(Serialize(es[i].key), Serialize(es[j].key));
    }
  }

  lemma {:induction false} CanonEntriesAt(es: seq<Entry>, i: nat)
    requires i < |es|
    ensures CanonEntries(es)[i] == CanonEntry(es[i])
  {
    if i > 0 {
      CanonEntriesAt(es[1..], i - 1);
      assert CanonEntries(es)[1..] == CanonEntries(es[1..]);
    }
  }

  lemma {:induction false} AdmissibleEntriesAt(es: seq<Entry>, depth: nat, max: nat, i: nat)
    requires AdmissibleEntries(es, depth, max) && FitsEntries(es) && i < |es|
    ensures AdmissibleEntry(es[i], depth, max) && FitsEntry(es[i])
  {
    if i > 0 {
      AdmissibleEntriesAt(es[1..], depth, max, i - 1);
    }
  }

  /** An admissible map's sorted form has good and distinct keys, and holds exactly its canonical entries. */
  lemma {:induction false} CanonEntriesGood(es: seq<Entry>, depth: nat)
    requires AdmissibleEntries(es, depth, MAX_NESTING) && FitsEntries(es) && DistinctKeys(es)
    ensures GoodKeys(CanonEntries(es)) && DistinctAt(CanonEntries(es))
    ensures forall i :: 0 <= i < |es| ==> CanonEntries(es)[i] == Entry(es[i].key, Canon(es[i].val))
  {
    DistinctIndexed(es);
    forall i | 0 <= i < |es|
      ensures CanonEntries(es)[i] == Entry(es[i].key, Canon(es[i].val))
      ensures IsKey(es[i].key) && Fits(es[i].key) && Admissible(es[i].key, 0, MAX_NESTING)
    {
      CanonEntriesAt(es, i);
      AdmissibleEntriesAt(es, depth, MAX_NESTING, i);
    }
  }

  ghost predicate Sound(v: Value, depth: nat) { Fits(v) && Admissible(v, depth, MAX_NESTING) }

  lemma {:induction false} SameIffCanonEqual(v: Value, w: Value, depth: nat)
    requires Sound(v, depth) && Sound(w, depth)
    ensures Same(v, w) <==> Canon(v) == Canon(w)
    decreases v, 0
  {
    match v
    case List(items) =>
      if w.List? && |items| == |w.items| {
        SameAllIffCanonEqual(items, w.items, depth + 1);
      }
    case Map(entries) =>
      if w.Map? {
        MapSameIffCanonEqual(entries, w.entries, depth + 1);
      }
    case _ =>
  }

  lemma {:induction false} SameAllIffCanonEqual(items: seq<Value>, others: seq<Value>, depth: nat)
    requires |items| == |others| && FitsAll(items) && FitsAll(others)
    requires AdmissibleAll(items, depth, MAX_NESTING) && AdmissibleAll(others, depth, MAX_NESTING)
    ensures SameAll(items, others) <==> CanonAll(items) == CanonAll(others)
    decreases items, 1
  {
    if items != [] {
      SameIffCanonEqual(items[0], others[0], depth);
      SameAllIffCanonEqual(items[1..], others[1..], depth);
      assert CanonAll(items)[1..] == CanonAll(items[1..]) && CanonAll(others)[1..] == CanonAll(others[1..]);
      assert CanonAll(items)[0] == Canon(items[0]) && CanonAll(others)[0] == Canon(others[0]);
    }
  }

  lemma {:induction false} MapSameIffCanonEqual(es: seq<Entry>, fs: seq<Entry>, depth: nat)
    requires FitsEntries(es) && FitsEntries(fs) && DistinctKeys(es) && DistinctKeys(fs)
    requires AdmissibleEntries(es, depth, MAX_NESTING) && AdmissibleEntries(fs, depth, MAX_NESTING)
    ensures (|es| == |fs| && SameEntries(es, fs)) <==> SortEntries(CanonEntries(es)) == SortEntries(CanonEntries(fs))
    decreases es, 3
  {
    CanonEntriesGood(es, depth);
    CanonEntriesGood(fs, depth);
    SameEntriesIffMembers(es, fs, depth);
    var a, b := CanonEntries(es), CanonEntries(fs);
    if |es| == |fs| && SameEntries(es, fs) {
      BeforeIsOrder();
      GoodKeysApart(a);
      GoodKeysApart(b);
      SortUnique(Before, a, b);
    }
    if SortEntries(a) == SortEntries(b) {
      forall e | e in a
        ensures e in b
      {
        SortMember(Before, a, e);
        SortMember(Before, b, e);
      }
    }
  }

  lemma {:induction false} SameEntriesIffMembers(es: seq<Entry>, fs: seq<Entry>, depth: nat)
    requires FitsEntries(es) && FitsEntries(fs)
    requires AdmissibleEntries(es, depth, MAX_NESTING) && AdmissibleEntries(fs, depth, MAX_NESTING)
    ensures SameEntries(es, fs) <==> forall e :: e in CanonEntries(es) ==> e in CanonEntries(fs)
    decreases es, 2
  {
    if es != [] {
      SameEntryIffMember(es[0], fs, depth);
      SameEntriesIffMembers(es[1..], fs, depth);
      assert CanonEntries(es) == [CanonEntry(es[0])] + CanonEntries(es[1..]);
    }
  }

  lemma {:induction false} SameEntryIffMember(e: Entry, fs: seq<Entry>, depth: nat)
    requires FitsEntry(e) && FitsEntries(fs)
    requires AdmissibleEntry(e, depth, MAX_NESTING) && AdmissibleEntries(fs, depth, MAX_NESTING)
    ensures SameEntry(e, fs) <==> CanonEntry(e) in CanonEntries(fs)
    decreases e, 1
  {
    assert Canon(e.key) == e.key;
    forall j | 0 <= j < |fs|
      ensures CanonEntries(fs)[j] == Entry(fs[j].key, Canon(fs[j].val))
      ensures Same(e.val, fs[j].val) <==> Canon(e.val) == Canon(fs[j].val)
    {
      AdmissibleEntriesAt(fs, depth, MAX_NESTING, j);
      CanonEntriesAt(fs, j);
      SameIffCanonEqual(e.val, fs[j].val, depth);
    }
    if SameEntry(e, fs) {
      var j :| 0 <= j < |fs| && fs[j].key == e.key && Same(e.val, fs[j].val);
      assert CanonEntries(fs)[j] == CanonEntry(e);
    }
    if CanonEntry(e) in CanonEntries(fs) {
      var j :| 0 <= j < |fs| && CanonEntries(fs)[j] == CanonEntry(e);
      assert fs[j].key == e.key && Same(e.val, fs[j].val);
    }
  }

  /** On admissible values the encoding ignores the order of map entries at every depth, and nothing else: two
      values have one encoding if and only if they are the same up to that order. */
  lemma {:induction false} EncodeIffSame(v: Value, w: Value)
    requires Sound(v, 0) && Sound(w, 0)
    ensures Encode(v) == Encode(w) <==> Same(v, w)
  {
    EncodeIsSerializeOfCanon(v);
    EncodeIsSerializeOfCanon(w);
    CanonKeeps(v, 0, MAX_NESTING);
    CanonKeeps(w, 0, MAX_NESTING);
    SameIffCanonEqual(v, w, 0);
    if Encode(v) == Encode(w) {
      SerializePrefixFree(Canon(v), Canon(w), [], []);
    }
  }
}
