/** Maps whose keys are text, as frames and signed structures are, with values of any shape: what a reader finds in
    one that was built, and how one is rebuilt with a field emptied. */
module TextMaps {
  import opened Options
  import opened Bytes
  import opened Sorting
  import opened Cbor
  import opened CborRoundTrip
  import opened CborCanon
  import opened CborSound
  import opened Fields

  /** A field of a map that nests one level above it. */
  predicate Carried(e: Entry) { e.key.Text? && Good(e.key) && Fits(e.val) && Admissible(e.val, 1, MAX_NESTING) }

  ghost predicate Table(es: seq<Entry>) {
    && |es| <= 1000 && DistinctAt(es) && (forall i :: 0 <= i < |es| ==> Carried(es[i]))
    && 1 + CountEntries(es) <= MAX_ELEMENTS
  }

  lemma {:induction false} CarriedEntries(es: seq<Entry>)
    requires forall i :: 0 <= i < |es| ==> Carried(es[i])
    ensures FitsEntries(es) && AdmissibleEntries(es, 1, MAX_NESTING)
  {
    if es != [] {
      assert Carried(es[0]);
      CarriedEntries(es[1..]);
    }
  }

  lemma {:induction false} TableRule(es: seq<Entry>)
    requires Table(es)
    ensures Fits(Map(es)) && Rule(Map(es)) && Sound(Map(es), 0)
  {
    CarriedEntries(es);
    DistinctIndexed(es);
  }

  /** What is built decodes, with as many fields and each under its name, in its own canonical form. */
  lemma {:induction false} TableDecodes(es: seq<Entry>)
    requires Table(es)
    ensures Decode(Encode(Map(es))) == Accepted(Canon(Map(es))) && Canon(Map(es)).Map?
    ensures |Canon(Map(es)).entries| == |es|
    ensures forall name :: Get(Canon(Map(es)), name) == CanonOption(Lookup(es, name))
    ensures forall e :: e in Canon(Map(es)).entries ==>
              exists i :: 0 <= i < |es| && e == Entry(es[i].key, Canon(es[i].val))
  {
    TableRule(es);
    RuleIffDecodes(Map(es));
    forall name
      ensures Get(Canon(Map(es)), name) == CanonOption(Lookup(es, name))
    {
      GetOfCanon(Map(es), name, 0);
    }
    CanonEntriesGood(es, 1);
    var cs := CanonEntries(es);
    forall e | e in Canon(Map(es)).entries
      ensures exists i :: 0 <= i < |es| && e == Entry(es[i].key, Canon(es[i].val))
    {
      SortMember(Before, cs, e);
      var i :| 0 <= i < |cs| && cs[i] == e;
    }
  }

  /** Two maps with one encoding agree on every field. */
  lemma {:induction false} SameFields(v: Value, w: Value, name: bytes)
    requires v.Map? && w.Map? && Sound(v, 0) && Sound(w, 0) && Encode(v) == Encode(w)
    ensures CanonOption(Get(v, name)) == CanonOption(Get(w, name))
  {
    EncodeIsSerializeOfCanon(v);
    EncodeIsSerializeOfCanon(w);
    CanonKeeps(v, 0, MAX_NESTING);
    CanonKeeps(w, 0, MAX_NESTING);
    assert Serialize(Canon(v)) + [] == Serialize(Canon(w)) + [];
    SerializePrefixFree(Canon(v), Canon(w), [], []);
    GetOfCanon(v, name, 0);
    GetOfCanon(w, name, 0);
  }

  // ------------------------------------------------------------- one field emptied

  function Emptied(name: bytes, e: Entry): Entry {
    if e.key == Text(name) then Entry(e.key, Value.Bytes([])) else e
  }

  function Emptier(name: bytes): Entry -> Entry { (e: Entry) => Emptied(name, e) }

  function WithEmpty(es: seq<Entry>, name: bytes): (r: seq<Entry>)
    ensures |r| == |es|
  {
    MapSeq(Emptier(name), es)
  }

  /** frameTBS: a received frame with its signature field as the empty byte string, re-encoded; nothing when the
      received bytes are not the frame's own deterministic encoding. */
  function FrameTBS(raw: bytes, name: bytes): Option<bytes> {
    match Decode(raw)
    case Rejected(_) => None
    case Accepted(v) =>
      if Encode(v) != raw then None else Some(Encode(Map(WithEmpty(if v.Map? then v.entries else [], name))))
  }

  /** frameTBS's loop. */
  method Rebuild(es: seq<Entry>, name: bytes) returns (rebuilt: seq<Entry>)
    ensures rebuilt == WithEmpty(es, name)
  {
    rebuilt := [];
    assert es[0..] == es;
    for i := 0 to |es|
      invariant WithEmpty(es, name) == rebuilt + WithEmpty(es[i..], name)
    {
      assert es[i..][1..] == es[i + 1..];
      var e := es[i];
      if e.key == Text(name) {
        e := Entry(e.key, Value.Bytes([]));
      }
      rebuilt := rebuilt + [e];
    }
  }

  lemma {:induction false} EmptiedAt(es: seq<Entry>, name: bytes, i: nat)
    requires i < |es|
    ensures WithEmpty(es, name)[i] == Emptied(name, es[i])
  {
    if i > 0 {
      EmptiedAt(es[1..], name, i - 1);
      assert WithEmpty(es, name)[1..] == WithEmpty(es[1..], name);
    }
  }

  lemma {:induction false} CanonOfEmptied(es: seq<Entry>, name: bytes)
    requires forall i :: 0 <= i < |es| ==> es[i].key.Text?
    ensures CanonEntries(WithEmpty(es, name)) == WithEmpty(CanonEntries(es), name)
  {
    var left, right := CanonEntries(WithEmpty(es, name)), WithEmpty(CanonEntries(es), name);
    forall i | 0 <= i < |es|
      ensures left[i] == right[i]
    {
      CanonEntriesAt(WithEmpty(es, name), i);
      EmptiedAt(es, name, i);
      EmptiedAt(CanonEntries(es), name, i);
      CanonEntriesAt(es, i);
    }
  }

  lemma {:induction false} SortOfEmptied(c: seq<Entry>, name: bytes)
    ensures SortEntries(WithEmpty(c, name)) == WithEmpty(SortEntries(c), name)
  {
    forall x, y
      ensures Before(x, y) == Before(Emptier(name)(x), Emptier(name)(y))
    {
    }
    SortMaps(Emptier(name), Before, Before, c);
  }

  /** Emptying a field and sorting commute, so a frame rebuilt from what arrived has the encoding it was signed in. */
  lemma {:induction false} RebuiltSame(es: seq<Entry>, name: bytes)
    requires forall i :: 0 <= i < |es| ==> es[i].key.Text?
    ensures Canon(Map(es)).Map?
    ensures Encode(Map(WithEmpty(Canon(Map(es)).entries, name))) == Encode(Map(WithEmpty(es, name)))
  {
    var built := Map(WithEmpty(es, name));
    CanonOfEmptied(es, name);
    SortOfEmptied(CanonEntries(es), name);
    assert Canon(built) == Map(WithEmpty(Canon(Map(es)).entries, name));
    EncodesAsCanon(built);
  }

  lemma {:induction false} EncodesAsCanon(v: Value)
    ensures Encode(Canon(v)) == Encode(v)
  {
    CanonIdempotent(v);
    EncodeIsSerializeOfCanon(v);
    EncodeIsSerializeOfCanon(Canon(v));
  }

  /** The tbs a reader rebuilds from a built frame is, byte for byte, the frame with its signature empty: what its
      sender signed. */
  lemma {:induction false} BuiltFrameTBS(es: seq<Entry>, name: bytes)
    requires Table(es)
    ensures FrameTBS(Encode(Map(es)), name) == Some(Encode(Map(WithEmpty(es, name))))
  {
    TableDecodes(es);
    EncodesAsCanon(Map(es));
    RebuiltSame(es, name);
  }

  lemma {:induction false} LookupWithEmpty(es: seq<Entry>, name: bytes, other: bytes)
    requires other != name
    ensures Lookup(WithEmpty(es, name), other) == Lookup(es, other)
  {
    if es != [] {
      assert WithEmpty(es, name)[1..] == WithEmpty(es[1..], name);
      LookupWithEmpty(es[1..], name, other);
    }
  }

  lemma {:induction false} WithEmptyKeeps(es: seq<Entry>, name: bytes, depth: nat, max: nat)
    requires AdmissibleEntries(es, depth, max) && FitsEntries(es)
    ensures AdmissibleEntries(WithEmpty(es, name), depth, max) && FitsEntries(WithEmpty(es, name))
    ensures Keys(WithEmpty(es, name)) == Keys(es) && DistinctKeys(WithEmpty(es, name)) == DistinctKeys(es)
  {
    if es != [] {
      var r := WithEmpty(es, name);
      assert r[1..] == WithEmpty(es[1..], name);
      WithEmptyKeeps(es[1..], name, depth, max);
      assert AdmissibleEntry(r[0], depth, max) && FitsEntry(r[0]);
    }
  }

  /** Whatever bytes a reader rebuilds a tbs from, every field but the emptied one reads in the frame received exactly
      as in any frame its sender signed with that tbs. */
  lemma {:induction false} TBSFixesFields(raw: bytes, es: seq<Entry>, name: bytes, other: bytes)
    requires |raw| < TWO63 && Table(es) && other != name
    requires Decode(raw).Accepted? && Decode(raw).value.Map?
    requires FrameTBS(raw, name) == Some(Encode(Map(WithEmpty(es, name))))
    ensures Get(Decode(raw).value, other) == CanonOption(Lookup(es, other))
  {
    var v := Decode(raw).value;
    DecodeSound(raw);
    assert v == Canon(v);
    TableRule(es);
    WithEmptyKeeps(v.entries, name, 1, MAX_NESTING);
    WithEmptyKeeps(es, name, 1, MAX_NESTING);
    SameFields(Map(WithEmpty(v.entries, name)), Map(WithEmpty(es, name)), other);
    LookupWithEmpty(v.entries, name, other);
    LookupWithEmpty(es, name, other);
    GetOfCanon(v, other, 0);
  }
}
