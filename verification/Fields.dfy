/** Maps with text keys, as every frame and signed structure is built, and what their encoding keeps of them. */
module Fields {
  import opened Options
  import opened Bytes
  import opened Sorting
  import opened Cbor
  import opened CborRoundTrip
  import opened CborCanon

  function Named(name: bytes, v: Value): Entry { Entry(Text(name), v) }

  /** Value.Get: the first entry under a text key. */
  function Lookup(es: seq<Entry>, name: bytes): Option<Value> {
    if es == [] then None
    else if es[0].key == Text(name) then Some(es[0].val)
    else Lookup(es[1..], name)
  }

  function Get(v: Value, name: bytes): Option<Value> {
    if v.Map? then Lookup(v.entries, name) else None
  }

  lemma {:induction false} LookupIffMember(es: seq<Entry>, name: bytes, v: Value)
    requires DistinctKeys(es)
    ensures Lookup(es, name) == Some(v) <==> Named(name, v) in es
    ensures Lookup(es, name).None? <==> Text(name) !in Keys(es)
  {
    if es != [] {
      LookupIffMember(es[1..], name, v);
      assert es == [es[0]] + es[1..];
      KeysIndexed(es[1..], es[0].key);
      if Named(name, v) in es[1..] {
        var i :| 0 <= i < |es[1..]| && es[1..][i] == Named(name, v);
        KeysIndexed(es[1..], Text(name));
      }
    }
  }

  function CanonOption(o: Option<Value>): Option<Value> {
    match o case None => None case Some(v) => Some(Canon(v))
  }

  /** Sorting a map's entries for the wire changes no lookup: each field is found, in its own canonical form. */
  lemma {:induction false} GetOfCanon(v: Value, name: bytes, depth: nat)
    requires v.Map? && Fits(v) && Admissible(v, depth, MAX_NESTING)
    ensures Get(Canon(v), name) == CanonOption(Get(v, name))
  {
    var es := v.entries;
    var cs := CanonEntries(es);
    CanonEntriesGood(es, depth + 1);
    DistinctIndexed(cs);
    SortKeeps(cs, depth + 1, MAX_NESTING);
    CanonEntriesKeep(es, depth + 1, MAX_NESTING);
    match Get(v, name)
    case None =>
      LookupIffMember(es, name, Null);
      LookupIffMember(SortEntries(cs), name, Null);
    case Some(x) =>
      LookupIffMember(es, name, x);
      var i :| 0 <= i < |es| && es[i] == Named(name, x);
      assert cs[i] == Named(name, Canon(x));
      SortMember(Before, cs, cs[i]);
      LookupIffMember(SortEntries(cs), name, Canon(x));
  }

  /** Two maps of scalar fields with one encoding hold the same entries. */
  lemma {:induction false} FlatMapsAgree(v: Value, w: Value, e: Entry)
    requires v.Map? && w.Map? && Fits(v) && Fits(w)
    requires Flat(v.entries) && Flat(w.entries)
    requires Encode(v) == Encode(w)
    ensures e in v.entries <==> e in w.entries
    ensures |v.entries| == |w.entries|
  {
    EncodeIsSerializeOfCanon(v);
    EncodeIsSerializeOfCanon(w);
    CanonKeeps(v, 0, MAX_NESTING);
    CanonKeeps(w, 0, MAX_NESTING);
    assert Serialize(Canon(v)) + [] == Serialize(Canon(w)) + [];
    SerializePrefixFree(Canon(v), Canon(w), [], []);
    CanonOfFlat(v.entries);
    CanonOfFlat(w.entries);
    SortMember(Before, v.entries, e);
    SortMember(Before, w.entries, e);
  }

  predicate Scalar(v: Value) { !v.List? && !v.Map? }

  ghost predicate Flat(es: seq<Entry>) {
    forall e :: e in es ==> Scalar(e.key) && Scalar(e.val)
  }

  lemma {:induction false} CanonOfFlat(es: seq<Entry>)
    requires Flat(es)
    ensures CanonEntries(es) == es
  {
    if es != [] {
      assert es[0] in es;
      assert Canon(es[0].key) == es[0].key && Canon(es[0].val) == es[0].val;
      assert CanonEntry(es[0]) == es[0];
      CanonOfFlat(es[1..]);
      assert [es[0]] + es[1..] == es;
    }
  }

  /** A scalar short enough for Go to hold. */
  predicate Short(v: Value) {
    match v
    case Bytes(b) => |b| < TWO63
    case Text(t) => |t| < TWO63
    case List(_) => false
    case Map(_) => false
    case _ => true
  }

  lemma {:induction false} FlatFits(es: seq<Entry>)
    requires forall e :: e in es ==> Short(e.key) && Short(e.val)
    ensures FitsEntries(es) && Flat(es)
  {
    if es != [] {
      assert es[0] in es;
      assert Fits(es[0].key) && Fits(es[0].val);
      FlatFits(es[1..]);
    }
  }

  ghost predicate AllShort(es: seq<Entry>) {
    |es| < TWO63 && forall e :: e in es ==> Short(e.key) && Short(e.val)
  }

  /** Two flat maps built over the same distinct keys, with one encoding, are one map. */
  lemma {:induction false} FlatInjective(es: seq<Entry>, fs: seq<Entry>)
    requires AllShort(es) && AllShort(fs) && DistinctAt(fs) && |es| == |fs|
    requires forall i :: 0 <= i < |es| ==> es[i].key == fs[i].key
    requires Encode(Map(es)) == Encode(Map(fs))
    ensures es == fs
  {
    FlatFits(es);
    FlatFits(fs);
    forall i | 0 <= i < |es|
      ensures es[i] == fs[i]
    {
      FlatMapsAgree(Map(es), Map(fs), es[i]);
      var j :| 0 <= j < |fs| && fs[j] == es[i];
      assert i == j;
    }
  }

  /** A scalar the rule admits. */
  predicate Good(v: Value) {
    match v
    case UInt(u) => u < TWO63
    case NegInt(u) => u < TWO63
    case Bytes(b) => |b| < TWO63
    case Text(t) => |t| < TWO63 && ValidUtf8(t)
    case Null => true
    case Float(bits) => Finite(bits)
    case _ => false
  }

  lemma GoodAscii(s: string)
    requires |s| < 1000
    ensures Good(Text(Ascii(s)))
  {
    AsciiIsUtf8(Ascii(s));
  }

  /** A structure of named scalar fields, as signers build them. */
  ghost predicate Record(es: seq<Entry>) {
    && |es| <= 1000
    && DistinctAt(es)
    && forall e :: e in es ==> e.key.Text? && Good(e.key) && Good(e.val)
  }

  lemma {:induction false} RecordAdmissible(es: seq<Entry>)
    requires |es| <= 1000 && forall e :: e in es ==> e.key.Text? && Good(e.key) && Good(e.val)
    ensures AdmissibleEntries(es, 1, MAX_NESTING) && CountEntries(es) == 2 * |es|
    ensures AllShort(es)
  {
    if es != [] {
      var e := es[0];
      assert e in es;
      assert Admissible(e.key, 1, MAX_NESTING) && Admissible(e.val, 1, MAX_NESTING);
      assert Count(e.key) == 1 && Count(e.val) == 1;
      RecordAdmissible(es[1..]);
      assert forall f :: f in es ==> f == e || f in es[1..];
    }
  }

  /** A structure of named scalar fields decodes from its own encoding, with as many fields, every key text, and
      every field found under its name with the value it was given. */
  lemma {:induction false} RecordDecodes(es: seq<Entry>)
    requires Record(es)
    ensures Fits(Map(es)) && Rule(Map(es))
    ensures Decode(Encode(Map(es))) == Accepted(Canon(Map(es)))
    ensures Canon(Map(es)).Map? && |Canon(Map(es)).entries| == |es|
    ensures forall e :: e in Canon(Map(es)).entries <==> e in es
    ensures forall name :: Get(Canon(Map(es)), name) == Lookup(es, name)
    ensures forall e :: e in es && e.key.Text? ==> Get(Canon(Map(es)), e.key.t) == Some(e.val)
  {
    var v := Map(es);
    RecordAdmissible(es);
    FlatFits(es);
    DistinctIndexed(es);
    RuleIffDecodes(v);
    CanonOfFlat(es);
    forall e
      ensures e in Canon(v).entries <==> e in es
    {
      SortMember(Before, es, e);
    }
    forall name
      ensures Get(Canon(v), name) == Lookup(es, name)
    {
      GetOfCanon(v, name, 0);
      LookupScalar(es, name);
    }
    forall e | e in es && e.key.Text?
      ensures Get(Canon(v), e.key.t) == Some(e.val)
    {
      LookupIffMember(es, e.key.t, e.val);
    }
  }

  lemma {:induction false} LookupScalar(es: seq<Entry>, name: bytes)
    requires Flat(es)
    ensures CanonOption(Lookup(es, name)) == Lookup(es, name)
  {
    if es != [] {
      assert es[0] in es;
      LookupScalar(es[1..], name);
    }
  }

  /** A structure's entries from its field names and their values. */
  function Zip(names: seq<bytes>, vals: seq<Value>): (es: seq<Entry>)
    requires |names| == |vals|
    ensures |es| == |names|
    ensures forall i :: 0 <= i < |names| ==> es[i] == Named(names[i], vals[i])
  {
    seq(|names|, i requires 0 <= i < |names| => Named(names[i], vals[i]))
  }

  /** Names fit to be a structure's: distinct, short, and text a verifier takes. */
  ghost predicate GoodNames(names: seq<bytes>) {
    && |names| <= 1000
    && (forall i, j :: 0 <= i < j < |names| ==> names[i] != names[j])
    && (forall i :: 0 <= i < |names| ==> Good(Text(names[i])))
  }

  ghost predicate GoodValues(vals: seq<Value>) { forall i :: 0 <= i < |vals| ==> Good(vals[i]) }

  /** decodeTBS: a map under the decoding rule whose keys are exactly `names`. */
  predicate Shaped(d: Decoded, names: seq<bytes>) {
    && d.Accepted? && d.value.Map? && |d.value.entries| == |names|
    && (forall i :: 0 <= i < |d.value.entries| ==> d.value.entries[i].key.Text?)
    && (forall i :: 0 <= i < |names| ==> Get(d.value, names[i]).Some?)
  }

  /** A field that is known to be there. */
  function Field(v: Value, name: bytes): Value {
    match Get(v, name) case Some(x) => x case None => UInt(0)
  }

  /** What a signer puts under good names, a reader of the encoding finds there: the shape and every value. */
  lemma {:induction false} ZipDecodes(names: seq<bytes>, vals: seq<Value>)
    requires |names| == |vals| && GoodNames(names) && GoodValues(vals)
    ensures var d := Decode(Encode(Map(Zip(names, vals))));
            Shaped(d, names) && forall i :: 0 <= i < |names| ==> Field(d.value, names[i]) == vals[i]
  {
    var es := Zip(names, vals);
    RecordDecodes(es);
    var m := Canon(Map(es));
    forall i | 0 <= i < |m.entries|
      ensures m.entries[i].key.Text?
    {
      assert m.entries[i] in m.entries;
    }
    forall i | 0 <= i < |names|
      ensures Get(m, names[i]) == Some(vals[i])
    {
      assert es[i] in es;
    }
  }

  lemma GoodNamesPush(name: string, names: seq<bytes>)
    requires |name| < 1000 && |names| < 1000 && GoodNames(names) && Ascii(name) !in names
    ensures GoodNames([Ascii(name)] + names)
  {
    GoodAscii(name);
    var more := [Ascii(name)] + names;
    forall i, j | 0 <= i < j < |more|
      ensures more[i] != more[j]
    {
      assert more[j] == names[j - 1] && names[j - 1] in names;
    }
  }
}
