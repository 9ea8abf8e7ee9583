/** Stream frames as their senders build them, and that a verifier takes every one built in its turn. */
module StreamsSigned {
  import opened Options
  import opened Bytes
  import opened Sorting
  import opened Cbor
  import opened CborCanon
  import opened Fields
  import opened TextMaps
  import opened Streams
  import FrameCheck
  import Identity

  type KeyId8 = b: bytes | |b| == 8 witness seq(8, _ => 0)

  datatype SealedMap = SealedMap(scheme: u64, keyId: KeyId8, kemCt: Option<bytes>, nonce: Option<bytes>, ct: bytes)

  /** A stream frame as its sender gives it; the encodings and roles are those of their sets. */
  datatype StreamFields =
    | DataFields(seqNo: u64, isRaw: bool, body: Value, sealed: Option<SealedMap>)
    | EndFields(seqNo: u64, closesBoth: bool)
    | ErrorFields(seqNo: u64, code: bytes, message: bytes, sealed: Option<SealedMap>)
    | ReplyFields(seqNo: u64, payload: Value, sealed: Option<SealedMap>)

  function KindOf(f: StreamFields): Kind {
    match f
    case DataFields(_, _, _, _) => Data
    case EndFields(_, _) => End
    case ErrorFields(_, _, _, _) => Error
    case _ => Reply
  }

  function SealedIn(f: StreamFields): Option<SealedMap> { if f.EndFields? then None else f.sealed }

  /** shaped, for the two stream contexts. */
  predicate Shaped(s: SealedMap, byCaller: bool) {
    s.kemCt.None? && (if byCaller then s.nonce.None? else s.nonce.Some? && |s.nonce.value| == 12)
  }

  /** streamBuild's checks of the fields, for a side: what it may send, its sealed shape, its text, body and payload,
      and its ranges. */
  ghost predicate Buildable(f: StreamFields, open: Open, byCaller: bool) {
    && (byCaller ==> !f.ReplyFields? && !(f.DataFields? && open.serverStream))
    && (SealedIn(f).Some? ==> Shaped(SealedIn(f).value, byCaller))
    && (f.ErrorFields? && f.sealed.None? ==>
          |f.code| <= MAX_CODE_BYTES && ValidUtf8(f.code) && |f.message| <= MAX_TEXT_BYTES && ValidUtf8(f.message))
    && (f.DataFields? && f.sealed.None? ==> if f.isRaw then f.body.Bytes? else FrameCheck.PayloadRule(f.body))
    && (f.ReplyFields? && f.sealed.None? ==> FrameCheck.PayloadRule(f.payload))
    && f.seqNo < MAX_PROTOCOL_INT
  }

  /** What a Go program can hold. */
  ghost predicate Held(f: StreamFields) {
    && (f.DataFields? ==> Fits(f.body)) && (f.ReplyFields? ==> Fits(f.payload))
    && (SealedIn(f).Some? ==> |SealedIn(f).value.ct| < TWO63)
  }

  /** The one body a builder signs and no verifier takes, and the one scheme: null is no value of a protocol field,
      and a scheme is a protocol integer. */
  predicate Readable(f: StreamFields) {
    && (f.DataFields? && f.sealed.None? ==> !HoldsNull(f.body))
    && (SealedIn(f).Some? ==> SealedIn(f).value.scheme < MAX_PROTOCOL_INT)
  }

  function SchemeOf(s: SealedMap): u64 { if s.scheme == 0 then 1 else s.scheme }

  function SealedEntries(w: Vocabulary, s: SealedMap): seq<Entry> {
    [Named(w.sealed(Scheme), UInt(SchemeOf(s))), Named(w.sealed(KeyId), Value.Bytes(s.keyId)),
     Named(w.sealed(Ct), Value.Bytes(s.ct))]
    + (if s.kemCt.Some? then [Named(w.sealed(KemCt), Value.Bytes(s.kemCt.value))] else [])
    + (if s.nonce.Some? then [Named(w.sealed(Nonce), Value.Bytes(s.nonce.value))] else [])
  }

  /** The value of one signed field. */
  function ValueOf(w: Vocabulary, f: StreamFields, open: Open, signer: Identity.Id32, n: Name): Value {
    match n
    case Alg => Text(w.sigAlg)
    case FrameType => Text(w.kind(KindOf(f)))
    case RequestId => Value.Bytes(open.requestId)
    case RequestHash => Value.Bytes(open.requestHash)
    case Signer => Value.Bytes(signer)
    case Seq => UInt(f.seqNo)
    case Encoding => Text(if f.DataFields? && f.isRaw then w.raw else w.msgpack)
    case Body => if f.DataFields? then f.body else Null
    case Role => Text(if f.EndFields? && f.closesBoth then w.both else w.send)
    case Code => if f.ErrorFields? then Text(f.code) else Null
    case Message => if f.ErrorFields? then Text(f.message) else Null
    case Payload => if f.ReplyFields? then f.payload else Null
    case Sealed => if SealedIn(f).Some? then Map(SealedEntries(w, SealedIn(f).value)) else Null
    case Ext => Null
  }

  /** The fields of a frame: its type's, those every stream frame has, and alg. */
  function NamesOf(f: StreamFields): seq<Name> {
    var own := TypeNames(KindOf(f), SealedIn(f).Some?);
    (if own.Some? then own.value else []) + CommonNames()
  }

  function CommonNames(): seq<Name> { [FrameType, RequestId, RequestHash, Signer, Seq, Alg] }

  function EntriesOf(w: Vocabulary, f: StreamFields, open: Open, signer: Identity.Id32): (es: seq<Entry>)
    ensures |es| == |NamesOf(f)|
    ensures forall i :: 0 <= i < |es| ==>
              es[i] == Named(w.name(NamesOf(f)[i]), ValueOf(w, f, open, signer, NamesOf(f)[i]))
  {
    var names := NamesOf(f);
    seq(|names|, i requires 0 <= i < |names| => Named(w.name(names[i]), ValueOf(w, f, open, signer, names[i])))
  }

  /** SignProviderStream and SignCallerStream: a provider's frame carries its key when it is numbered 0. */
  function Sign(w: Vocabulary, c: Suite, key: bytes, f: StreamFields, open: Open, byCaller: bool): Frame {
    var carried := c.scheme.public(key);
    var tbs := Encode(Map(EntriesOf(w, f, open, c.scheme.nodeId(carried))));
    var tag := if byCaller then w.caller else w.provider;
    Frame(KindOf(f), Object(if !byCaller && f.seqNo == 0 then Some(carried) else None, tbs,
                            c.scheme.sign(key, SignedBytes(c, tag, carried, tbs))))
  }

  ghost predicate NamesApart(w: Vocabulary) { forall j, k :: w.name(j) == w.name(k) ==> j == k }

  ghost predicate SealedApart(w: Vocabulary) { forall j, k :: w.sealed(j) == w.sealed(k) ==> j == k }

  ghost predicate SealedGood(w: Vocabulary) { forall k :: Good(Text(w.sealed(k))) }

  ghost predicate WellChosen(w: Vocabulary) {
    && NamesApart(w) && (forall k :: Good(Text(w.name(k))))
    && SealedApart(w) && SealedGood(w)
    && (forall k :: Good(Text(w.kind(k)))) && Good(Text(w.sigAlg))
    && (forall t :: t in [w.raw, w.msgpack, w.send, w.both] ==> Good(Text(t)) && 0 < |t| <= MAX_ENUM_BYTES)
    && w.raw != w.msgpack
  }

  // --------------------------------------------------------------- null and sorting

  lemma {:induction false} NullInSorted(es: seq<Entry>)
    ensures HoldsNullEntries(SortEntries(es)) == HoldsNullEntries(es)
  {
    if es != [] {
      NullInSorted(es[1..]);
      NullInInserted(es[0], SortEntries(es[1..]));
    }
  }

  lemma {:induction false} NullInInserted(e: Entry, es: seq<Entry>)
    ensures HoldsNullEntries(Insert(Before, e, es)) == (HoldsNullEntry(e) || HoldsNullEntries(es))
  {
    if es == [] || !Before(es[0], e) {
      assert ([e] + es)[1..] == es;
    } else {
      NullInInserted(e, es[1..]);
      var t := Insert(Before, e, es[1..]);
      assert ([es[0]] + t)[1..] == t;
    }
  }

  /** Sorting moves nulls and adds none. */
  lemma {:induction false} NullInCanon(v: Value)
    ensures HoldsNull(Canon(v)) == HoldsNull(v)
    decreases v, 0
  {
    match v
    case List(items) => NullInCanonAll(items);
    case Map(entries) =>
      NullInCanonEntries(entries);
      NullInSorted(CanonEntries(entries));
    case _ =>
  }

  lemma {:induction false} NullInCanonAll(items: seq<Value>)
    ensures HoldsNullAll(CanonAll(items)) == HoldsNullAll(items)
    decreases items, 1
  {
    if items != [] {
      NullInCanon(items[0]);
      NullInCanonAll(items[1..]);
      assert CanonAll(items)[1..] == CanonAll(items[1..]);
    }
  }

  lemma {:induction false} NullInCanonEntries(entries: seq<Entry>)
    ensures HoldsNullEntries(CanonEntries(entries)) == HoldsNullEntries(entries)
    decreases entries, 2
  {
    if entries != [] {
      NullInCanonEntry(entries[0]);
      NullInCanonEntries(entries[1..]);
      assert CanonEntries(entries)[1..] == CanonEntries(entries[1..]);
    }
  }

  lemma {:induction false} NullInCanonEntry(e: Entry)
    ensures HoldsNullEntry(CanonEntry(e)) == HoldsNullEntry(e)
    decreases e, 1
  {
    NullInCanon(e.key);
    NullInCanon(e.val);
  }

  // ------------------------------------------------------------------ sealed maps

  ghost predicate FlatTable(es: seq<Entry>) {
    && |es| <= 1000 && DistinctAt(es)
    && forall i :: 0 <= i < |es| ==> es[i].key.Text? && Good(es[i].key) && Good(es[i].val)
  }

  /** A flat map nested in a frame: small, and read back with the same entries. */
  lemma {:induction false} FlatReads(es: seq<Entry>)
    requires FlatTable(es)
    ensures Fits(Map(es)) && Admissible(Map(es), 1, MAX_NESTING) && Count(Map(es)) == 1 + 2 * |es|
    ensures Canon(Map(es)).Map? && !HoldsNullWithin(es) ==> !HoldsNull(Canon(Map(es)))
    ensures forall e :: e in Canon(Map(es)).entries <==> e in es
    ensures forall name :: Get(Canon(Map(es)), name) == Lookup(es, name)
  {
    RecordAtDepth(es);
    DistinctIndexed(es);
    FlatFits(es);
    CanonOfFlat(es);
    forall e
      ensures e in Canon(Map(es)).entries <==> e in es
    {
      SortMember(Before, es, e);
    }
    forall name
      ensures Get(Canon(Map(es)), name) == Lookup(es, name)
    {
      GetOfCanon(Map(es), name, 1);
      LookupScalar(es, name);
    }
    NullInCanon(Map(es));
    NullWithin(es);
  }

  ghost predicate HoldsNullWithin(es: seq<Entry>) { exists i :: 0 <= i < |es| && es[i].val == Null }

  lemma {:induction false} NullWithin(es: seq<Entry>)
    requires forall i :: 0 <= i < |es| ==> es[i].key.Text? && Good(es[i].val)
    ensures HoldsNullEntries(es) <==> HoldsNullWithin(es)
  {
    if es != [] {
      NullWithin(es[1..]);
      assert HoldsNullEntry(es[0]) <==> es[0].val == Null;
      if HoldsNullWithin(es[1..]) {
        var i :| 0 <= i < |es[1..]| && es[1..][i].val == Null;
        assert es[i + 1].val == Null;
      }
      if HoldsNullWithin(es) && es[0].val != Null {
        var i :| 0 <= i < |es| && es[i].val == Null;
        assert es[1..][i - 1].val == Null;
      }
    }
  }

  lemma {:induction false} RecordAtDepth(es: seq<Entry>)
    requires forall i :: 0 <= i < |es| ==> es[i].key.Text? && Good(es[i].key) && Good(es[i].val)
    ensures AdmissibleEntries(es, 2, MAX_NESTING) && CountEntries(es) == 2 * |es|
    ensures forall e :: e in es ==> Short(e.key) && Short(e.val)
  {
    if es != [] {
      var e := es[0];
      assert Good(e.key) && Good(e.val);
      assert Admissible(e.key, 2, MAX_NESTING) && Admissible(e.val, 2, MAX_NESTING) && Count(e.key) == 1;
      assert Count(e.val) == 1;
      RecordAtDepth(es[1..]);
      assert es == [e] + es[1..];
    }
  }

  lemma {:induction false} LookupOf(es: seq<Entry>, i: nat)
    requires DistinctAt(es) && i < |es| && es[i].key.Text?
    ensures Lookup(es, es[i].key.t) == Some(es[i].val)
  {
    DistinctIndexed(es);
    LookupIffMember(es, es[i].key.t, es[i].val);
    assert es[i] in es;
  }

  lemma {:induction false} LookupMissing(es: seq<Entry>, name: bytes)
    requires forall i :: 0 <= i < |es| ==> es[i].key != Text(name)
    ensures Lookup(es, name).None?
  {
    if es != [] {
      LookupMissing(es[1..], name);
    }
  }

  /** The entries of a shaped map: scheme, key id, ciphertext, and a provider's nonce. */
  function ShapedEntries(w: Vocabulary, s: SealedMap, byCaller: bool): seq<Entry>
    requires Shaped(s, byCaller)
  {
    var es := [Named(w.sealed(Scheme), UInt(SchemeOf(s))), Named(w.sealed(KeyId), Value.Bytes(s.keyId)),
               Named(w.sealed(Ct), Value.Bytes(s.ct))];
    if byCaller then es else es + [Named(w.sealed(Nonce), Value.Bytes(s.nonce.value))]
  }

  lemma ShapedIsSealed(w: Vocabulary, s: SealedMap, byCaller: bool)
    requires Shaped(s, byCaller)
    ensures SealedEntries(w, s) == ShapedEntries(w, s, byCaller)
  {
  }

  lemma SealedDistinct(w: Vocabulary, s: SealedMap, byCaller: bool)
    requires SealedApart(w) && Shaped(s, byCaller)
    ensures DistinctAt(ShapedEntries(w, s, byCaller)) && !HoldsNullWithin(ShapedEntries(w, s, byCaller))
    ensures |ShapedEntries(w, s, byCaller)| == if byCaller then 3 else 4
  {
    var es := ShapedEntries(w, s, byCaller);
    assert es[0].key != es[1].key && es[0].key != es[2].key && es[1].key != es[2].key;
    assert !byCaller ==> es[0].key != es[3].key && es[1].key != es[3].key && es[2].key != es[3].key;
  }

  lemma {:induction false} SealedTable(w: Vocabulary, s: SealedMap, byCaller: bool)
    requires SealedGood(w) && Shaped(s, byCaller) && |s.ct| < TWO63 && s.scheme < TWO63
    requires DistinctAt(ShapedEntries(w, s, byCaller)) && |ShapedEntries(w, s, byCaller)| <= 4
    ensures FlatTable(ShapedEntries(w, s, byCaller))
  {
    var es := ShapedEntries(w, s, byCaller);
    assert Good(es[0].key) && Good(es[1].key) && Good(es[2].key);
    assert !byCaller ==> Good(es[3].key);
  }

  lemma {:induction false} SealedLookups(w: Vocabulary, s: SealedMap, byCaller: bool)
    requires SealedApart(w) && Shaped(s, byCaller) && DistinctAt(ShapedEntries(w, s, byCaller))
    ensures var es := ShapedEntries(w, s, byCaller);
            && Lookup(es, w.sealed(Scheme)) == Some(UInt(SchemeOf(s)))
            && Lookup(es, w.sealed(KeyId)).Some? && Lookup(es, w.sealed(Ct)).Some? && Lookup(es, w.sealed(KemCt)).None?
            && (Lookup(es, w.sealed(Nonce)).None? <==> byCaller)
  {
    var es := ShapedEntries(w, s, byCaller);
    LookupOf(es, 0);
    LookupOf(es, 1);
    LookupOf(es, 2);
    LookupMissing(es, w.sealed(KemCt));
    if byCaller {
      LookupMissing(es, w.sealed(Nonce));
    } else {
      LookupOf(es, 3);
    }
  }

  /** A sealed map its builder shaped reads back in that shape, when its scheme is a protocol integer. */
  lemma {:induction false} SealedReadsBack(w: Vocabulary, s: SealedMap, byCaller: bool)
    requires WellChosen(w) && Shaped(s, byCaller) && |s.ct| < TWO63 && s.scheme < TWO63
    ensures SealedReadBack(w, s, byCaller)
  {
    SealedDistinct(w, s, byCaller);
    SealedTable(w, s, byCaller);
    SealedReadsFlat(w, s, byCaller);
  }

  ghost predicate SealedReadBack(w: Vocabulary, s: SealedMap, byCaller: bool) {
    var v := Map(SealedEntries(w, s));
    && Fits(v) && Admissible(v, 1, MAX_NESTING) && Count(v) <= 9 && !HoldsNull(Canon(v))
    && (SealedReads(w, Canon(v), byCaller) <==> s.scheme < MAX_PROTOCOL_INT)
  }

  lemma {:induction false} SealedReadsFlat(w: Vocabulary, s: SealedMap, byCaller: bool)
    requires SealedApart(w) && Shaped(s, byCaller) && FlatTable(ShapedEntries(w, s, byCaller))
    requires |ShapedEntries(w, s, byCaller)| <= 4 && !HoldsNullWithin(ShapedEntries(w, s, byCaller))
    ensures SealedReadBack(w, s, byCaller)
  {
    var es := SealedEntries(w, s);
    var v := Canon(Map(es));
    ShapedIsSealed(w, s, byCaller);
    SealedLookups(w, s, byCaller);
    FlatReads(es);
    if s.scheme < MAX_PROTOCOL_INT {
      forall i | 0 <= i < |v.entries|
        ensures SealedNamed(w, v.entries[i])
      {
        assert v.entries[i] in es;
        SealedEntryNamed(w, s, v.entries[i]);
      }
    } else {
      SchemeRefused(w, s, v);
    }
  }

  lemma SealedEntryNamed(w: Vocabulary, s: SealedMap, e: Entry)
    requires e in SealedEntries(w, s) && s.scheme < MAX_PROTOCOL_INT && (s.nonce.Some? ==> |s.nonce.value| == 12)
    ensures SealedNamed(w, e)
  {
    var n :=
      if e == Named(w.sealed(Scheme), UInt(SchemeOf(s))) then Scheme
      else if e == Named(w.sealed(KeyId), Value.Bytes(s.keyId)) then KeyId
      else if e == Named(w.sealed(Ct), Value.Bytes(s.ct)) then Ct
      else if s.kemCt.Some? && e == Named(w.sealed(KemCt), Value.Bytes(s.kemCt.value)) then KemCt
      else Nonce;
    assert e.key == Text(w.sealed(n)) && SealedRule(n, e.val);
  }

  lemma {:induction false} SchemeRefused(w: Vocabulary, s: SealedMap, v: Value)
    requires SealedApart(w) && v.Map? && s.scheme >= MAX_PROTOCOL_INT
    requires Get(v, w.sealed(Scheme)) == Some(UInt(SchemeOf(s)))
    requires Named(w.sealed(Scheme), UInt(SchemeOf(s))) in v.entries
    ensures !SealedReads(w, v, true) && !SealedReads(w, v, false)
  {
    var i :| 0 <= i < |v.entries| && v.entries[i] == Named(w.sealed(Scheme), UInt(SchemeOf(s)));
    assert !SealedNamed(w, v.entries[i]);
  }

  // ------------------------------------------------------------------ signed fields

  lemma NamesDistinct(f: StreamFields)
    ensures |NamesOf(f)| <= 8 && forall i, j :: 0 <= i < j < |NamesOf(f)| ==> NamesOf(f)[i] != NamesOf(f)[j]
  {
  }

  predicate IsBulk(n: Name) { n == Body || n == Payload }

  /** How many items a field may hold. */
  function Room(n: Name): nat { if IsBulk(n) then FrameCheck.MAX_PAYLOAD_ELEMENTS else if n == Sealed then 9 else 1 }

  /** The names a frame's fields have, besides those every frame has. */
  predicate HasName(f: StreamFields, n: Name) {
    match n
    case Encoding => f.DataFields?
    case Body => f.DataFields? && f.sealed.None?
    case Role => f.EndFields?
    case Code => f.ErrorFields? && f.sealed.None?
    case Message => f.ErrorFields? && f.sealed.None?
    case Payload => f.ReplyFields? && f.sealed.None?
    case Sealed => SealedIn(f).Some?
    case Ext => false
    case _ => true
  }

  lemma NamesAre(f: StreamFields, n: Name)
    ensures n in NamesOf(f) <==> HasName(f, n)
  {
  }

  /** What a frame can hold under a name, and what a reader of it makes of that. */
  ghost predicate CarriedField(w: Vocabulary, f: StreamFields, byCaller: bool, n: Name, v: Value) {
    && Fits(v) && Admissible(v, 1, MAX_NESTING) && Count(v) <= Room(n)
    && (FieldOk(w, KindOf(f), byCaller, n, Canon(v)) <==>
          (n == Body ==> !HoldsNull(v))
              && (n == Sealed ==> SealedIn(f).Some? && SealedIn(f).value.scheme < MAX_PROTOCOL_INT))
  }

  lemma {:induction false} BulkCarried(w: Vocabulary, f: StreamFields, byCaller: bool, n: Name, v: Value)
    requires IsBulk(n) && Fits(v) && (FrameCheck.PayloadRule(v) || v.Bytes?)
    ensures CarriedField(w, f, byCaller, n, v)
  {
    NullInCanon(v);
    BulkRoom(v);
  }

  lemma {:induction false} BulkRoom(v: Value)
    requires FrameCheck.PayloadRule(v) || v.Bytes?
    ensures Admissible(v, 1, MAX_NESTING) && Count(v) <= FrameCheck.MAX_PAYLOAD_ELEMENTS
  {
    if !v.Bytes? {
      FrameCheck.NestingShifts(v, 0, FrameCheck.MAX_PAYLOAD_NESTING);
    }
  }

  lemma {:induction false} SealedCarried(w: Vocabulary, f: StreamFields, byCaller: bool)
    requires WellChosen(w) && SealedIn(f).Some? && Shaped(SealedIn(f).value, byCaller)
    requires |SealedIn(f).value.ct| < TWO63 && SealedIn(f).value.scheme < TWO63
    ensures CarriedField(w, f, byCaller, Sealed, Map(SealedEntries(w, SealedIn(f).value)))
  {
    SealedReadsBack(w, SealedIn(f).value, byCaller);
    SealedCarriedFrom(w, f, byCaller, Map(SealedEntries(w, SealedIn(f).value)));
  }

  lemma SealedCarriedFrom(w: Vocabulary, f: StreamFields, byCaller: bool, v: Value)
    requires SealedIn(f).Some? && Fits(v) && Admissible(v, 1, MAX_NESTING) && Count(v) <= 9 && !HoldsNull(Canon(v))
    requires SealedReads(w, Canon(v), byCaller) <==> SealedIn(f).value.scheme < MAX_PROTOCOL_INT
    ensures CarriedField(w, f, byCaller, Sealed, v)
  {
  }

  lemma ScalarCarried(w: Vocabulary, f: StreamFields, byCaller: bool, n: Name, v: Value)
    requires Good(v) && v != Null && !IsBulk(n) && n != Sealed && Streams.Rule(w, KindOf(f), byCaller, n, v)
    ensures CarriedField(w, f, byCaller, n, v)
  {
  }

  lemma {:induction false} FieldCarried(w: Vocabulary, f: StreamFields, open: Open, signer: Identity.Id32,
                                        byCaller: bool, n: Name)
    requires WellChosen(w) && Buildable(f, open, byCaller) && Held(f) && HasName(f, n)
    requires SealedIn(f).Some? ==> SealedIn(f).value.scheme < TWO63
    ensures CarriedField(w, f, byCaller, n, ValueOf(w, f, open, signer, n))
  {
    var v := ValueOf(w, f, open, signer, n);
    if IsBulk(n) {
      BulkCarried(w, f, byCaller, n, v);
    } else if n == Sealed {
      SealedCarried(w, f, byCaller);
    } else {
      assert w.raw in [w.raw, w.msgpack, w.send, w.both] && w.msgpack in [w.raw, w.msgpack, w.send, w.both];
      assert w.send in [w.raw, w.msgpack, w.send, w.both] && w.both in [w.raw, w.msgpack, w.send, w.both];
      ScalarCarried(w, f, byCaller, n, v);
    }
  }

  // ------------------------------------------------------------- what is signed is read

  /** How many items fields of these names may hold together, with their keys. */
  function AllRoom(names: seq<Name>): nat { if names == [] then 0 else 1 + Room(names[0]) + AllRoom(names[1..]) }

  lemma {:induction false} CountWithin(es: seq<Entry>, names: seq<Name>)
    requires |es| == |names| && forall i :: 0 <= i < |es| ==> es[i].key.Text? && Count(es[i].val) <= Room(names[i])
    ensures CountEntries(es) <= AllRoom(names)
  {
    if es != [] {
      assert CountEntry(es[0]) == 1 + Count(es[0].val);
      CountWithin(es[1..], names[1..]);
    }
  }

  lemma {:induction false} ScalarRoom(names: seq<Name>)
    requires forall i :: 0 <= i < |names| ==> Room(names[i]) == 1
    ensures AllRoom(names) == 2 * |names|
  {
    if names != [] {
      ScalarRoom(names[1..]);
    }
  }

  lemma {:induction false} RoomConcat(a: seq<Name>, b: seq<Name>)
    ensures AllRoom(a + b) == AllRoom(a) + AllRoom(b)
  {
    if a == [] {
      assert a + b == b;
    } else {
      RoomConcat(a[1..], b);
      assert (a + b)[1..] == a[1..] + b;
    }
  }

  lemma OwnRoom(kind: Kind, sealed: bool)
    requires TypeNames(kind, sealed).Some?
    ensures AllRoom(TypeNames(kind, sealed).value) <= FrameCheck.MAX_PAYLOAD_ELEMENTS + 3
  {
    var own := TypeNames(kind, sealed).value;
    if |own| == 1 {
      assert own[1..] == [];
    } else {
      var rest := own[1..];
      assert rest[0] == own[1] && rest[1..] == [];
      assert AllRoom(rest) == 1 + Room(own[1]);
    }
  }

  lemma {:induction false} RoomOf(f: StreamFields)
    ensures AllRoom(NamesOf(f)) <= FrameCheck.MAX_PAYLOAD_ELEMENTS + 20
  {
    var own, common := TypeNames(KindOf(f), SealedIn(f).Some?).value, CommonNames();
    ScalarRoom(common);
    OwnRoom(KindOf(f), SealedIn(f).Some?);
    RoomConcat(own, common);
  }

  /** A frame its builder signs: one that passes the builder's checks and a Go program can hold. */
  ghost predicate Signable(w: Vocabulary, f: StreamFields, open: Open, byCaller: bool) {
    WellChosen(w) && Buildable(f, open, byCaller) && Held(f)
  }

  /** One whose integers the decoding rule takes, a null or a scheme past 2^53 perhaps among its fields. */
  ghost predicate Decodable(w: Vocabulary, f: StreamFields, open: Open, byCaller: bool) {
    Signable(w, f, open, byCaller) && (SealedIn(f).Some? ==> SealedIn(f).value.scheme < TWO63)
  }

  lemma {:induction false} EntryCarried(w: Vocabulary, f: StreamFields, open: Open, signer: Identity.Id32,
                                        byCaller: bool, i: nat)
    requires Decodable(w, f, open, byCaller) && i < |NamesOf(f)|
    ensures var e := EntriesOf(w, f, open, signer)[i];
            Carried(e) && Count(e.val) <= Room(NamesOf(f)[i])
  {
    NamesAre(f, NamesOf(f)[i]);
    FieldCarried(w, f, open, signer, byCaller, NamesOf(f)[i]);
  }

  lemma {:induction false} EntriesDistinct(w: Vocabulary, f: StreamFields, open: Open, signer: Identity.Id32)
    requires NamesApart(w)
    ensures DistinctAt(EntriesOf(w, f, open, signer)) && |EntriesOf(w, f, open, signer)| <= 8
  {
    NamesDistinct(f);
  }

  lemma {:induction false} BuiltTable(w: Vocabulary, f: StreamFields, open: Open, signer: Identity.Id32, byCaller: bool)
    requires Decodable(w, f, open, byCaller)
    ensures Table(EntriesOf(w, f, open, signer))
  {
    var es := EntriesOf(w, f, open, signer);
    EntriesDistinct(w, f, open, signer);
    forall i | 0 <= i < |es|
      ensures Carried(es[i]) && Count(es[i].val) <= Room(NamesOf(f)[i])
    {
      EntryCarried(w, f, open, signer, byCaller, i);
    }
    CountWithin(es, NamesOf(f));
    RoomOf(f);
  }

  /** What a reader decodes. */
  ghost function Arrived(w: Vocabulary, f: StreamFields, open: Open, signer: Identity.Id32): Value {
    Canon(Map(EntriesOf(w, f, open, signer)))
  }

  ghost function FieldArrived(w: Vocabulary, f: StreamFields, open: Open, signer: Identity.Id32,
                              n: Name): Option<Value> {
    if HasName(f, n) then Some(Canon(ValueOf(w, f, open, signer, n))) else None
  }

  lemma {:induction false} BuiltField(w: Vocabulary, f: StreamFields, open: Open, signer: Identity.Id32, n: Name)
    requires NamesApart(w) && Table(EntriesOf(w, f, open, signer))
    ensures Get(Arrived(w, f, open, signer), w.name(n)) == FieldArrived(w, f, open, signer, n)
  {
    var es := EntriesOf(w, f, open, signer);
    TableDecodes(es);
    NamesAre(f, n);
    if n in NamesOf(f) {
      var i :| 0 <= i < |NamesOf(f)| && NamesOf(f)[i] == n;
      LookupOf(es, i);
    } else {
      forall i | 0 <= i < |es|
        ensures es[i].key != Text(w.name(n))
      {
        assert NamesOf(f)[i] in NamesOf(f);
      }
      LookupMissing(es, w.name(n));
    }
  }

  lemma {:induction false} ExactBuilt(w: Vocabulary, f: StreamFields, open: Open, signer: Identity.Id32)
    requires NamesApart(w) && Table(EntriesOf(w, f, open, signer))
    ensures Exact(w, KindOf(f), Arrived(w, f, open, signer))
  {
    var v := Arrived(w, f, open, signer);
    ArrivedSize(w, f, open, signer);
    forall n
      ensures Has(w, v, n) <==> HasName(f, n)
    {
      BuiltField(w, f, open, signer, n);
    }
    ExactFrom(w, f, v);
  }

  lemma ArrivedSize(w: Vocabulary, f: StreamFields, open: Open, signer: Identity.Id32)
    requires Table(EntriesOf(w, f, open, signer))
    ensures var v := Arrived(w, f, open, signer); v.Map? && |v.entries| == |NamesOf(f)|
  {
    TableDecodes(EntriesOf(w, f, open, signer));
  }

  lemma ExactFrom(w: Vocabulary, f: StreamFields, v: Value)
    requires v.Map? && |v.entries| == |NamesOf(f)| && forall n :: Has(w, v, n) <==> HasName(f, n)
    ensures Exact(w, KindOf(f), v)
  {
    assert Has(w, v, Alg) && !Has(w, v, Ext) && (Has(w, v, Sealed) <==> SealedIn(f).Some?);
    var names := TypeNames(KindOf(f), SealedIn(f).Some?).value;
    forall i | 0 <= i < |names|
      ensures Has(w, v, names[i])
    {
      assert HasName(f, names[i]);
    }
  }

  lemma {:induction false} ReadableEntries(w: Vocabulary, f: StreamFields, open: Open, signer: Identity.Id32,
                                           byCaller: bool)
    requires Decodable(w, f, open, byCaller) && Table(EntriesOf(w, f, open, signer)) && Readable(f)
    ensures Arrived(w, f, open, signer).Map?
    ensures var v := Arrived(w, f, open, signer);
            forall i :: 0 <= i < |v.entries| ==> NamedOk(w, KindOf(f), byCaller, v.entries[i])
  {
    var es, v := EntriesOf(w, f, open, signer), Arrived(w, f, open, signer);
    TableDecodes(es);
    forall i | 0 <= i < |v.entries|
      ensures NamedOk(w, KindOf(f), byCaller, v.entries[i])
    {
      assert v.entries[i] in v.entries;
      var j :| 0 <= j < |es| && v.entries[i] == Entry(es[j].key, Canon(es[j].val));
      var n := NamesOf(f)[j];
      NamesAre(f, n);
      FieldCarried(w, f, open, signer, byCaller, n);
    }
  }

  /** A field no reader takes is among those that arrive. */
  lemma {:induction false} UnreadableEntry(w: Vocabulary, f: StreamFields, open: Open, signer: Identity.Id32,
                                           byCaller: bool, n: Name)
    requires NamesApart(w) && Table(EntriesOf(w, f, open, signer)) && HasName(f, n)
    requires !FieldOk(w, KindOf(f), byCaller, n, Canon(ValueOf(w, f, open, signer, n)))
    ensures StreamRead(w, KindOf(f), byCaller, Arrived(w, f, open, signer)) == Some(MalformedFrame)
  {
    FieldAmong(w, f, open, signer, n);
    UnreadableAmong(w, KindOf(f), byCaller, Arrived(w, f, open, signer), n, Canon(ValueOf(w, f, open, signer, n)));
  }

  lemma {:induction false} FieldAmong(w: Vocabulary, f: StreamFields, open: Open, signer: Identity.Id32, n: Name)
    requires NamesApart(w) && Table(EntriesOf(w, f, open, signer)) && HasName(f, n)
    ensures Arrived(w, f, open, signer).Map?
    ensures Named(w.name(n), Canon(ValueOf(w, f, open, signer, n))) in Arrived(w, f, open, signer).entries
  {
    BuiltField(w, f, open, signer, n);
    ArrivedDistinct(w, f, open, signer);
    LookupIffMember(Arrived(w, f, open, signer).entries, w.name(n), Canon(ValueOf(w, f, open, signer, n)));
  }

  lemma {:induction false} ArrivedDistinct(w: Vocabulary, f: StreamFields, open: Open, signer: Identity.Id32)
    requires Table(EntriesOf(w, f, open, signer))
    ensures Arrived(w, f, open, signer).Map? && DistinctKeys(Arrived(w, f, open, signer).entries)
  {
    TableRule(EntriesOf(w, f, open, signer));
    CanonKeeps(Map(EntriesOf(w, f, open, signer)), 0, MAX_NESTING);
  }

  lemma {:induction false} UnreadableAmong(w: Vocabulary, kind: Kind, byCaller: bool, v: Value, n: Name, x: Value)
    requires NamesApart(w) && v.Map? && Named(w.name(n), x) in v.entries && !FieldOk(w, kind, byCaller, n, x)
    ensures StreamRead(w, kind, byCaller, v) == Some(MalformedFrame)
  {
    var i :| 0 <= i < |v.entries| && v.entries[i] == Named(w.name(n), x);
    assert !NamedOk(w, kind, byCaller, v.entries[i]);
  }

  lemma {:induction false} CleanRead(w: Vocabulary, f: StreamFields, open: Open, signer: Identity.Id32, byCaller: bool)
    requires NamesApart(w) && w.raw != w.msgpack && Buildable(f, open, byCaller) && Table(EntriesOf(w, f, open, signer))
    requires Arrived(w, f, open, signer).Map?
    requires var v := Arrived(w, f, open, signer);
             forall i :: 0 <= i < |v.entries| ==> NamedOk(w, KindOf(f), byCaller, v.entries[i])
    ensures StreamRead(w, KindOf(f), byCaller, Arrived(w, f, open, signer)).None?
  {
    ExactBuilt(w, f, open, signer);
    BuiltSays(w, f, open, signer);
    ReadsClean(w, f, open, byCaller, Arrived(w, f, open, signer));
  }

  /** The fields the reading looks into. */
  ghost predicate Says(w: Vocabulary, f: StreamFields, v: Value) {
    && Get(v, w.name(Encoding)) == (if f.DataFields? then Some(Text(if f.isRaw then w.raw else w.msgpack)) else None)
    && Get(v, w.name(Role)) == (if f.EndFields? then Some(Text(if f.closesBoth then w.both else w.send)) else None)
    && (Get(v, w.name(Sealed)).Some? <==> SealedIn(f).Some?)
    && (f.DataFields? && f.sealed.None? ==> Get(v, w.name(Body)) == Some(Canon(f.body)))
    && Get(v, w.name(Ext)).None?
  }

  lemma {:induction false} BuiltSays(w: Vocabulary, f: StreamFields, open: Open, signer: Identity.Id32)
    requires NamesApart(w) && Table(EntriesOf(w, f, open, signer))
    ensures Says(w, f, Arrived(w, f, open, signer))
  {
    forall n
      ensures Get(Arrived(w, f, open, signer), w.name(n)) == FieldArrived(w, f, open, signer, n)
    {
      BuiltField(w, f, open, signer, n);
    }
    SaysFrom(w, f, open, signer, Arrived(w, f, open, signer));
  }

  lemma SaysFrom(w: Vocabulary, f: StreamFields, open: Open, signer: Identity.Id32, v: Value)
    requires forall n :: Get(v, w.name(n)) == FieldArrived(w, f, open, signer, n)
    ensures Says(w, f, v)
  {
    assert Get(v, w.name(Encoding)) == FieldArrived(w, f, open, signer, Encoding);
    assert Get(v, w.name(Role)) == FieldArrived(w, f, open, signer, Role);
  }

  lemma ReadsClean(w: Vocabulary, f: StreamFields, open: Open, byCaller: bool, v: Value)
    requires w.raw != w.msgpack && Buildable(f, open, byCaller) && Says(w, f, v)
    requires v.Map? && (forall i :: 0 <= i < |v.entries| ==> NamedOk(w, KindOf(f), byCaller, v.entries[i]))
    requires Exact(w, KindOf(f), v)
    ensures StreamRead(w, KindOf(f), byCaller, v).None?
  {
  }

  /** What is signed is read, unless it holds the null or the scheme no verifier takes. */
  lemma {:induction false} BuiltReads(w: Vocabulary, f: StreamFields, open: Open, signer: Identity.Id32, byCaller: bool)
    requires Decodable(w, f, open, byCaller)
    ensures StreamRead(w, KindOf(f), byCaller, Arrived(w, f, open, signer)) ==
              if Readable(f) then None else Some(MalformedFrame)
  {
    BuiltTable(w, f, open, signer, byCaller);
    if Readable(f) {
      ReadableEntries(w, f, open, signer, byCaller);
      CleanRead(w, f, open, signer, byCaller);
    } else {
      var n := if f.DataFields? && f.sealed.None? then Body else Sealed;
      FieldCarried(w, f, open, signer, byCaller, n);
      UnreadableEntry(w, f, open, signer, byCaller, n);
    }
  }
}

/** The names stream frames have on the wire. */
module StreamNames {
  import opened Bytes
  import opened Cbor
  import opened Fields
  import opened Streams
  import opened StreamsSigned

  function FieldText(n: Name): string {
    match n
    case Alg => "alg"
    case FrameType => "frame_type"
    case RequestId => "request_id"
    case RequestHash => "request_hash"
    case Signer => "signer"
    case Seq => "seq"
    case Encoding => "encoding"
    case Body => "body"
    case Role => "role"
    case Code => "code"
    case Message => "message"
    case Payload => "payload"
    case Sealed => "sealed"
    case Ext => "ext"
  }

  function SealedText(n: SealedName): string {
    match n
    case Scheme => "scheme"
    case KeyId => "key_id"
    case KemCt => "kem_ct"
    case Nonce => "nonce"
    case Ct => "ct"
  }

  function KindText(k: Kind): string {
    match k
    case Data => "stream_data"
    case End => "stream_end"
    case Error => "stream_error"
    case Reply => "stream_reply"
  }

  /** The field whose name has this length and these first two letters. */
  function FieldOf(length: nat, first: char, second: char): Name {
    if length == 3 then if first == 'a' then Alg else if first == 's' then Seq else Ext
    else if length == 10 then if first == 'f' then FrameType else RequestId
    else if length == 12 then RequestHash
    else if length == 6 then if second == 'i' then Signer else Sealed
    else if length == 8 then Encoding
    else if length == 4 then if first == 'b' then Body else if first == 'r' then Role else Code
    else if first == 'm' then Message
    else Payload
  }

  lemma FieldOfText(n: Name)
    ensures 2 <= |FieldText(n)| < 20 && FieldText(n)[0] as int < 128 && FieldText(n)[1] as int < 128
    ensures FieldOf(|FieldText(n)|, FieldText(n)[0], FieldText(n)[1]) == n
  {
  }

  lemma FieldsApart(j: Name, k: Name)
    requires Ascii(FieldText(j)) == Ascii(FieldText(k))
    ensures j == k
  {
    FieldOfText(j);
    FieldOfText(k);
    var x, y := FieldText(j), FieldText(k);
    assert Ascii(x)[0] == x[0] as int && Ascii(y)[0] == y[0] as int && Ascii(x)[1] == x[1] as int;
    assert Ascii(y)[1] == y[1] as int;
  }

  lemma SealedTextsApart(j: SealedName, k: SealedName)
    requires Ascii(SealedText(j)) == Ascii(SealedText(k))
    ensures j == k
  {
    var x, y := SealedText(j), SealedText(k);
    assert |x| == |y|;
    if |x| == 6 {
      assert Ascii(x)[2] == x[2] as int % 128 && Ascii(y)[2] == y[2] as int % 128;
    }
  }

  lemma TextsGood(n: Name, s: SealedName, k: Kind)
    ensures Good(Text(Ascii(FieldText(n)))) && Good(Text(Ascii(SealedText(s)))) && Good(Text(Ascii(KindText(k))))
  {
    FieldOfText(n);
    GoodAscii(FieldText(n));
    GoodAscii(SealedText(s));
    GoodAscii(KindText(k));
  }

  /** The profile whose algorithm is ML-DSA-87, any reading of extensions. */
  function Macula(shaped: Value -> bool, critical: Value -> bool): Vocabulary {
    Vocabulary(
      (n: Name) => Ascii(FieldText(n)), (n: SealedName) => Ascii(SealedText(n)), (k: Kind) => Ascii(KindText(k)),
      Ascii("raw"), Ascii("msgpack"), Ascii("send"), Ascii("both"), Ascii("ML-DSA-87"), Ascii("ML-DSA-87-PS384"),
      Ascii("MACULA-PQ-STREAM-V1"), Ascii("MACULA-PQ-CALLER-STREAM-V1"), shaped, critical)
  }

  lemma {:induction false} MaculaApart(shaped: Value -> bool, critical: Value -> bool)
    ensures NamesApart(Macula(shaped, critical)) && SealedApart(Macula(shaped, critical))
  {
    var w := Macula(shaped, critical);
    forall j, k | w.name(j) == w.name(k)
      ensures j == k
    {
      FieldsApart(j, k);
    }
    forall j, k | w.sealed(j) == w.sealed(k)
      ensures j == k
    {
      SealedTextsApart(j, k);
    }
  }

  lemma EnumGood(text: string)
    requires 0 < |text| <= 7
    ensures Good(Text(Ascii(text))) && 0 < |Ascii(text)| <= MAX_ENUM_BYTES
  {
    GoodAscii(text);
  }

  lemma {:induction false} EnumsGood(t: bytes)
    requires t in [Ascii("raw"), Ascii("msgpack"), Ascii("send"), Ascii("both")]
    ensures Good(Text(t)) && 0 < |t| <= MAX_ENUM_BYTES
  {
    EnumGood("raw");
    EnumGood("msgpack");
    EnumGood("send");
    EnumGood("both");
  }

  lemma {:induction false} MaculaIsWellChosen(shaped: Value -> bool, critical: Value -> bool)
    ensures WellChosen(Macula(shaped, critical))
  {
    var w := Macula(shaped, critical);
    MaculaApart(shaped, critical);
    forall n
      ensures Good(Text(w.name(n)))
    {
      TextsGood(n, Scheme, Data);
    }
    forall s
      ensures Good(Text(w.sealed(s)))
    {
      TextsGood(Alg, s, Data);
    }
    forall k
      ensures Good(Text(w.kind(k)))
    {
      TextsGood(Alg, Scheme, k);
    }
    forall t | t in [w.raw, w.msgpack, w.send, w.both]
      ensures Good(Text(t)) && 0 < |t| <= MAX_ENUM_BYTES
    {
      EnumsGood(t);
    }
    GoodAscii("ML-DSA-87");
    assert |w.raw| != |w.msgpack|;
  }
}
