/** The opener, challenge, CONNECT and HELLO as each end reads them: the same choice at both ends, and proofs that
    make both ends agree on what was chosen and from what. */
module HandshakeProof {
  import opened Options
  import opened Bytes
  import opened Cbor
  import opened CborCanon
  import opened Fields
  import opened TextMaps
  import opened Handshake
  import Identity

  /** Ranges an end can send: what a reader takes. */
  ghost predicate Sendable(r: Ranges) {
    && 0 <= r.min <= r.max < MAX_PROTOCOL_INT && 1 <= |r.profiles| <= MAX_PROFILES
    && (forall i :: 0 <= i < |r.profiles| ==> r.profiles[i] != [] && Good(Text(r.profiles[i])))
    && (forall i, j :: 0 <= i < j < |r.profiles| ==> r.profiles[i] != r.profiles[j])
  }

  function VersionsValue(r: Ranges): Value
    requires 0 <= r.min <= r.max < MAX_PROTOCOL_INT
  {
    List([UInt(r.min), UInt(r.max)])
  }

  lemma {:induction false} ScalarsRead(vs: seq<Value>)
    requires forall i :: 0 <= i < |vs| ==> Good(vs[i])
    ensures FitsAll(vs) && AdmissibleAll(vs, 2, MAX_NESTING) && CountAll(vs) == |vs| && CanonAll(vs) == vs
  {
    if vs != [] {
      ScalarsRead(vs[1..]);
      assert Good(vs[0]);
      assert vs == [vs[0]] + vs[1..];
    }
  }

  lemma {:induction false} VersionsRead(r: Ranges)
    requires Sendable(r)
    ensures var v := VersionsValue(r); Small(v) && Canon(v) == v && VersionsOf(v) == Some((r.min, r.max))
  {
    ScalarsRead([UInt(r.min), UInt(r.max)]);
  }

  lemma {:induction false} ProfilesRead(r: Ranges)
    requires Sendable(r)
    ensures var v := List(Texts(r.profiles)); Small(v) && Canon(v) == v && ProfilesOf(v) == Some(r.profiles)
  {
    ScalarsRead(Texts(r.profiles));
    var v := List(Texts(r.profiles));
    assert ProfileNames(v.items);
    assert ProfilesOf(v).value == r.profiles;
  }

  function SignedValue(w: Vocabulary, s: Identity.Signed): Value {
    Map([Named(w.tbs, Value.Bytes(s.tbs)), Named(w.signature, Value.Bytes(s.signature))])
  }

  predicate Bounded(s: Identity.Signed) { |s.tbs| < TWO63 && |s.signature| < TWO63 }

  lemma GoodScalar(v: Value, depth: nat)
    requires Good(v)
    ensures Fits(v) && Admissible(v, depth, MAX_NESTING) && Count(v) == 1 && Canon(v) == v
  {
  }

  lemma {:induction false} GoodEntries(es: seq<Entry>)
    requires forall i :: 0 <= i < |es| ==> es[i].key.Text? && Good(es[i].key) && Good(es[i].val)
    ensures FitsEntries(es) && AdmissibleEntries(es, 2, MAX_NESTING) && CountEntries(es) == 2 * |es|
  {
    if es != [] {
      var e := es[0];
      GoodScalar(e.key, 2);
      GoodScalar(e.val, 2);
      GoodEntries(es[1..]);
    }
  }

  lemma {:induction false} SignedRead(w: Vocabulary, s: Identity.Signed)
    requires TextsGood(w) && Bounded(s)
    ensures Small(SignedValue(w, s)) && IsSigned(w, Canon(SignedValue(w, s)))
  {
    var es := [Named(w.tbs, Value.Bytes(s.tbs)), Named(w.signature, Value.Bytes(s.signature))];
    GoodEntries(es);
    DistinctIndexed(es);
    GetOfCanon(Map(es), w.tbs, 1);
    GetOfCanon(Map(es), w.signature, 1);
    assert Lookup(es[1..], w.signature) == Some(Value.Bytes(s.signature));
  }

  // ------------------------------------------------------------------- the frames

  function OpenerValue(w: Vocabulary, r: Ranges): Key -> Value
    requires 0 <= r.min <= r.max < MAX_PROTOCOL_INT
  {
    (k: Key) =>
      match k
      case Version => UInt(VERSION)
      case FrameType => Text(w.kind(Opener))
      case Versions => VersionsValue(r)
      case _ => List(Texts(r.profiles))
  }

  datatype StationMaterial = StationMaterial(nonce: Identity.Id32, identityKey: bytes, binding: Identity.Signed,
                                             status: Identity.Signed)

  predicate StationReady(m: StationMaterial) { |m.identityKey| < TWO63 && Bounded(m.binding) && Bounded(m.status) }

  function ChallengeValue(w: Vocabulary, m: StationMaterial, version: int, profile: bytes,
                          station: Ranges): Key -> Value
    requires 0 <= station.min <= station.max < MAX_PROTOCOL_INT && -TWO63 <= version < TWO63
  {
    (k: Key) =>
      match k
      case Version => IntValue(version)
      case FrameType => Text(w.kind(Challenge))
      case Versions => VersionsValue(station)
      case Profiles => List(Texts(station.profiles))
      case Nonce => Value.Bytes(m.nonce)
      case Profile => Text(profile)
      case IdentityKey => Value.Bytes(m.identityKey)
      case TlsBinding => SignedValue(w, m.binding)
      case _ => SignedValue(w, m.status)
  }

  datatype ClientMaterial = ClientMaterial(
    identityKey: bytes, connectKey: bytes, binding: Identity.Signed, status: Identity.Signed, capabilities: u64,
    endorsement: bytes)

  predicate ClientReady(m: ClientMaterial) {
    && |m.identityKey| < TWO63 && |m.connectKey| < TWO63 && Bounded(m.binding) && Bounded(m.status)
    && m.capabilities < MAX_PROTOCOL_INT && |m.endorsement| < TWO63
  }

  function ConnectValue(w: Vocabulary, m: ClientMaterial, version: int, profile: bytes, client: Ranges,
                        proof: bytes): Key -> Value
    requires 0 <= client.min <= client.max < MAX_PROTOCOL_INT && -TWO63 <= version < TWO63
  {
    (k: Key) =>
      match k
      case Version => IntValue(version)
      case FrameType => Text(w.kind(Connect))
      case Versions => VersionsValue(client)
      case Profiles => List(Texts(client.profiles))
      case Profile => Text(profile)
      case IdentityKey => Value.Bytes(m.identityKey)
      case ConnectKey => Value.Bytes(m.connectKey)
      case ConnectBinding => SignedValue(w, m.binding)
      case ConnectStatus => SignedValue(w, m.status)
      case Capabilities => UInt(m.capabilities)
      case MemberEndorsement => Value.Bytes(m.endorsement)
      case _ => Value.Bytes(proof)
  }

  function HelloValue(w: Vocabulary, capabilities: u64, proof: bytes): Key -> Value {
    (k: Key) =>
      match k
      case Version => UInt(VERSION)
      case FrameType => Text(w.kind(Hello))
      case HelloAccepted => UInt(1)
      case Capabilities => UInt(capabilities)
      case _ => Value.Bytes(proof)
  }

  /** A value its field may hold, and a reader takes. */
  predicate Proper(w: Vocabulary, k: Key, v: Value) { Small(v) && Typed(w, k, Canon(v)) }

  lemma ScalarProper(w: Vocabulary, k: Key, v: Value)
    requires Good(v) && Typed(w, k, v)
    ensures Proper(w, k, v)
  {
    GoodScalar(v, 1);
  }

  lemma VersionsProper(w: Vocabulary, r: Ranges)
    requires Sendable(r)
    ensures Proper(w, Versions, VersionsValue(r))
  {
    VersionsRead(r);
  }

  lemma ProfilesProper(w: Vocabulary, r: Ranges)
    requires Sendable(r)
    ensures Proper(w, Profiles, List(Texts(r.profiles)))
  {
    ProfilesRead(r);
  }

  lemma SignedProper(w: Vocabulary, k: Key, s: Identity.Signed)
    requires TextsGood(w) && Bounded(s)
    requires (k == TlsBinding || k == TlsStatus || k == ConnectBinding || k == ConnectStatus)
    ensures Proper(w, k, SignedValue(w, s))
  {
    SignedRead(w, s);
  }

  lemma {:induction false} OpenerProper(w: Vocabulary, r: Ranges, k: Key)
    requires TextsGood(w) && Sendable(r) && HasKey(Opener, k)
    ensures Proper(w, k, OpenerValue(w, r)(k))
  {
    if k == Versions {
      VersionsProper(w, r);
    } else if k == Profiles {
      ProfilesProper(w, r);
    } else {
      ScalarProper(w, k, OpenerValue(w, r)(k));
    }
  }

  lemma {:induction false} ChallengeProper(w: Vocabulary, m: StationMaterial, version: int, profile: bytes,
                                           station: Ranges, k: Key)
    requires TextsGood(w) && Sendable(station) && StationReady(m) && Good(Text(profile)) && -TWO63 <= version < TWO63
    requires HasKey(Challenge, k)
    ensures Proper(w, k, ChallengeValue(w, m, version, profile, station)(k))
  {
    if k == Versions {
      VersionsProper(w, station);
    } else if k == Profiles {
      ProfilesProper(w, station);
    } else if k == TlsBinding {
      SignedProper(w, k, m.binding);
    } else if k == TlsStatus {
      SignedProper(w, k, m.status);
    } else {
      ScalarProper(w, k, ChallengeValue(w, m, version, profile, station)(k));
    }
  }

  lemma {:induction false} ConnectProper(w: Vocabulary, m: ClientMaterial, version: int, profile: bytes, client: Ranges,
                                         proof: bytes, k: Key)
    requires TextsGood(w) && Sendable(client) && ClientReady(m) && Good(Text(profile)) && |proof| < TWO63
    requires -TWO63 <= version < TWO63
    requires HasKey(Connect, k)
    ensures Proper(w, k, ConnectValue(w, m, version, profile, client, proof)(k))
  {
    if k == Versions {
      VersionsProper(w, client);
    } else if k == Profiles {
      ProfilesProper(w, client);
    } else if k == ConnectBinding {
      SignedProper(w, k, m.binding);
    } else if k == ConnectStatus {
      SignedProper(w, k, m.status);
    } else {
      ScalarProper(w, k, ConnectValue(w, m, version, profile, client, proof)(k));
    }
  }

  lemma {:induction false} HelloProper(w: Vocabulary, capabilities: u64, proof: bytes, k: Key)
    requires TextsGood(w) && capabilities < MAX_PROTOCOL_INT && |proof| < TWO63 && HasKey(Hello, k)
    ensures Proper(w, k, HelloValue(w, capabilities, proof)(k))
  {
    ScalarProper(w, k, HelloValue(w, capabilities, proof)(k));
  }

  // ------------------------------------------------------- any frame of proper values

  /** Proper values under every key of the frame. */
  ghost predicate Sound(w: Vocabulary, kind: Kind, version: int, val: Key -> Value) {
    && -TWO63 <= version < TWO63 && val(Version) == IntValue(version) && val(FrameType) == Text(w.kind(kind))
    && forall k :: HasKey(kind, k) ==> Proper(w, k, val(k))
  }

  /** A frame of proper values is read by the other end, field by field, unless it is of another version. */
  lemma {:induction false} SoundReads(w: Vocabulary, kind: Kind, version: int, val: Key -> Value)
    requires WellChosen(w) && Sound(w, kind, version, val)
    ensures Read(w, Frame(w, kind, val), kind) ==
              if version != VERSION then UnsupportedVersion else Got(Decoding(w, kind, val))
    ensures forall k :: HasKey(kind, k) ==> Get(Decoding(w, kind, val), w.key(k)) == Some(Canon(val(k)))
  {
    FrameReads(w, kind, version, val);
  }

  lemma {:induction false} EmptiedFields(w: Vocabulary, kind: Kind, val: Key -> Value, empty: Key -> Value, at: Key)
    requires KeysApart(w) && empty(at) == Value.Bytes([])
    requires forall k :: HasKey(kind, k) && k != at ==> empty(k) == val(k)
    ensures WithEmpty(FrameEntries(w, kind, val), w.key(at)) == FrameEntries(w, kind, empty)
  {
    var es, fs := FrameEntries(w, kind, val), FrameEntries(w, kind, empty);
    forall i | 0 <= i < |es|
      ensures WithEmpty(es, w.key(at))[i] == fs[i]
    {
      EmptiedAt(es, w.key(at), i);
      LayoutKeys(w, kind, Layout(w, kind)[i]);
    }
  }

  /** Its reader rebuilds it with a field emptied byte for byte as its sender built it. */
  lemma {:induction false} FrameRebuilds(w: Vocabulary, kind: Kind, version: int, val: Key -> Value,
                                         empty: Key -> Value, at: Key)
    requires WellChosen(w) && Framed(w, kind, version, val)
    requires empty(at) == Value.Bytes([]) && forall k :: HasKey(kind, k) && k != at ==> empty(k) == val(k)
    ensures FrameTBS(Frame(w, kind, val), w.key(at)) == Some(Frame(w, kind, empty))
  {
    FramedTable(w, kind, version, val);
    BuiltFrameTBS(FrameEntries(w, kind, val), w.key(at));
    EmptiedFields(w, kind, val, empty, at);
  }

  /** And whatever bytes a reader rebuilds that from, it reads every other field as the sender gave it. */
  lemma {:induction false} RebuiltReads(w: Vocabulary, raw: bytes, kind: Kind, version: int, val: Key -> Value, at: Key,
                                        k: Key)
    requires WellChosen(w) && Framed(w, kind, version, val) && val(at) == Value.Bytes([]) && |raw| < TWO63
    requires Decode(raw).Accepted? && Decode(raw).value.Map? && FrameTBS(raw, w.key(at)) == Some(Frame(w, kind, val))
    requires HasKey(kind, k) && k != at
    ensures Get(Decode(raw).value, w.key(k)) == Some(Canon(val(k)))
  {
    FramedTable(w, kind, version, val);
    EmptiedFields(w, kind, val, val, at);
    TBSFixesFields(raw, FrameEntries(w, kind, val), w.key(at), w.key(k));
    LookupFrame(w, kind, val, k);
  }

  lemma {:induction false} RebuiltFrame(w: Vocabulary, raw: bytes, kind: Kind, version: int, val: Key -> Value, at: Key)
    requires WellChosen(w) && Framed(w, kind, version, val) && val(at) == Value.Bytes([]) && |raw| < TWO63
    requires Decode(raw).Accepted? && Decode(raw).value.Map? && FrameTBS(raw, w.key(at)) == Some(Frame(w, kind, val))
    ensures forall k :: HasKey(kind, k) && k != at ==> Get(Decode(raw).value, w.key(k)) == Some(Canon(val(k)))
  {
    forall k | HasKey(kind, k) && k != at
      ensures Get(Decode(raw).value, w.key(k)) == Some(Canon(val(k)))
    {
      RebuiltReads(w, raw, kind, version, val, at, k);
    }
  }

  lemma {:induction false} OpenerFramed(w: Vocabulary, r: Ranges)
    requires WellChosen(w) && Sendable(r)
    ensures Framed(w, Opener, VERSION, OpenerValue(w, r)) && Sound(w, Opener, VERSION, OpenerValue(w, r))
  {
    forall k | HasKey(Opener, k)
      ensures Proper(w, k, OpenerValue(w, r)(k))
    {
      OpenerProper(w, r, k);
    }
  }

  lemma {:induction false} ChallengeFramed(w: Vocabulary, m: StationMaterial, version: int, profile: bytes,
                                           station: Ranges)
    requires WellChosen(w) && Sendable(station) && StationReady(m) && Good(Text(profile)) && -TWO63 <= version < TWO63
    ensures Framed(w, Challenge, version, ChallengeValue(w, m, version, profile, station))
    ensures Sound(w, Challenge, version, ChallengeValue(w, m, version, profile, station))
  {
    forall k | HasKey(Challenge, k)
      ensures Proper(w, k, ChallengeValue(w, m, version, profile, station)(k))
    {
      ChallengeProper(w, m, version, profile, station, k);
    }
  }

  lemma {:induction false} ConnectFramed(w: Vocabulary, m: ClientMaterial, version: int, profile: bytes, client: Ranges,
                                         proof: bytes)
    requires WellChosen(w) && Sendable(client) && ClientReady(m) && Good(Text(profile)) && |proof| < TWO63
    requires -TWO63 <= version < TWO63
    ensures Framed(w, Connect, version, ConnectValue(w, m, version, profile, client, proof))
  {
    forall k | HasKey(Connect, k)
      ensures Proper(w, k, ConnectValue(w, m, version, profile, client, proof)(k))
    {
      ConnectProper(w, m, version, profile, client, proof, k);
    }
  }

  lemma {:induction false} HelloFramed(w: Vocabulary, capabilities: u64, proof: bytes)
    requires WellChosen(w) && capabilities < MAX_PROTOCOL_INT && |proof| < TWO63
    ensures Framed(w, Hello, VERSION, HelloValue(w, capabilities, proof))
  {
    forall k | HasKey(Hello, k)
      ensures Proper(w, k, HelloValue(w, capabilities, proof)(k))
    {
      HelloProper(w, capabilities, proof, k);
    }
  }
}
