/** Both ends of a handshake choose alike, and when each accepts the other's proof they agree on what was chosen. */
module HandshakeAgree {
  import opened Options
  import opened Bytes
  import opened Cbor
  import opened CborCanon
  import opened Fields
  import opened TextMaps
  import opened Handshake
  import opened HandshakeProof
  import Identity

  // ---------------------------------------------------------------- each end's reading

  datatype OpenerRead = Picked(version: int, profile: bytes,
                               client: Ranges) | NoCommonVersion | NoCommonProfile | NotAnOpener

  function ReadOpener(w: Vocabulary, raw: bytes, station: Ranges): OpenerRead {
    match Read(w, raw, Opener)
    case UnsupportedVersion => NoCommonVersion
    case Got(f) => Weighed(RangesOf(w, f), station)
    case _ => NotAnOpener
  }

  function Weighed(client: Ranges, station: Ranges): OpenerRead {
    match Negotiate(client, station)
    case Chosen(version, profile) => Picked(version, profile, client)
    case NoVersion => NoCommonVersion
    case NoProfile => NoCommonProfile
  }

  datatype ChallengeRead = Agreed(version: int,
                                  station: Ranges) | NotRead(why: Reading) | DowngradeDetected | BelowFloor

  /** ReadChallenge up to the floor: the checks of keys, binding and statement that follow choose nothing. */
  function ReadChallenge(w: Vocabulary, raw: bytes, client: Ranges, profile: bytes, floor: int): (r: ChallengeRead)
    ensures r.Agreed? ==> r.version == VERSION && floor <= VERSION
  {
    match Read(w, raw, Challenge)
    case Got(f) =>
      Judged(client, RangesOf(w, f), AsInt(Field(f, w.key(Version))), Field(f, w.key(Profile)), profile, floor)
    case why => NotRead(why)
  }

  function Judged(client: Ranges, station: Ranges, version: Option<int>, named: Value, profile: bytes,
                  floor: int): ChallengeRead {
    match Negotiate(client, station)
    case Chosen(v, p) =>
      if version != Some(v) || named != Text(p) || p != profile then DowngradeDetected
      else if v < floor then BelowFloor
      else Agreed(v, station)
    case _ => DowngradeDetected
  }

  datatype Negotiated = Negotiated(version: int, profile: bytes, client: Ranges)

  datatype ConnectRead = Repeats(frame: Value) | NotConnect(why: Reading) | NegotiationMismatch | ProfileUnsupported

  /** decodeConnect: a CONNECT that repeats the opener's ranges and names the profile chosen, which is the station's. */
  function ReadConnect(w: Vocabulary, raw: bytes, n: Negotiated, profile: bytes): ConnectRead {
    match Read(w, raw, Connect)
    case Got(f) =>
      if RangesOf(w, f) != n.client then NegotiationMismatch
      else if Field(f, w.key(Profile)) != Text(n.profile) || n.profile != profile then ProfileUnsupported
      else Repeats(f)
    case why => NotConnect(why)
  }

  // --------------------------------------------------------------------- one choice

  function OpenerBytes(w: Vocabulary, r: Ranges): bytes
    requires 0 <= r.min <= r.max < MAX_PROTOCOL_INT
  {
    Frame(w, Opener, OpenerValue(w, r))
  }

  function ChallengeBytes(w: Vocabulary, m: StationMaterial, version: int, profile: bytes, station: Ranges): bytes
    requires 0 <= station.min <= station.max < MAX_PROTOCOL_INT && -TWO63 <= version < TWO63
  {
    Frame(w, Challenge, ChallengeValue(w, m, version, profile, station))
  }

  lemma {:induction false} RangesReadBack(w: Vocabulary, v: Value, r: Ranges)
    requires Sendable(r)
    requires Get(v, w.key(Versions)) == Some(Canon(VersionsValue(r)))
    requires Get(v, w.key(Profiles)) == Some(Canon(List(Texts(r.profiles))))
    ensures RangesOf(w, v) == r
  {
    VersionsRead(r);
    ProfilesRead(r);
  }

  /** A station weighs exactly the ranges the client's opener was built from. */
  lemma {:induction false} OpenerReads(w: Vocabulary, client: Ranges, station: Ranges)
    requires WellChosen(w) && Sendable(client)
    ensures ReadOpener(w, OpenerBytes(w, client), station) == Weighed(client, station)
  {
    OpenerFramed(w, client);
    SoundReads(w, Opener, VERSION, OpenerValue(w, client));
    RangesReadBack(w, Decoding(w, Opener, OpenerValue(w, client)), client);
  }

  /** A client judges a challenge by exactly the version, profile and ranges the station built it with. */
  lemma {:induction false} ChallengeReads(w: Vocabulary, m: StationMaterial, version: int, named: bytes,
                                          station: Ranges,
                                          client: Ranges, profile: bytes, floor: int)
    requires WellChosen(w) && Sendable(station) && StationReady(m) && Good(Text(named)) && -TWO63 <= version < TWO63
    ensures ReadChallenge(w, ChallengeBytes(w, m, version, named, station), client, profile, floor) ==
              if version != VERSION then NotRead(UnsupportedVersion)
              else Judged(client, station, Some(version), Text(named), profile, floor)
  {
    var f := Decoding(w, Challenge, ChallengeValue(w, m, version, named, station));
    ChallengeGot(w, m, version, named, station);
    ChallengeSays(w, m, version, named, station);
    RangesReadBack(w, f, station);
    if version == VERSION {
      JudgedAs(w, ChallengeBytes(w, m, version, named, station), f, version, named, client, profile, floor);
    }
  }

  lemma ChallengeGot(w: Vocabulary, m: StationMaterial, version: int, named: bytes, station: Ranges)
    requires WellChosen(w) && Sendable(station) && StationReady(m) && Good(Text(named)) && -TWO63 <= version < TWO63
    ensures Read(w, ChallengeBytes(w, m, version, named, station), Challenge) ==
              if version != VERSION then UnsupportedVersion
              else Got(Decoding(w, Challenge, ChallengeValue(w, m, version, named, station)))
  {
    ChallengeFramed(w, m, version, named, station);
    SoundReads(w, Challenge, version, ChallengeValue(w, m, version, named, station));
  }

  /** The fields of a frame that say what was negotiated, and from what. */
  ghost predicate Says(w: Vocabulary, f: Value, version: int, profile: bytes, r: Ranges) {
    && 0 <= r.min <= r.max < MAX_PROTOCOL_INT && -TWO63 <= version < TWO63
    && Get(f, w.key(Version)) == Some(IntValue(version)) && Get(f, w.key(Profile)) == Some(Text(profile))
    && Get(f, w.key(Versions)) == Some(Canon(VersionsValue(r)))
    && Get(f, w.key(Profiles)) == Some(Canon(List(Texts(r.profiles))))
  }

  lemma {:induction false} ChallengeSays(w: Vocabulary, m: StationMaterial, version: int, named: bytes, station: Ranges)
    requires WellChosen(w) && Sendable(station) && StationReady(m) && Good(Text(named)) && -TWO63 <= version < TWO63
    ensures Says(w, Decoding(w, Challenge, ChallengeValue(w, m, version, named, station)), version, named, station)
  {
    ChallengeField(w, m, version, named, station, Version);
    ChallengeField(w, m, version, named, station, Profile);
    ChallengeField(w, m, version, named, station, Versions);
    ChallengeField(w, m, version, named, station, Profiles);
  }

  lemma {:induction false} ChallengeField(w: Vocabulary, m: StationMaterial, version: int, named: bytes,
                                          station: Ranges, k: Key)
    requires WellChosen(w) && Sendable(station) && StationReady(m) && Good(Text(named)) && -TWO63 <= version < TWO63
    requires HasKey(Challenge, k)
    ensures Get(Decoding(w, Challenge, ChallengeValue(w, m, version, named, station)), w.key(k)) ==
              Some(Canon(ChallengeValue(w, m, version, named, station)(k)))
  {
    ChallengeFramed(w, m, version, named, station);
    SoundReads(w, Challenge, version, ChallengeValue(w, m, version, named, station));
  }

  lemma JudgedAs(w: Vocabulary, raw: bytes, f: Value, version: int, named: bytes, client: Ranges, profile: bytes,
                 floor: int)
    requires Read(w, raw, Challenge) == Got(f) && -TWO63 <= version < TWO63
    requires Get(f, w.key(Profile)) == Some(Text(named)) && Get(f, w.key(Version)) == Some(IntValue(version))
    ensures ReadChallenge(w, raw, client, profile, floor) ==
              Judged(client, RangesOf(w, f), Some(version), Text(named), profile, floor)
  {
  }

  /** One choice at both ends. When a station's reading of a client's opener picks a version and a profile, the
      client agrees to a challenge with the station's ranges exactly when it names that version and that profile,
      the version is this one, the profile is the client's own and the version is not below its floor; any other
      challenge is refused, as of another version or as a downgrade. */
  lemma {:induction false} SameChoice(w: Vocabulary, client: Ranges, station: Ranges, m: StationMaterial,
                                      version: int, named: bytes, profile: bytes, floor: int)
    requires WellChosen(w) && Sendable(client) && Sendable(station) && StationReady(m) && Good(Text(named))
    requires -TWO63 <= version < TWO63
    requires ReadOpener(w, OpenerBytes(w, client), station).Picked?
    ensures var picked := ReadOpener(w, OpenerBytes(w, client), station);
            && picked.client == client
            && ReadChallenge(w, ChallengeBytes(w, m, version, named, station), client, profile, floor) ==
                 if version != VERSION then NotRead(UnsupportedVersion)
                 else if version != picked.version || named != picked.profile || picked.profile != profile
                 then DowngradeDetected
                 else if version < floor then BelowFloor
                 else Agreed(picked.version, station)
  {
    OpenerReads(w, client, station);
    ChallengeReads(w, m, version, named, station, client, profile, floor);
  }

  /** A choice below this version is made and never agreed to: a station that speaks [4, 5] picks 4 for a client of
      [4, 4], and that client refuses the challenge as of another version. */
  lemma {:induction false} OldVersionRefused(w: Vocabulary, m: StationMaterial, profile: bytes, floor: int)
    requires WellChosen(w) && StationReady(m) && Good(Text(profile)) && profile != []
    ensures var client, station := Ranges(4, 4, [profile]), Ranges(4, 5, [profile]);
            && ReadOpener(w, OpenerBytes(w, client), station) == Picked(4, profile, client)
            && ReadChallenge(w, ChallengeBytes(w, m, 4, profile, station), client, profile, floor) ==
                NotRead(UnsupportedVersion)
  {
    var client, station := Ranges(4, 4, [profile]), Ranges(4, 5, [profile]);
    OpenerReads(w, client, station);
    ChallengeReads(w, m, 4, profile, station, client, profile, floor);
  }

  // ------------------------------------------------------------------ what is signed

  function ConnectBytes(w: Vocabulary, m: ClientMaterial, version: int, profile: bytes, client: Ranges,
                        proof: bytes): bytes
    requires 0 <= client.min <= client.max < MAX_PROTOCOL_INT && -TWO63 <= version < TWO63
  {
    Frame(w, Connect, ConnectValue(w, m, version, profile, client, proof))
  }

  function HelloBytes(w: Vocabulary, capabilities: u64, proof: bytes): bytes {
    Frame(w, Hello, HelloValue(w, capabilities, proof))
  }

  /** The tbs a station rebuilds from a CONNECT is byte for byte what the client signed, whatever the proof. */
  lemma {:induction false} ConnectRebuilds(w: Vocabulary, m: ClientMaterial, version: int, profile: bytes,
                                           client: Ranges, proof: bytes)
    requires WellChosen(w) && Sendable(client) && ClientReady(m) && Good(Text(profile)) && |proof| < TWO63
    requires -TWO63 <= version < TWO63
    ensures FrameTBS(ConnectBytes(w, m, version, profile, client, proof), w.key(Proof)) ==
              Some(ConnectBytes(w, m, version, profile, client, []))
  {
    ConnectFramed(w, m, version, profile, client, proof);
    FrameRebuilds(w, Connect, version, ConnectValue(w, m, version, profile, client, proof),
                  ConnectValue(w, m, version, profile, client, []), Proof);
  }

  /** And so for a HELLO and its session proof. */
  lemma {:induction false} HelloRebuilds(w: Vocabulary, capabilities: u64, proof: bytes)
    requires WellChosen(w) && capabilities < MAX_PROTOCOL_INT && |proof| < TWO63
    ensures FrameTBS(HelloBytes(w, capabilities, proof), w.key(SessionProof)) == Some(HelloBytes(w, capabilities, []))
  {
    HelloFramed(w, capabilities, proof);
    FrameRebuilds(w, Hello, VERSION, HelloValue(w, capabilities, proof), HelloValue(w, capabilities, []), SessionProof);
  }

  // -------------------------------------------------------------------- the proofs

  type Hash = bytes -> Identity.Hash48

  /** What one end knows of a session when it signs or checks the client's proof. */
  datatype Session = Session(
    nonce: Identity.Id32, station: Identity.Id32, client: Identity.Id32, leaf: bytes, challenge: bytes,
    exported: Identity.Id32)

  function ProofMessage(w: Vocabulary, hash: Hash, s: Session, tbs: bytes): bytes {
    w.connectProof + [0] + s.nonce + s.station + s.client + hash(s.leaf) + hash(s.challenge) + s.exported + hash(tbs)
  }

  function SessionProofMessage(w: Vocabulary, hash: Hash, s: Session, connect: bytes, tbs: bytes): bytes {
    w.sessionProof + [0] + s.exported + hash(s.challenge) + hash(connect) + s.station + s.client + hash(tbs)
  }

  lemma {:induction false} SplitFront(a: bytes, b: bytes, x: bytes, y: bytes)
    requires |a| == |b| && a + x == b + y
    ensures a == b && x == y
  {
    assert a == (a + x)[..|a|] && b == (b + y)[..|b|];
    assert x == (a + x)[|a|..] && y == (b + y)[|b|..];
  }

  /** No two sequences of fields of fixed width give one message. */
  lemma {:induction false} ProofMessageSays(w: Vocabulary, hash: Hash, s: Session, tbs: bytes, t: Session, other: bytes)
    requires ProofMessage(w, hash, s, tbs) == ProofMessage(w, hash, t, other)
    ensures s.nonce == t.nonce && s.station == t.station && s.client == t.client && s.exported == t.exported
    ensures hash(s.leaf) == hash(t.leaf) && hash(s.challenge) == hash(t.challenge) && hash(tbs) == hash(other)
  {
    var front := w.connectProof + [0];
    var s6, t6 := hash(tbs), hash(other);
    var s5, t5 := s.exported + s6, t.exported + t6;
    var s4, t4 := hash(s.challenge) + s5, hash(t.challenge) + t5;
    var s3, t3 := hash(s.leaf) + s4, hash(t.leaf) + t4;
    var s2, t2 := s.client + s3, t.client + t3;
    var s1, t1 := s.station + s2, t.station + t2;
    var s0, t0 := s.nonce + s1, t.nonce + t1;
    assert ProofMessage(w, hash, s, tbs) == front + s0 && ProofMessage(w, hash, t, other) == front + t0;
    SplitFront(front, front, s0, t0);
    SplitFront(s.nonce, t.nonce, s1, t1);
    SplitFront(s.station, t.station, s2, t2);
    SplitFront(s.client, t.client, s3, t3);
    SplitFront(hash(s.leaf), hash(t.leaf), s4, t4);
    SplitFront(hash(s.challenge), hash(t.challenge), s5, t5);
    SplitFront(s.exported, t.exported, s6, t6);
  }

  lemma {:induction false} SessionMessageSays(w: Vocabulary, hash: Hash, s: Session, connect: bytes, tbs: bytes,
                                              t: Session, received: bytes, other: bytes)
    requires SessionProofMessage(w, hash, s, connect, tbs) == SessionProofMessage(w, hash, t, received, other)
    ensures s.exported == t.exported && s.station == t.station && s.client == t.client
    ensures hash(s.challenge) == hash(t.challenge) && hash(connect) == hash(received) && hash(tbs) == hash(other)
  {
    var front := w.sessionProof + [0];
    var s5, t5 := hash(tbs), hash(other);
    var s4, t4 := s.client + s5, t.client + t5;
    var s3, t3 := s.station + s4, t.station + t4;
    var s2, t2 := hash(connect) + s3, hash(received) + t3;
    var s1, t1 := hash(s.challenge) + s2, hash(t.challenge) + t2;
    var s0, t0 := s.exported + s1, t.exported + t1;
    assert SessionProofMessage(w, hash, s, connect, tbs) == front + s0;
    assert SessionProofMessage(w, hash, t, received, other) == front + t0;
    SplitFront(front, front, s0, t0);
    SplitFront(s.exported, t.exported, s1, t1);
    SplitFront(hash(s.challenge), hash(t.challenge), s2, t2);
    SplitFront(hash(connect), hash(received), s3, t3);
    SplitFront(s.station, t.station, s4, t4);
    SplitFront(s.client, t.client, s5, t5);
  }

  /** A CONNECT whose rebuilt tbs is one the client signed reads with the client's own ranges and profile. */
  lemma {:induction false} ConnectSaysSame(w: Vocabulary, raw: bytes, n: Negotiated, own: bytes,
                                           m: ClientMaterial, version: int, profile: bytes, client: Ranges)
    requires WellChosen(w) && Sendable(client) && ClientReady(m) && Good(Text(profile)) && -TWO63 <= version < TWO63
    requires |raw| < TWO63
    requires ReadConnect(w, raw, n, own).Repeats?
    requires FrameTBS(raw, w.key(Proof)) == Some(ConnectBytes(w, m, version, profile, client, []))
    ensures n.client == client && n.profile == profile && own == profile && version == VERSION
  {
    var v := Decode(raw).value;
    RepeatsSays(w, raw, n, own);
    RebuiltSays(w, raw, m, version, profile, client);
    SaysAlike(w, v, version, profile, client, n, own);
  }

  lemma {:induction false} SaysAlike(w: Vocabulary, v: Value, version: int, profile: bytes, client: Ranges,
                                     n: Negotiated, own: bytes)
    requires Says(w, v, version, profile, client) && Sendable(client)
    requires AsInt(Field(v, w.key(Version))) == Some(VERSION)
    requires RangesOf(w, v) == n.client && Field(v, w.key(Profile)) == Text(n.profile) && n.profile == own
    ensures n.client == client && n.profile == profile && own == profile && version == VERSION
  {
    RangesReadBack(w, v, client);
  }

  lemma RepeatsSays(w: Vocabulary, raw: bytes, n: Negotiated, own: bytes)
    requires ReadConnect(w, raw, n, own).Repeats?
    ensures Decode(raw).Accepted? && Decode(raw).value.Map?
    ensures AsInt(Field(Decode(raw).value, w.key(Version))) == Some(VERSION)
    ensures RangesOf(w, Decode(raw).value) == n.client && Field(Decode(raw).value, w.key(Profile)) == Text(n.profile)
    ensures n.profile == own
  {
  }

  lemma {:induction false} RebuiltSays(w: Vocabulary, raw: bytes, m: ClientMaterial, version: int, profile: bytes,
                                       client: Ranges)
    requires WellChosen(w) && Sendable(client) && ClientReady(m) && Good(Text(profile)) && -TWO63 <= version < TWO63
    requires |raw| < TWO63
    requires Decode(raw).Accepted? && Decode(raw).value.Map?
    requires FrameTBS(raw, w.key(Proof)) == Some(ConnectBytes(w, m, version, profile, client, []))
    ensures Says(w, Decode(raw).value, version, profile, client)
  {
    RebuiltConnect(w, raw, m, version, profile, client);
    SaysFrom(w, Decode(raw).value, m, version, profile, client);
  }

  /** Every field but the proof reads as the client built it. */
  ghost predicate ReadsConnect(w: Vocabulary, v: Value, m: ClientMaterial, version: int, profile: bytes, client: Ranges)
    requires 0 <= client.min <= client.max < MAX_PROTOCOL_INT && -TWO63 <= version < TWO63
  {
    forall k :: HasKey(Connect, k) && k != Proof ==>
      Get(v, w.key(k)) == Some(Canon(ConnectValue(w, m, version, profile, client, [])(k)))
  }

  lemma {:induction false} RebuiltConnect(w: Vocabulary, raw: bytes, m: ClientMaterial, version: int, profile: bytes,
                                          client: Ranges)
    requires WellChosen(w) && Sendable(client) && ClientReady(m) && Good(Text(profile)) && -TWO63 <= version < TWO63
    requires |raw| < TWO63
    requires Decode(raw).Accepted? && Decode(raw).value.Map?
    requires FrameTBS(raw, w.key(Proof)) == Some(ConnectBytes(w, m, version, profile, client, []))
    ensures ReadsConnect(w, Decode(raw).value, m, version, profile, client)
  {
    var val := ConnectValue(w, m, version, profile, client, []);
    ConnectFramed(w, m, version, profile, client, []);
    RebuiltFrame(w, raw, Connect, version, val, Proof);
  }

  lemma SaysFrom(w: Vocabulary, v: Value, m: ClientMaterial, version: int, profile: bytes, client: Ranges)
    requires 0 <= client.min <= client.max < MAX_PROTOCOL_INT && -TWO63 <= version < TWO63
    requires ReadsConnect(w, v, m, version, profile, client)
    ensures Says(w, v, version, profile, client)
  {
    assert HasKey(Connect, Version) && HasKey(Connect, Profile) && HasKey(Connect, Versions);
    assert HasKey(Connect, Profiles);
  }

  lemma {:induction false} AgreedOnOwn(w: Vocabulary, sm: StationMaterial, n: Negotiated, station: Ranges,
                                       client: Ranges, profile: bytes, floor: int)
    requires WellChosen(w) && Sendable(station) && StationReady(sm) && Good(Text(n.profile))
    requires -TWO63 <= n.version < TWO63
    requires ReadChallenge(w, ChallengeBytes(w, sm, n.version, n.profile, station), client, profile, floor).Agreed?
    ensures ReadChallenge(w, ChallengeBytes(w, sm, n.version, n.profile, station), client, profile, floor) ==
              Agreed(n.version, station)
  {
    ChallengeReads(w, sm, n.version, n.profile, station, client, profile, floor);
  }

  /** What the station reads of the client in a CONNECT is what the client put there. */
  ghost predicate ReadsClient(w: Vocabulary, connect: bytes, m: ClientMaterial) {
    var v := Decode(connect);
    && v.Accepted?
    && Get(v.value, w.key(IdentityKey)) == Some(Value.Bytes(m.identityKey))
    && Get(v.value, w.key(ConnectKey)) == Some(Value.Bytes(m.connectKey))
    && Get(v.value, w.key(Capabilities)) == Some(UInt(m.capabilities))
    && Get(v.value, w.key(MemberEndorsement)) == Some(Value.Bytes(m.endorsement))
  }

  lemma {:induction false} RebuiltReadsClient(w: Vocabulary, connect: bytes, m: ClientMaterial, version: int,
                                              profile: bytes, client: Ranges)
    requires WellChosen(w) && Sendable(client) && ClientReady(m) && Good(Text(profile)) && -TWO63 <= version < TWO63
    requires |connect| < TWO63 && Decode(connect).Accepted? && Decode(connect).value.Map?
    requires FrameTBS(connect, w.key(Proof)) == Some(ConnectBytes(w, m, version, profile, client, []))
    ensures ReadsClient(w, connect, m)
  {
    RebuiltConnect(w, connect, m, version, profile, client);
    ClientFrom(w, connect, m, version, profile, client);
  }

  lemma ClientFrom(w: Vocabulary, connect: bytes, m: ClientMaterial, version: int, profile: bytes, client: Ranges)
    requires 0 <= client.min <= client.max < MAX_PROTOCOL_INT && -TWO63 <= version < TWO63
    requires Decode(connect).Accepted? && ReadsConnect(w, Decode(connect).value, m, version, profile, client)
    ensures ReadsClient(w, connect, m)
  {
    var v := Decode(connect).value;
    assert HasKey(Connect, IdentityKey) && HasKey(Connect, ConnectKey);
    assert HasKey(Connect, Capabilities) && HasKey(Connect, MemberEndorsement);
  }

  /** When both ends accept, they agree. The client read some challenge and signed its proof over it; the station
      accepted some CONNECT, and the message it verified the proof over is the one the client signed. Then the
      version, the profile and both ranges are the same at both ends, as are nonce, node ids and exporter value, and
      the station reads the client's own keys, capabilities and endorsement; or here are two byte strings with one
      SHA-384. The leaf is the same too, or such a pair itself. */
  lemma {:induction false} BothAcceptBothAgree(
      w: Vocabulary, hash: Hash, atClient: Session, atStation: Session,
      client: Ranges, m: ClientMaterial, profile: bytes, floor: int,
      station: Ranges, sm: StationMaterial, n: Negotiated, connect: bytes, tbs: bytes)
    requires WellChosen(w) && Sendable(client) && Sendable(station) && ClientReady(m) && StationReady(sm)
    requires Good(Text(profile)) && Good(Text(n.profile)) && -TWO63 <= n.version < TWO63 && |connect| < TWO63
    requires ReadChallenge(w, atClient.challenge, client, profile, floor).Agreed?
    requires atStation.challenge == ChallengeBytes(w, sm, n.version, n.profile, station)
    requires ReadConnect(w, connect, n, n.profile).Repeats? && FrameTBS(connect, w.key(Proof)) == Some(tbs)
    requires var version := ReadChallenge(w, atClient.challenge, client, profile, floor).version;
             ProofMessage(w, hash, atClient, ConnectBytes(w, m, version, profile, client, [])) ==
                 ProofMessage(w, hash, atStation, tbs)
    ensures var agreed := ReadChallenge(w, atClient.challenge, client, profile, floor);
            || Collision(hash, atClient.challenge, atStation.challenge)
            || Collision(hash, ConnectBytes(w, m, agreed.version, profile, client, []), tbs)
            || (&& agreed.version == n.version && profile == n.profile && agreed.station == station
                && n.client == client
                && atClient.nonce == atStation.nonce && atClient.exported == atStation.exported
                && atClient.station == atStation.station && atClient.client == atStation.client
                && ReadsClient(w, connect, m))
    ensures atClient.leaf == atStation.leaf || Collision(hash, atClient.leaf, atStation.leaf)
  {
    var version := ReadChallenge(w, atClient.challenge, client, profile, floor).version;
    var signed := ConnectBytes(w, m, version, profile, client, []);
    ProofMessageSays(w, hash, atClient, signed, atStation, tbs);
    if atClient.challenge == atStation.challenge && signed == tbs {
      ConnectSaysSame(w, connect, n, n.profile, m, version, profile, client);
      RepeatsSays(w, connect, n, n.profile);
      RebuiltReadsClient(w, connect, m, version, profile, client);
      AgreedOnOwn(w, sm, n, station, client, profile, floor);
    }
  }

  /** The session proof binds the rest: a HELLO whose rebuilt tbs, with the challenge and CONNECT the client holds,
      gives a message the station signed, answers that very challenge and that very CONNECT, with the capabilities
      the station sent; or here are two byte strings with one SHA-384. */
  lemma {:induction false} HelloAnswersSession(w: Vocabulary, hash: Hash, atClient: Session, sent: bytes, hello: bytes,
                                               tbs: bytes,
                                               atStation: Session, received: bytes, capabilities: u64)
    requires WellChosen(w) && capabilities < MAX_PROTOCOL_INT && |hello| < TWO63
    requires Read(w, hello, Hello).Got? && FrameTBS(hello, w.key(SessionProof)) == Some(tbs)
    requires SessionProofMessage(w, hash, atClient, sent, tbs) ==
             SessionProofMessage(w, hash, atStation, received, HelloBytes(w, capabilities, []))
    ensures || Collision(hash, atClient.challenge, atStation.challenge) || Collision(hash, sent, received)
            || Collision(hash, tbs, HelloBytes(w, capabilities, []))
            || (&& atClient.challenge == atStation.challenge && sent == received
                && atClient.station == atStation.station && atClient.client == atStation.client
                && atClient.exported == atStation.exported
                && Get(Decode(hello).value, w.key(Capabilities)) == Some(UInt(capabilities)))
  {
    SessionMessageSays(w, hash, atClient, sent, tbs, atStation, received, HelloBytes(w, capabilities, []));
    if tbs == HelloBytes(w, capabilities, []) {
      HelloSays(w, hello, capabilities);
    }
  }

  lemma {:induction false} HelloSays(w: Vocabulary, hello: bytes, capabilities: u64)
    requires WellChosen(w) && capabilities < MAX_PROTOCOL_INT && |hello| < TWO63
    requires Decode(hello).Accepted? && Decode(hello).value.Map?
    requires FrameTBS(hello, w.key(SessionProof)) == Some(HelloBytes(w, capabilities, []))
    ensures Get(Decode(hello).value, w.key(Capabilities)) == Some(UInt(capabilities))
  {
    HelloFramed(w, capabilities, []);
    RebuiltReads(w, hello, Hello, VERSION, HelloValue(w, capabilities, []), SessionProof, Capabilities);
  }
}
