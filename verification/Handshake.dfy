/** The handshake's negotiation and what its proofs cover: one choice made at both ends, and signed bytes that each
    end rebuilds from what it received. */
module Handshake {
  import opened Options
  import opened Bytes
  import opened Cbor
  import opened CborCanon
  import opened Fields
  import opened TextMaps

  const VERSION := 5
  const MAX_PROFILES := 8
  const MAX_PROTOCOL_INT := 0x20_0000_0000_0000

  /** The keys of handshake frames, and the frames. */
  datatype Key =
    | Version | FrameType | Versions | Profiles | Nonce | Profile | IdentityKey | TlsBinding | TlsStatus
    | Capabilities | ConnectBinding | ConnectKey | ConnectStatus | MemberEndorsement | Proof | HelloAccepted
    | SessionProof

  datatype Kind = Opener | Challenge | Connect | Hello

  /** Every name and fixed text of the handshake, as bytes, and the keys in the order frames are built. */
  datatype Vocabulary = Vocabulary(
    keys: seq<Key>, key: Key -> bytes, kind: Kind -> bytes, tbs: bytes, signature: bytes, connectProof: bytes,
    sessionProof: bytes)

  /** Each key is listed once, and no two have one name. */
  ghost predicate KeysApart(w: Vocabulary) {
    && (forall j, k :: w.key(j) == w.key(k) ==> j == k)
    && |w.keys| <= 17 && Distinct(w.keys) && forall k :: k in w.keys
  }

  ghost predicate Distinct(keys: seq<Key>) { forall i, j :: 0 <= i < j < |keys| ==> keys[i] != keys[j] }

  ghost predicate WellChosen(w: Vocabulary) {
    && KeysApart(w) && (forall k :: Good(Text(w.key(k))))
    && TextsGood(w)
  }

  ghost predicate TextsGood(w: Vocabulary) {
    && (forall k :: Good(Text(w.kind(k))))
    && w.tbs != w.signature && Good(Text(w.tbs)) && Good(Text(w.signature))
  }

  function KeyName(k: Key): string {
    match k
    case Version => "version"
    case FrameType => "frame_type"
    case Versions => "versions"
    case Profiles => "profiles"
    case Nonce => "nonce"
    case Profile => "profile"
    case IdentityKey => "identity_key"
    case TlsBinding => "tls_binding"
    case TlsStatus => "tls_status"
    case Capabilities => "capabilities"
    case ConnectBinding => "connect_binding"
    case ConnectKey => "connect_key"
    case ConnectStatus => "connect_status"
    case MemberEndorsement => "member_endorsement"
    case Proof => "proof"
    case HelloAccepted => "accepted"
    case SessionProof => "session_proof"
  }

  function KindName(k: Kind): string {
    match k
    case Opener => "opener"
    case Challenge => "challenge"
    case Connect => "connect"
    case Hello => "hello"
  }

  function AllKeys(): seq<Key> {
    [Version, FrameType, Versions, Profiles, Nonce, Profile, IdentityKey, TlsBinding, TlsStatus, Capabilities,
     ConnectBinding, ConnectKey, ConnectStatus, MemberEndorsement, Proof, HelloAccepted, SessionProof]
  }

  lemma AllKeysListed(k: Key)
    ensures |AllKeys()| == 17 && Distinct(AllKeys()) && k in AllKeys()
  {
  }

  function Macula(): Vocabulary {
    Vocabulary(
      AllKeys(), (k: Key) => Ascii(KeyName(k)), (k: Kind) => Ascii(KindName(k)), Ascii("tbs"), Ascii("signature"),
      Ascii("MACULA-PQ-CONNECT-PROOF-V3"), Ascii("MACULA-PQ-SESSION-PROOF-V2"))
  }

  /** The key a name of that length and first letter is of. */
  function KeyNamed(length: nat, first: char): Key {
    if length == 7 then if first == 'v' then Version else Profile
    else if length == 10 then if first == 'f' then FrameType else TlsStatus
    else if length == 8 then if first == 'v' then Versions else if first == 'p' then Profiles else HelloAccepted
    else if length == 5 then if first == 'n' then Nonce else Proof
    else if length == 12 then if first == 'i' then IdentityKey else Capabilities
    else if length == 11 then if first == 't' then TlsBinding else ConnectKey
    else if length == 15 then ConnectBinding
    else if length == 14 then ConnectStatus
    else if length == 18 then MemberEndorsement
    else SessionProof
  }

  lemma KeyOfName(k: Key)
    ensures 0 < |KeyName(k)| < 20 && KeyName(k)[0] as int < 128 && KeyNamed(|KeyName(k)|, KeyName(k)[0]) == k
  {
  }

  lemma NamesDiffer(j: Key, k: Key)
    requires Ascii(KeyName(j)) == Ascii(KeyName(k))
    ensures j == k
  {
    KeyOfName(j);
    KeyOfName(k);
    var x, y := KeyName(j), KeyName(k);
    assert Ascii(x)[0] == x[0] as int % 128 && Ascii(y)[0] == y[0] as int % 128;
  }

  lemma NamesGood(k: Key, kind: Kind)
    ensures Good(Text(Ascii(KeyName(k)))) && Good(Text(Ascii(KindName(kind))))
  {
    KeyOfName(k);
    GoodAscii(KeyName(k));
    GoodAscii(KindName(kind));
  }

  lemma {:induction false} MaculaIsWellChosen()
    ensures WellChosen(Macula())
  {
    var w := Macula();
    forall j, k | w.key(j) == w.key(k)
      ensures j == k
    {
      NamesDiffer(j, k);
    }
    forall k
      ensures k in w.keys && Good(Text(w.key(k)))
    {
      AllKeysListed(k);
      NamesGood(k, Opener);
    }
    AllKeysListed(Version);
    forall kind
      ensures Good(Text(w.kind(kind)))
    {
      NamesGood(Version, kind);
    }
    GoodAscii("tbs");
    GoodAscii("signature");
    assert |w.tbs| != |w.signature|;
  }

  // ----------------------------------------------------------------- negotiation

  datatype Ranges = Ranges(min: int, max: int, profiles: seq<bytes>)

  datatype Choice = Chosen(version: int, profile: bytes) | NoVersion | NoProfile

  function Least(a: int, b: int): int { if a < b then a else b }
  function Most(a: int, b: int): int { if a > b then a else b }

  function FirstShared(ours: seq<bytes>, theirs: seq<bytes>): Option<bytes> {
    if ours == [] then None else if ours[0] in theirs then Some(ours[0]) else FirstShared(ours[1..], theirs)
  }

  function Negotiate(client: Ranges, station: Ranges): Choice {
    var version := Least(Least(client.max, station.max), VERSION);
    if version < Most(client.min, station.min) then NoVersion
    else
      match FirstShared(client.profiles, station.profiles)
      case Some(p) => Chosen(version, p)
      case None => NoProfile
  }

  /** negotiate's loop over the client's profiles. */
  method PickProfile(ours: seq<bytes>, theirs: seq<bytes>) returns (p: Option<bytes>)
    ensures p == FirstShared(ours, theirs)
  {
    assert ours[0..] == ours;
    for i := 0 to |ours|
      invariant FirstShared(ours[i..], theirs) == FirstShared(ours, theirs)
    {
      assert ours[i..][1..] == ours[i + 1..];
      if ours[i] in theirs {
        return Some(ours[i]);
      }
    }
    return None;
  }

  predicate InBoth(client: Ranges, station: Ranges, version: int) {
    client.min <= version <= client.max && station.min <= version <= station.max && version <= VERSION
  }

  /** The choice is the best there is: the highest version both ends and this library speak, and of the profiles both
      list, the one the client likes best; with none of the one or of the other, no choice is made. */
  lemma {:induction false} NegotiateIsBest(client: Ranges, station: Ranges)
    ensures var c := Negotiate(client, station);
            && (c.NoVersion? <==> forall v :: !InBoth(client, station, v))
            && (c.NoProfile? ==> forall p :: p in client.profiles ==> p !in station.profiles)
            && (c.Chosen? ==>
                  && InBoth(client, station, c.version) && (forall v :: InBoth(client, station, v) ==> v <= c.version)
                  && FirstOf(client.profiles, station.profiles, c.profile))
  {
    var version := Least(Least(client.max, station.max), VERSION);
    assert InBoth(client, station, version) || forall v :: !InBoth(client, station, v);
    FirstSharedIs(client.profiles, station.profiles);
  }

  ghost predicate FirstOf(ours: seq<bytes>, theirs: seq<bytes>, p: bytes) {
    exists i :: 0 <= i < |ours| && ours[i] == p && p in theirs && forall j :: 0 <= j < i ==> ours[j] !in theirs
  }

  lemma {:induction false} FirstSharedIs(ours: seq<bytes>, theirs: seq<bytes>)
    ensures FirstShared(ours, theirs).None? <==> forall p :: p in ours ==> p !in theirs
    ensures FirstShared(ours, theirs).Some? ==> FirstOf(ours, theirs, FirstShared(ours, theirs).value)
  {
    if ours != [] {
      FirstSharedIs(ours[1..], theirs);
      assert ours == [ours[0]] + ours[1..];
      if ours[0] !in theirs && FirstShared(ours[1..], theirs).Some? {
        var p := FirstShared(ours[1..], theirs).value;
        var i :| && 0 <= i < |ours[1..]| && ours[1..][i] == p && p in theirs
                 && forall j :: 0 <= j < i ==> ours[1..][j] !in theirs;
        assert ours[i + 1] == p;
        assert forall j :: 0 < j < i + 1 ==> ours[j] == ours[1..][j - 1];
      }
    }
  }

  // ---------------------------------------------------------------------- frames

  function IntValue(n: int): Value
    requires -TWO63 <= n < TWO63
  {
    if n >= 0 then UInt(n) else NegInt(-1 - n)
  }

  function AsInt(v: Value): Option<int> {
    match v
    case UInt(u) => if u < TWO63 then Some(u) else None
    case NegInt(u) => if u < TWO63 then Some(-1 - u) else None
    case _ => None
  }

  function Texts(ps: seq<bytes>): (vs: seq<Value>)
    ensures |vs| == |ps| && forall i :: 0 <= i < |ps| ==> vs[i] == Text(ps[i])
  {
    seq(|ps|, i requires 0 <= i < |ps| => Text(ps[i]))
  }

  /** What versionsOf reads: [min, max], with 0 <= min <= max below 2^53. */
  function VersionsOf(v: Value): Option<(int, int)> {
    if !v.List? || |v.items| != 2 then None
    else
      match (AsInt(v.items[0]), AsInt(v.items[1]))
      case (Some(lo), Some(hi)) => if 0 <= lo <= hi < MAX_PROTOCOL_INT then Some((lo, hi)) else None
      case _ => None
  }

  predicate ProfileNames(vs: seq<Value>) {
    && (forall i :: 0 <= i < |vs| ==> vs[i].Text? && vs[i].t != [])
    && (forall i, j :: 0 <= i < j < |vs| ==> vs[i] != vs[j])
  }

  /** What profilesOf reads: one to eight distinct names. */
  function ProfilesOf(v: Value): Option<seq<bytes>> {
    if !v.List? || !(1 <= |v.items| <= MAX_PROFILES) || !ProfileNames(v.items) then None
    else Some(seq(|v.items|, i requires 0 <= i < |v.items| => v.items[i].t))
  }

  predicate IsSigned(w: Vocabulary, v: Value) {
    && v.Map? && |v.entries| == 2
    && Get(v, w.tbs).Some? && Get(v, w.tbs).value.Bytes?
    && Get(v, w.signature).Some? && Get(v, w.signature).value.Bytes?
  }

  predicate Typed(w: Vocabulary, k: Key, v: Value) {
    match k
    case Version => true
    case FrameType => true
    case Profile => v.Text?
    case Versions => VersionsOf(v).Some?
    case Profiles => ProfilesOf(v).Some?
    case Nonce => v.Bytes? && |v.b| == 32
    case IdentityKey => v.Bytes?
    case ConnectKey => v.Bytes?
    case Proof => v.Bytes?
    case MemberEndorsement => v.Bytes?
    case SessionProof => v.Bytes?
    case Capabilities => AsInt(v).Some? && 0 <= AsInt(v).value < MAX_PROTOCOL_INT
    case HelloAccepted => AsInt(v) == Some(0) || AsInt(v) == Some(1)
    case _ => IsSigned(w, v)
  }

  /** The keys of a layout. */
  predicate HasKey(kind: Kind, k: Key) {
    match kind
    case Opener => k.Version? || k.FrameType? || k.Versions? || k.Profiles?
    case Challenge =>
      || k.Version? || k.FrameType? || k.Versions? || k.Profiles? || k.Nonce? || k.Profile? || k.IdentityKey?
      || k.TlsBinding? || k.TlsStatus?
    case Connect =>
      || k.Version? || k.FrameType? || k.Versions? || k.Profiles? || k.Profile? || k.IdentityKey? || k.ConnectKey?
      || k.ConnectBinding? || k.ConnectStatus? || k.Capabilities? || k.MemberEndorsement? || k.Proof?
    case Hello => k.Version? || k.FrameType? || k.HelloAccepted? || k.Capabilities? || k.SessionProof?
  }

  function KeptOf(kind: Kind, keys: seq<Key>): seq<Key> {
    if keys == [] then [] else (if HasKey(kind, keys[0]) then [keys[0]] else []) + KeptOf(kind, keys[1..])
  }

  function Layout(w: Vocabulary, kind: Kind): seq<Key> { KeptOf(kind, w.keys) }

  lemma {:induction false} KeptKeys(kind: Kind, keys: seq<Key>, k: Key)
    ensures k in KeptOf(kind, keys) <==> k in keys && HasKey(kind, k)
  {
    if keys != [] {
      KeptKeys(kind, keys[1..], k);
      assert keys == [keys[0]] + keys[1..];
    }
  }

  lemma {:induction false} KeptDistinct(kind: Kind, keys: seq<Key>)
    requires Distinct(keys)
    ensures |KeptOf(kind, keys)| <= |keys| && Distinct(KeptOf(kind, keys))
  {
    if keys != [] {
      KeptDistinct(kind, keys[1..]);
      KeptKeys(kind, keys[1..], keys[0]);
    }
  }

  lemma {:induction false} LayoutKeys(w: Vocabulary, kind: Kind, k: Key)
    requires KeysApart(w)
    ensures HasKey(kind, k) <==> k in Layout(w, kind)
  {
    KeptKeys(kind, w.keys, k);
  }

  lemma {:induction false} LayoutDistinct(w: Vocabulary, kind: Kind)
    requires KeysApart(w)
    ensures |Layout(w, kind)| <= 17 && Distinct(Layout(w, kind))
  {
    KeptDistinct(kind, w.keys);
  }

  datatype Reading = Got(frame: Value) | MalformedFrame | UnsupportedVersion | UnexpectedFrame

  predicate Fitting(w: Vocabulary, v: Value, kind: Kind) {
    && v.Map? && |v.entries| == |Layout(w, kind)|
    && (forall i :: 0 <= i < |v.entries| ==> v.entries[i].key.Text?)
    && (forall k :: HasKey(kind, k) ==> Get(v, w.key(k)).Some? && Typed(w, k, Get(v, w.key(k)).value))
  }

  /** decode: the decoding rule, the version, the frame type, then exactly the keys of the frame, each of its type. */
  function Read(w: Vocabulary, raw: bytes, kind: Kind): Reading {
    match Decode(raw)
    case Rejected(_) => MalformedFrame
    case Accepted(v) =>
      if !v.Map? then MalformedFrame
      else
        var version := AsInt(Field(v, w.key(Version)));
        var frameType := Field(v, w.key(FrameType));
        if version.None? || Get(v, w.key(Version)).None? then MalformedFrame
        else if version.value != VERSION then UnsupportedVersion
        else if !frameType.Text? then MalformedFrame
        else if frameType.t != w.kind(kind) then UnexpectedFrame
        else if !Fitting(w, v, kind) then MalformedFrame
        else Got(v)
  }

  function RangesOf(w: Vocabulary, v: Value): Ranges {
    match (VersionsOf(Field(v, w.key(Versions))), ProfilesOf(Field(v, w.key(Profiles))))
    case (Some((lo, hi)), Some(ps)) => Ranges(lo, hi, ps)
    case _ => Ranges(0, 0, [])
  }

  // ------------------------------------------------------- what is built reads back

  /** A field's value as a frame holds it. */
  predicate Small(v: Value) { Fits(v) && Admissible(v, 1, MAX_NESTING) && Count(v) <= 20 }

  /** A frame's fields, each with the value given for its key. */
  function FrameEntries(w: Vocabulary, kind: Kind, val: Key -> Value): (es: seq<Entry>)
    ensures |es| == |Layout(w, kind)|
    ensures forall i :: 0 <= i < |es| ==> es[i] == Named(w.key(Layout(w, kind)[i]), val(Layout(w, kind)[i]))
  {
    var layout := Layout(w, kind);
    seq(|layout|, i requires 0 <= i < |layout| => Named(w.key(layout[i]), val(layout[i])))
  }

  function Frame(w: Vocabulary, kind: Kind, val: Key -> Value): bytes { Encode(Map(FrameEntries(w, kind, val))) }

  /** What a frame decodes to. */
  ghost function Decoding(w: Vocabulary, kind: Kind, val: Key -> Value): Value {
    Canon(Map(FrameEntries(w, kind, val)))
  }

  /** Values that make a frame of a kind and version. */
  ghost predicate Framed(w: Vocabulary, kind: Kind, version: int, val: Key -> Value) {
    && -TWO63 <= version < TWO63 && val(Version) == IntValue(version) && val(FrameType) == Text(w.kind(kind))
    && forall k :: HasKey(kind, k) ==> Small(val(k))
  }

  lemma {:induction false} CountBound(es: seq<Entry>)
    requires forall i :: 0 <= i < |es| ==> es[i].key.Text? && Count(es[i].val) <= 20
    ensures CountEntries(es) <= 21 * |es|
  {
    if es != [] {
      assert Count(es[0].val) <= 20 && CountEntry(es[0]) == 1 + Count(es[0].val);
      CountBound(es[1..]);
    }
  }

  lemma {:induction false} EntriesDistinct(w: Vocabulary, kind: Kind, val: Key -> Value)
    requires KeysApart(w)
    ensures DistinctAt(FrameEntries(w, kind, val)) && |FrameEntries(w, kind, val)| <= 17
  {
    LayoutDistinct(w, kind);
  }

  lemma {:induction false} FramedTable(w: Vocabulary, kind: Kind, version: int, val: Key -> Value)
    requires WellChosen(w) && Framed(w, kind, version, val)
    ensures Table(FrameEntries(w, kind, val))
  {
    var es := FrameEntries(w, kind, val);
    EntriesDistinct(w, kind, val);
    forall i | 0 <= i < |es|
      ensures Carried(es[i]) && Count(es[i].val) <= 20
    {
      LayoutKeys(w, kind, Layout(w, kind)[i]);
    }
    CountBound(es);
  }

  lemma {:induction false} LookupFrame(w: Vocabulary, kind: Kind, val: Key -> Value, k: Key)
    requires KeysApart(w) && HasKey(kind, k)
    ensures Lookup(FrameEntries(w, kind, val), w.key(k)) == Some(val(k))
  {
    var es := FrameEntries(w, kind, val);
    EntriesDistinct(w, kind, val);
    DistinctIndexed(es);
    LookupIffMember(es, w.key(k), val(k));
    LayoutKeys(w, kind, k);
    var i :| 0 <= i < |Layout(w, kind)| && Layout(w, kind)[i] == k;
    assert es[i] in es;
  }

  /** What is built decodes, with as many fields and each under its key. */
  lemma {:induction false} FrameDecodes(w: Vocabulary, kind: Kind, val: Key -> Value)
    requires KeysApart(w) && Table(FrameEntries(w, kind, val))
    ensures Decode(Frame(w, kind, val)) == Accepted(Decoding(w, kind, val)) && Decoding(w, kind, val).Map?
    ensures |Decoding(w, kind, val).entries| == |Layout(w, kind)|
    ensures forall i :: 0 <= i < |Decoding(w, kind, val).entries| ==> Decoding(w, kind, val).entries[i].key.Text?
    ensures forall k :: HasKey(kind, k) ==> Get(Decoding(w, kind, val), w.key(k)) == Some(Canon(val(k)))
  {
    var es, v := FrameEntries(w, kind, val), Decoding(w, kind, val);
    TableDecodes(es);
    forall i | 0 <= i < |v.entries|
      ensures v.entries[i].key.Text?
    {
      assert v.entries[i] in v.entries;
    }
    forall k | HasKey(kind, k)
      ensures Get(v, w.key(k)) == Some(Canon(val(k)))
    {
      LookupFrame(w, kind, val, k);
    }
  }

  ghost predicate AllTyped(w: Vocabulary, kind: Kind, val: Key -> Value) {
    forall k :: HasKey(kind, k) ==> Typed(w, k, Canon(val(k)))
  }

  /** What a reader gets of a built frame: the frame itself when it is of this version and every field of its type. */
  lemma {:induction false} FrameReads(w: Vocabulary, kind: Kind, version: int, val: Key -> Value)
    requires WellChosen(w) && Framed(w, kind, version, val)
    ensures forall k :: HasKey(kind, k) ==> Get(Decoding(w, kind, val), w.key(k)) == Some(Canon(val(k)))
    ensures Read(w, Frame(w, kind, val), kind) ==
              if version != VERSION then UnsupportedVersion
              else if AllTyped(w, kind, val) then Got(Decoding(w, kind, val))
              else MalformedFrame
  {
    FramedTable(w, kind, version, val);
    FrameDecodes(w, kind, val);
    FittingIff(w, kind, val, Decoding(w, kind, val));
    ReadDecoded(w, Frame(w, kind, val), Decoding(w, kind, val), kind, version);
  }

  lemma ReadDecoded(w: Vocabulary, raw: bytes, v: Value, kind: Kind, version: int)
    requires Decode(raw) == Accepted(v) && v.Map? && -TWO63 <= version < TWO63
    requires Get(v, w.key(Version)) == Some(IntValue(version)) && Get(v, w.key(FrameType)) == Some(Text(w.kind(kind)))
    ensures Read(w, raw, kind) ==
              if version != VERSION then UnsupportedVersion else if Fitting(w, v, kind) then Got(v) else MalformedFrame
  {
  }

  lemma FittingIff(w: Vocabulary, kind: Kind, val: Key -> Value, v: Value)
    requires v.Map? && |v.entries| == |Layout(w, kind)| && (forall i :: 0 <= i < |v.entries| ==> v.entries[i].key.Text?)
    requires forall k :: HasKey(kind, k) ==> Get(v, w.key(k)) == Some(Canon(val(k)))
    ensures Fitting(w, v, kind) <==> AllTyped(w, kind, val)
  {
  }
}
