/** Signed records as a custodian places and bounds them: lifetime rows, storage slots, and the tombstone that
    withdraws a record from the slot it is in. A payload is a map by field name, as a decoded one is. */
module Records {
  import opened Options
  import opened Bytes
  import opened Cbor

  const MINUTE_MS := 60 * 1000
  const HOUR_MS := 60 * MINUTE_MS
  const DAY_MS := 24 * HOUR_MS
  const CLOCK_TOLERANCE_MS := 5 * MINUTE_MS
  const DOMAIN_MIN := 0x20
  const TOMBSTONE := 0x0C

  type Id = b: bytes | |b| == 32 witness seq(32, _ => 0)

  /** The payload fields a slot or a tombstone is made of, and any other. */
  datatype Name =
    | RealmId | MemberNode | Procedure | ParamName | StationId | ContentId | OrgName | AppName | Advertiser
    | StationNode
    | Subject | WithdrawnType | WithdrawnVersion | Reason | Detail | Other(name: string)

  type Payload = map<Name, Value>

  datatype Record = Record(
    tag: nat, version: bytes, createdAt: u64, expiresAt: u64, payload: Payload, subject: Option<bytes>,
    lifetimeClass: nat)

  function Lookup(p: Payload, n: Name): Option<Value> { if n in p then Some(p[n]) else None }

  /** AsInt64 of a field. */
  function IntField(p: Payload, n: Name): Option<int> {
    match Lookup(p, n)
    case Some(UInt(u)) => if u < TWO63 then Some(u) else None
    case Some(NegInt(u)) => if u < TWO63 then Some(-1 - u) else None
    case _ => None
  }

  // ---------------------------------------------------------------- lifetimes

  function RowMax(row: nat): int
    requires row < 6
  {
    match row
    case 0 => 5 * MINUTE_MS
    case 1 => 30 * MINUTE_MS
    case 2 => 6 * HOUR_MS
    case 3 => 48 * HOUR_MS
    case 4 => 7 * DAY_MS
    case _ => 30 * DAY_MS
  }

  datatype Row = Row(row: nat, known: bool)

  /** typeLifetimeClass for a type other than a tombstone. */
  function TypeRow(t: int): (r: Row)
    ensures r.row < 6
  {
    if t == 0x01 || t == 0x11 then Row(3, true)
    else if t == 0x06 || t == 0x12 then Row(0, true)
    else if t == 0x04 || t == 0x15 then Row(2, true)
    else if t == 0x16 || t == 0x17 || t == 0x13 then Row(1, true)
    else if t == 0x05 || t == 0x03 || 0x0D <= t <= 0x10 then Row(5, true)
    else if t == TOMBSTONE then Row(5, true)
    else if DOMAIN_MIN <= t <= 0xFF then Row(4, true)
    else Row(5, false)
  }

  /** typeLifetimeClass: a tombstone takes the row of the type it withdraws. */
  function LifetimeRow(t: int, p: Payload): (r: Row)
    ensures r.row < 6
  {
    if t != TOMBSTONE then TypeRow(t)
    else
      match IntField(p, WithdrawnType)
      case None => Row(5, true)
      case Some(w) => if w == TOMBSTONE then Row(5, true) else TypeRow(w)
  }

  const MAX_PROTOCOL_INT := 0x20_0000_0000_0000

  /** tbsRecord takes no time of 2^53 or more, neither a verifier's nor Sign's own reading. */
  predicate TimesRead(r: Record) { r.createdAt < MAX_PROTOCOL_INT && r.expiresAt < MAX_PROTOCOL_INT }

  predicate ClockOk(r: Record, now: i64) {
    && Wrapped(r.createdAt) <= Wrapped(now + CLOCK_TOLERANCE_MS)
    && Wrapped(Wrapped(r.expiresAt) + CLOCK_TOLERANCE_MS) >= now
  }

  function Margin(t: int): int { if t == TOMBSTONE then 2 * CLOCK_TOLERANCE_MS else 0 }

  predicate LifetimeOk(r: Record) {
    var lived := Wrapped(Wrapped(r.expiresAt) - Wrapped(r.createdAt));
    lived > 0 && r.lifetimeClass < 6 && lived <= RowMax(r.lifetimeClass) + Margin(r.tag)
  }

  predicate OwnRow(r: Record) {
    var row := LifetimeRow(r.tag, r.payload);
    row.known ==> r.lifetimeClass == row.row
  }

  // -------------------------------------------------------------------- slots

  /** A slot's fields in the form they are hashed: an id as it is, anything else after its length. */
  datatype Part = Raw(id: Id) | Prefixed(b: bytes)

  /** Where a record is stored: under a node id, under the hash of its type and fields, or nowhere. */
  datatype Slot = UnderNode(id: Id) | Derived(tag: nat, parts: seq<Part>) | NoSlot

  /** Which fields of the payload a type's storage key reads, in order. */
  function SlotNames(t: int): seq<Name> {
    if t == 0x03 || t == 0x04 then [RealmId]
    else if t == 0x05 then [RealmId, MemberNode]
    else if t == 0x06 then [RealmId, Procedure]
    else if t == 0x0E then [ParamName]
    else if t == 0x10 then [StationId]
    else if t == 0x11 then [ContentId]
    else if t == 0x15 then [RealmId, OrgName]
    else if t == 0x16 then [Advertiser]
    else if t == 0x17 then [RealmId, OrgName, AppName]
    else if t == 0x13 then [RealmId, StationNode]
    else []
  }

  /** The types stored under their signer as well. */
  predicate UnderSigner(t: int) { t == 0x0D || t == 0x0F || t == 0x0E || t == 0x12 || t == 0x16 }

  predicate IsName(n: Name) { n == Procedure || n == ParamName || n == OrgName || n == AppName }

  /** slotReader: a field as its part, when it has its kind; a content id needs only a content id's shape. */
  function PartOf(n: Name, v: Value): Option<Part> {
    if IsName(n) then if v.Text? then Some(Prefixed(v.t)) else None
    else if n == ContentId then
      if v.Bytes? && |v.b| > 2 && (v.b[0] == 2 ==> |v.b| == 50) then Some(Prefixed(v.b)) else None
    else if v.Bytes? && |v.b| == 32 then Some(Raw(v.b)) else None
  }

  function ReadParts(p: Payload, names: seq<Name>): Option<seq<Part>> {
    if names == [] then Some([])
    else if names[0] !in p || PartOf(names[0], p[names[0]]).None? then None
    else
      match ReadParts(p, names[1..])
      case None => None
      case Some(rest) => Some([PartOf(names[0], p[names[0]]).value] + rest)
  }

  /** slotOfType: the slot of type `t` from a payload, a subject and the signer's key id. */
  function SlotOf(t: int, p: Payload, subject: Option<bytes>, signer: Id): Slot {
    if t == 0x01 then UnderNode(signer)
    else if DOMAIN_MIN <= t <= 0xFF then
      Derived(t, [Raw(signer)] + if subject.Some? then [Prefixed(subject.value)] else [])
    else if t < 1 || t > 0xFF || t == TOMBSTONE then NoSlot
    else if !TypeRow(t).known then
      if subject.Some? then Derived(t, [Raw(signer), Prefixed(subject.value)]) else NoSlot
    else
      match ReadParts(p, SlotNames(t))
      case None => NoSlot
      case Some(parts) => Derived(t, (if UnderSigner(t) then [Raw(signer)] else []) + parts)
  }

  /** StorageKey before hashing: a tombstone's slot is the withdrawn record's. */
  function StorageSlot(r: Record, signer: Id): Slot {
    if r.tag != TOMBSTONE then SlotOf(r.tag, r.payload, r.subject, signer)
    else
      match IntField(r.payload, WithdrawnType)
      case None => NoSlot
      case Some(w) =>
        if Subject !in r.payload then SlotOf(w, r.payload, None, signer)
        else if r.payload[Subject].Bytes? then SlotOf(w, r.payload, Some(r.payload[Subject].b), signer)
        else NoSlot
  }

  /** Which of its two ids a signing key is named by: its node id on the node-signed types. */
  predicate NodeSigned(t: int) { t == 0x01 || t == 0x06 || t == 0x11 || t == 0x12 }

  function SignerKind(r: Record): bool {
    if r.tag != TOMBSTONE then NodeSigned(r.tag)
    else match IntField(r.payload, WithdrawnType) case None => false case Some(w) => NodeSigned(w)
  }

  function SignerId(r: Record, nodeId: Id, keyId: Id): Id { if SignerKind(r) then nodeId else keyId }

  datatype Purpose = Identity | Realm | Org | Foundation

  function TypePurposes(t: int): set<Purpose> {
    if NodeSigned(t) then {Identity}
    else if t == 0x03 || t == 0x04 || t == 0x05 || t == 0x15 || t == 0x13 then {Realm}
    else if t == 0x16 || t == 0x17 then {Org}
    else if 0x0D <= t <= 0x10 then {Foundation}
    else if t >= DOMAIN_MIN then {Identity, Realm, Org, Foundation}
    else {}
  }

  /** signerPurposes: a tombstone is signed like the type it withdraws. */
  function SignerPurposes(r: Record): set<Purpose> {
    if r.tag != TOMBSTONE then TypePurposes(r.tag)
    else
      match IntField(r.payload, WithdrawnType)
      case None => {}
      case Some(w) => if w == TOMBSTONE then {} else TypePurposes(w)
  }

  // ---------------------------------------------------------------- payload rules

  /** slotValueOK: a slot field as a tombstone must carry it. */
  predicate SlotValueOk(n: Name, v: Value) {
    if IsName(n) then v.Text?
    else if n == ContentId then v.Bytes? && |v.b| == 50 && v.b[0] == 2
    else v.Bytes? && |v.b| == 32
  }

  /** What a reader's payload rules say of the fields a slot reads: each is there with its kind, a content id of a
      tag the reader knows; and a subject, on a domain type alone, is not empty. */
  predicate ReadablePayload(r: Record) {
    && (forall i :: 0 <= i < |SlotNames(r.tag)| ==>
          SlotNames(r.tag)[i] in r.payload && SlotValueOk(SlotNames(r.tag)[i], r.payload[SlotNames(r.tag)[i]]))
    && (r.subject.Some? ==> r.tag >= DOMAIN_MIN && |r.subject.value| > 0)
  }

  /** withdrawable: a domain type, or a built-in type other than a tombstone that some key signs. */
  predicate Withdrawable(t: int) {
    DOMAIN_MIN <= t <= 0xFF || (1 <= t < DOMAIN_MIN && t != TOMBSTONE && TypePurposes(t) != {})
  }

  function Reasons(): set<string> { {"shutdown", "moved", "revoked"} }

  function OwnFields(): set<Name> { {WithdrawnType, WithdrawnVersion, Reason, Detail} }

  /** slotOK: exactly the withdrawn type's slot fields, or a subject that is not empty. */
  predicate SlotFieldsOk(t: int, slot: Payload) {
    if t >= DOMAIN_MIN then slot == map[] || (slot.Keys == {Subject} && slot[Subject].Bytes? && |slot[Subject].b| > 0)
    else
      && |slot| == |SlotNames(t)|
      && forall n :: n in slot ==> n in SlotNames(t) && SlotValueOk(n, slot[n])
  }

  predicate TombstonePayloadOk(p: Payload, reasonText: string -> bytes) {
    && IntField(p, WithdrawnType).Some? && Withdrawable(IntField(p, WithdrawnType).value)
    && WithdrawnVersion in p && p[WithdrawnVersion].Bytes? && |p[WithdrawnVersion].b| == 16
    && Reason in p && p[Reason].Text? && (exists r :: r in Reasons() && p[Reason].t == reasonText(r))
    && (Detail in p ==> p[Detail].Text?)
    && SlotFieldsOk(IntField(p, WithdrawnType).value, p - OwnFields())
  }

  // -------------------------------------------------------------- the tombstone

  /** slotFields, or a domain record's subject. */
  function SlotPart(r: Record): Payload {
    if r.tag < DOMAIN_MIN then map n | n in SlotNames(r.tag) && n in r.payload :: r.payload[n]
    else if r.subject.Some? then map[Subject := Value.Bytes(r.subject.value)]
    else map[]
  }

  function OwnPart(r: Record, reason: bytes, detail: Option<bytes>): Payload
    requires r.tag < 256
  {
    var stated := map[WithdrawnType := UInt(r.tag), WithdrawnVersion := Value.Bytes(r.version), Reason := Text(reason)];
    if detail.Some? then stated[Detail := Text(detail.value)] else stated
  }

  /** NewTombstone's payload: what is withdrawn and why, and the slot it is withdrawn from. */
  function TombstonePayload(r: Record, reason: bytes, detail: Option<bytes>): Payload
    requires r.tag < 256
  {
    OwnPart(r, reason, detail) + SlotPart(r)
  }

  /** A tombstone lives its ttl, five minutes when none is given, or until the record has expired and the tolerance has
      passed, whichever is later as a uint64. */
  function TombstoneExpiry(expiresAt: u64, ttl: u64, createdAt: u64): u64 {
    var lapses := Add64(createdAt, if ttl == 0 then CLOCK_TOLERANCE_MS else ttl);
    var past := Add64(expiresAt, CLOCK_TOLERANCE_MS);
    if lapses > past then lapses else past
  }

  /** NewTombstone, created at `now`: its row is its payload's. */
  function NewTombstone(r: Record, reason: bytes, detail: Option<bytes>, ttl: u64, version: bytes, now: i64): Record
    requires r.tag < 256
  {
    var p := TombstonePayload(r, reason, detail);
    Record(TOMBSTONE, version, Unsigned(now), TombstoneExpiry(r.expiresAt, ttl, Unsigned(now)), p, None,
           LifetimeRow(TOMBSTONE, p).row)
  }

  /** A record a reader verified, of a type it knows. */
  ghost predicate Verified(r: Record, now: i64) {
    && 1 <= r.tag <= 0xFF && r.tag != TOMBSTONE && TypeRow(r.tag).known
    && |r.version| == 16 && TimesRead(r)
    && ClockOk(r, now) && LifetimeOk(r) && OwnRow(r) && ReadablePayload(r)
  }

  lemma SlotNamesNotOwn(t: int)
    ensures forall i :: 0 <= i < |SlotNames(t)| ==> SlotNames(t)[i] !in OwnFields()
  {
  }

  lemma SlotPartAvoidsOwn(r: Record)
    ensures SlotPart(r).Keys !! OwnFields()
  {
  }

  lemma OwnPartKeys(r: Record, reason: bytes, detail: Option<bytes>)
    requires r.tag < 256
    ensures OwnPart(r, reason, detail).Keys <= OwnFields()
  {
  }

  /** The two parts of a tombstone's payload do not overlap: each is read back from the whole. */
  lemma {:induction false} TombstoneParts(r: Record, reason: bytes, detail: Option<bytes>)
    requires r.tag < 256
    ensures TombstonePayload(r, reason, detail) - OwnFields() == SlotPart(r)
    ensures forall n :: n in OwnFields() ==>
              Lookup(TombstonePayload(r, reason, detail), n) == Lookup(OwnPart(r, reason, detail), n)
    ensures forall n :: n !in OwnFields() ==> Lookup(TombstonePayload(r, reason, detail), n) == Lookup(SlotPart(r), n)
  {
    SlotPartAvoidsOwn(r);
    OwnPartKeys(r, reason, detail);
    assert forall n :: n in OwnFields() ==> n !in SlotPart(r);
  }

  lemma {:induction false} TombstoneFields(r: Record, reason: bytes, detail: Option<bytes>)
    requires 1 <= r.tag <= 0xFF && r.tag != TOMBSTONE
    ensures var p := TombstonePayload(r, reason, detail);
            && IntField(p, WithdrawnType) == Some(r.tag)
            && Lookup(p, WithdrawnVersion) == Some(Value.Bytes(r.version))
            && Lookup(p, Reason) == Some(Text(reason))
            && Lookup(p, Detail) == (if detail.Some? then Some(Text(detail.value)) else None)
            && Lookup(p, Subject) == Lookup(SlotPart(r), Subject)
  {
    TombstoneParts(r, reason, detail);
    var p := TombstonePayload(r, reason, detail);
    assert Lookup(p, WithdrawnType) == Some(UInt(r.tag));
    assert Subject !in OwnFields();
  }

  lemma {:induction false} SamePartsRead(p: Payload, q: Payload, names: seq<Name>)
    requires forall i :: 0 <= i < |names| ==> Lookup(p, names[i]) == Lookup(q, names[i])
    ensures ReadParts(p, names) == ReadParts(q, names)
  {
    if names != [] {
      assert Lookup(p, names[0]) == Lookup(q, names[0]);
      SamePartsRead(p, q, names[1..]);
    }
  }

  /** A tombstone takes the slot of the record it withdraws, when the same key signs it. */
  lemma {:induction false} TombstoneTakesSlot(r: Record, reason: bytes, detail: Option<bytes>, ttl: u64,
                                              version: bytes, now: i64,
                                              nodeId: Id, keyId: Id, at: i64)
    requires Verified(r, at)
    ensures var t := NewTombstone(r, reason, detail, ttl, version, now);
            && SignerId(t, nodeId, keyId) == SignerId(r, nodeId, keyId)
            && StorageSlot(t, SignerId(t, nodeId, keyId)) == StorageSlot(r, SignerId(r, nodeId, keyId))
            && StorageSlot(r, SignerId(r, nodeId, keyId)) != NoSlot
  {
    TombstoneFields(r, reason, detail);
    TombstoneParts(r, reason, detail);
    var p := TombstonePayload(r, reason, detail);
    if r.tag < DOMAIN_MIN {
      SlotNamesNotOwn(r.tag);
      forall i | 0 <= i < |SlotNames(r.tag)|
        ensures Lookup(p, SlotNames(r.tag)[i]) == Lookup(r.payload, SlotNames(r.tag)[i])
      {
      }
      SamePartsRead(p, r.payload, SlotNames(r.tag));
      ReadableParts(r.payload, SlotNames(r.tag));
    }
  }

  lemma {:induction false} ReadableParts(p: Payload, names: seq<Name>)
    requires forall i :: 0 <= i < |names| ==> names[i] in p && SlotValueOk(names[i], p[names[i]])
    ensures ReadParts(p, names).Some?
  {
    if names != [] {
      ReadableParts(p, names[1..]);
    }
  }

  lemma KnownIsSigned(t: int)
    requires 1 <= t <= 0xFF && t != TOMBSTONE && TypeRow(t).known
    ensures TypePurposes(t) != {} && Withdrawable(t)
  {
    assert Identity in TypePurposes(t) || Realm in TypePurposes(t) || Org in TypePurposes(t)
             || Foundation in TypePurposes(t);
  }

  lemma {:induction false} TombstonePayloadHolds(r: Record, reason: string, reasonText: string -> bytes,
                                                 detail: Option<bytes>)
    requires 1 <= r.tag <= 0xFF && r.tag != TOMBSTONE && TypeRow(r.tag).known
    requires |r.version| == 16 && ReadablePayload(r) && reason in Reasons()
    ensures TombstonePayloadOk(TombstonePayload(r, reasonText(reason), detail), reasonText)
  {
    TombstoneFields(r, reasonText(reason), detail);
    TombstoneParts(r, reasonText(reason), detail);
    SlotPartOk(r);
    KnownIsSigned(r.tag);
  }

  lemma {:induction false} TombstoneSigned(r: Record, reason: bytes, detail: Option<bytes>, ttl: u64, version: bytes,
                                           now: i64)
    requires 1 <= r.tag <= 0xFF && r.tag != TOMBSTONE && TypeRow(r.tag).known
    ensures var t := NewTombstone(r, reason, detail, ttl, version, now);
            SignerPurposes(t) == SignerPurposes(r) != {} && LifetimeRow(t.tag, t.payload) == TypeRow(r.tag)
  {
    TombstoneFields(r, reason, detail);
    KnownIsSigned(r.tag);
  }

  /** A ttl that fits the row and its margin, or one so large that creation time plus ttl wraps below the creation
      time, so that the record's own expiry decides. */
  predicate TtlFits(max: int, expiresAt: u64, ttl: u64, now: i64) {
    || ttl <= max + 2 * CLOCK_TOLERANCE_MS
    || (Unsigned(now) + ttl >= TWO64 && expiresAt + CLOCK_TOLERANCE_MS > now)
  }

  /** What a reader made sure of: the record's times lie within the row and the tolerance, as plain integers. */
  ghost predicate PlainTimes(r: Record, max: int, now: i64) {
    && r.createdAt < MAX_PROTOCOL_INT && r.expiresAt < MAX_PROTOCOL_INT
    && r.createdAt <= now + CLOCK_TOLERANCE_MS && r.expiresAt + CLOCK_TOLERANCE_MS >= now
    && r.createdAt < r.expiresAt <= r.createdAt + max
  }

  lemma InRange(n: i64)
    ensures Wrapped(n) == n
  {
  }

  /** Below 2^53 nothing wraps in the clock check. */
  lemma PlainClock(r: Record, now: i64)
    requires TimesRead(r)
    ensures ClockOk(r, now) <==> r.createdAt <= now + CLOCK_TOLERANCE_MS && r.expiresAt + CLOCK_TOLERANCE_MS >= now
  {
    InRange(r.createdAt);
    InRange(r.expiresAt);
    InRange(r.expiresAt + CLOCK_TOLERANCE_MS);
    if r.expiresAt + CLOCK_TOLERANCE_MS >= now {
      InRange(now + CLOCK_TOLERANCE_MS);
    }
  }

  lemma VerifiedTimes(r: Record, now: i64)
    requires Verified(r, now)
    ensures PlainTimes(r, RowMax(TypeRow(r.tag).row), now)
  {
    PlainClock(r, now);
    InRange(r.createdAt);
    InRange(r.expiresAt);
    InRange(r.expiresAt - r.createdAt);
  }

  /** The lifetime check on a tombstone's times, as int64. */
  lemma ExpiryFits(r: Record, max: int, ttl: u64, now: i64)
    requires PlainTimes(r, max, now) && now >= 0 && 5 * MINUTE_MS <= max <= 30 * DAY_MS
    ensures var lived := Wrapped(Wrapped(TombstoneExpiry(r.expiresAt, ttl, now)) - Wrapped(now));
            0 < lived <= max + 2 * CLOCK_TOLERANCE_MS <==> TtlFits(max, r.expiresAt, ttl, now)
  {
    var expiry := TombstoneExpiry(r.expiresAt, ttl, now);
    InRange(now);
    if expiry < TWO63 {
      InRange(expiry);
      InRange(expiry - now);
    } else {
      assert Wrapped(expiry) == expiry - TWO64;
      assert ttl > max + 2 * CLOCK_TOLERANCE_MS;
    }
  }

  /** The clock check on times below 2^53. */
  lemma ExpiryOutlives(r: Record, max: int, t: Record, ttl: u64, now: i64, later: i64)
    requires PlainTimes(r, max, now) && TimesRead(t) && t.createdAt == now
    requires t.expiresAt == TombstoneExpiry(r.expiresAt, ttl, now) && now <= later && ClockOk(r, later)
    ensures ClockOk(t, later)
  {
    PlainClock(r, later);
    PlainClock(t, later);
    assert t.expiresAt >= r.expiresAt + CLOCK_TOLERANCE_MS;
  }

  /** The row and times a tombstone of `r` has. */
  ghost predicate TimedAs(t: Record, r: Record, ttl: u64, now: i64) {
    && t.tag == TOMBSTONE && t.lifetimeClass == TypeRow(r.tag).row
    && t.createdAt == Unsigned(now) && t.expiresAt == TombstoneExpiry(r.expiresAt, ttl, Unsigned(now))
  }

  /** Its lifetime, from 1970 on, passes exactly when its ttl fits. */
  lemma TombstoneLives(t: Record, r: Record, ttl: u64, now: i64)
    requires Verified(r, now) && TimedAs(t, r, ttl, now) && now >= 0
    ensures LifetimeOk(t) <==> TtlFits(RowMax(t.lifetimeClass), r.expiresAt, ttl, now)
  {
    VerifiedTimes(r, now);
    ExpiryFits(r, RowMax(t.lifetimeClass), ttl, now);
  }

  /** When a reader can read its times it outlives the record: at every moment from its making on at which the record
      passes the clock check, so does it. */
  lemma TombstoneOutlives(t: Record, r: Record, ttl: u64, now: i64)
    requires Verified(r, now) && TimedAs(t, r, ttl, now)
    ensures TimesRead(t) <==> 0 <= now < MAX_PROTOCOL_INT && t.expiresAt < MAX_PROTOCOL_INT
    ensures TimesRead(t) ==> forall later: i64 :: now <= later && ClockOk(r, later) ==> ClockOk(t, later)
  {
    if TimesRead(t) {
      VerifiedTimes(r, now);
      forall later: i64 | now <= later && ClockOk(r, later)
        ensures ClockOk(t, later)
      {
        ExpiryOutlives(r, RowMax(t.lifetimeClass), t, ttl, now, later);
      }
    }
  }

  /** Whoever signs or reads it takes it as far as its type goes: it is of a known type with no subject, every key that
      may sign the record may sign it, it keeps the payload rules and names its own row. Its times are taken exactly
      when the clock is from 1970 on, its expiry below 2^53, and its ttl one that fits. And it outlives the record. */
  lemma {:induction false} TombstoneIsValid(r: Record, reason: string, reasonText: string -> bytes,
                                            detail: Option<bytes>, ttl: u64,
                                            version: bytes, now: i64)
    requires Verified(r, now) && reason in Reasons()
    ensures var t := NewTombstone(r, reasonText(reason), detail, ttl, version, now);
            && SignerPurposes(t) == SignerPurposes(r) != {}
            && LifetimeRow(t.tag, t.payload).known && t.subject.None?
            && TombstonePayloadOk(t.payload, reasonText)
            && OwnRow(t)
            && (LifetimeOk(t) && TimesRead(t) <==>
                && 0 <= now < MAX_PROTOCOL_INT && t.expiresAt < MAX_PROTOCOL_INT
                && TtlFits(RowMax(t.lifetimeClass), r.expiresAt, ttl, now))
            && (TimesRead(t) ==> forall later: i64 :: now <= later && ClockOk(r, later) ==> ClockOk(t, later))
  {
    var t := NewTombstone(r, reasonText(reason), detail, ttl, version, now);
    TombstoneSigned(r, reasonText(reason), detail, ttl, version, now);
    TombstonePayloadHolds(r, reason, reasonText, detail);
    TombstoneOutlives(t, r, ttl, now);
    if now >= 0 {
      TombstoneLives(t, r, ttl, now);
    }
  }

  /** So a ttl can be too long while the longest of all is taken: it wraps, and the record's own expiry decides. */
  lemma LongestTtlLives(r: Record, reason: bytes, detail: Option<bytes>, version: bytes)
    requires r == Record(DOMAIN_MIN, version, 1_000_000, 2_000_000, map[], None, 4) && |version| == 16
    ensures Verified(r, 1_000_000)
    ensures !LifetimeOk(NewTombstone(r, reason, detail, TWO64 - 1 - 1_000_000, version, 1_000_000))
    ensures var t := NewTombstone(r, reason, detail, TWO64 - 1, version, 1_000_000);
            LifetimeOk(t) && TimesRead(t) && t.expiresAt == r.expiresAt + CLOCK_TOLERANCE_MS
  {
    TombstoneSigned(r, reason, detail, TWO64 - 1 - 1_000_000, version, 1_000_000);
    TombstoneSigned(r, reason, detail, TWO64 - 1, version, 1_000_000);
    TombstoneLives(NewTombstone(r, reason, detail, TWO64 - 1 - 1_000_000, version, 1_000_000), r,
                   TWO64 - 1 - 1_000_000, 1_000_000);
    TombstoneLives(NewTombstone(r, reason, detail, TWO64 - 1, version, 1_000_000), r, TWO64 - 1, 1_000_000);
  }

  lemma SlotPartOk(r: Record)
    requires 1 <= r.tag <= 0xFF && r.tag != TOMBSTONE && ReadablePayload(r)
    ensures SlotFieldsOk(r.tag, SlotPart(r))
  {
    if r.tag < DOMAIN_MIN {
      var names := SlotNames(r.tag);
      assert SlotPart(r).Keys == set n | n in names;
      SlotNamesDistinct(r.tag);
    }
  }

  lemma SlotNamesDistinct(t: int)
    ensures |set n | n in SlotNames(t)| == |SlotNames(t)|
  {
    var names := SlotNames(t);
    var s := set n | n in names;
    if |names| == 0 {
      assert s == {};
    } else if |names| == 1 {
      assert s == {names[0]};
    } else if |names| == 2 {
      assert s == {names[0], names[1]};
    } else {
      assert s == {names[0], names[1], names[2]};
    }
  }

  // ------------------------------------------------------- storage keys tell slots apart

  function PartBytes(p: Part): bytes {
    match p
    case Raw(id) => id
    case Prefixed(b) => BigEndian(|b|, 4) + b
  }

  function JoinParts(parts: seq<Part>): bytes {
    if parts == [] then [] else PartBytes(parts[0]) + JoinParts(parts[1..])
  }

  /** What SHA-256 is taken over: the label, a zero byte, the type's tag and the fields. */
  function Preimage(domain: bytes, s: Slot): bytes
    requires s.Derived? && s.tag < 256
  {
    domain + [0, s.tag] + JoinParts(s.parts)
  }

  predicate ShortParts(parts: seq<Part>) {
    forall i :: 0 <= i < |parts| && parts[i].Prefixed? ==> |parts[i].b| < 0x1_0000_0000
  }

  predicate SameKinds(a: seq<Part>, b: seq<Part>) {
    forall i :: 0 <= i < |a| && i < |b| ==> a[i].Raw? == b[i].Raw?
  }

  lemma {:induction false} PartPrefixFree(p: Part, q: Part, r: bytes, s: bytes)
    requires p.Raw? == q.Raw? && ShortParts([p, q]) && PartBytes(p) + r == PartBytes(q) + s
    ensures p == q && r == s
  {
    var x, y := PartBytes(p) + r, PartBytes(q) + s;
    if p.Raw? {
      assert x[..32] == p.id && y[..32] == q.id && x[32..] == r && y[32..] == s;
    } else {
      assert [p, q][0] == p && [p, q][1] == q;
      Pow256Values();
      BigEndianRoundTrip(|p.b|, 4);
      BigEndianRoundTrip(|q.b|, 4);
      assert x[..4] == BigEndian(|p.b|, 4) && y[..4] == BigEndian(|q.b|, 4);
      assert x[4..4 + |p.b|] == p.b && y[4..4 + |q.b|] == q.b;
      assert x[4 + |p.b|..] == r && y[4 + |q.b|..] == s;
    }
  }

  lemma {:induction false} JoinInjective(a: seq<Part>, b: seq<Part>)
    requires SameKinds(a, b) && ShortParts(a) && ShortParts(b) && JoinParts(a) == JoinParts(b)
    ensures a == b
  {
    if a == [] || b == [] {
      assert |JoinParts(a)| >= 4 * |a| && |JoinParts(b)| >= 4 * |b| by { JoinLength(a); JoinLength(b); }
    } else {
      PartPrefixFree(a[0], b[0], JoinParts(a[1..]), JoinParts(b[1..]));
      JoinInjective(a[1..], b[1..]);
      assert a == [a[0]] + a[1..] && b == [b[0]] + b[1..];
    }
  }

  lemma {:induction false} JoinLength(a: seq<Part>)
    ensures |JoinParts(a)| >= 4 * |a|
  {
    if a != [] {
      JoinLength(a[1..]);
    }
  }

  /** Every derived slot of a type lists parts of the kinds that type fixes; a subject only adds one at the end. */
  lemma {:induction false} KindsByType(t: int, p: Payload, s: Option<bytes>, signer: Id, q: Payload, u: Option<bytes>,
                                       other: Id)
    requires SlotOf(t, p, s, signer).Derived? && SlotOf(t, q, u, other).Derived?
    ensures SameKinds(SlotOf(t, p, s, signer).parts, SlotOf(t, q, u, other).parts)
  {
    if TypeRow(t).known && t < DOMAIN_MIN {
      PartKinds(p, SlotNames(t));
      PartKinds(q, SlotNames(t));
    }
  }

  lemma {:induction false} PartKinds(p: Payload, names: seq<Name>)
    requires ReadParts(p, names).Some?
    ensures var parts := ReadParts(p, names).value;
            |parts| == |names| && forall i :: 0 <= i < |names| ==>
                (parts[i].Raw? <==> !IsName(names[i]) && names[i] != ContentId)
  {
    if names != [] {
      PartKinds(p, names[1..]);
    }
  }

  /** One preimage, one slot: the bytes a storage key hashes say the type and every slot field, so two records
      share a key only by sharing a slot (or by a SHA-256 collision). Node records, stored under their node id,
      hash nothing. */
  lemma {:induction false} PreimageInjective(domain: bytes, t: int, p: Payload, s: Option<bytes>, signer: Id,
                                             v: int, q: Payload, u: Option<bytes>, other: Id)
    requires 1 <= t <= 0xFF && 1 <= v <= 0xFF
    requires SlotOf(t, p, s, signer).Derived? && SlotOf(v, q, u, other).Derived?
    requires ShortParts(SlotOf(t, p, s, signer).parts) && ShortParts(SlotOf(v, q, u, other).parts)
    requires Preimage(domain, SlotOf(t, p, s, signer)) == Preimage(domain, SlotOf(v, q, u, other))
    ensures t == v && SlotOf(t, p, s, signer) == SlotOf(v, q, u, other)
  {
    var x, y := Preimage(domain, SlotOf(t, p, s, signer)), Preimage(domain, SlotOf(v, q, u, other));
    var n := |domain| + 2;
    assert x[n - 1] == t && y[n - 1] == v;
    assert x[n..] == JoinParts(SlotOf(t, p, s, signer).parts) && y[n..] == JoinParts(SlotOf(v, q, u, other).parts);
    KindsByType(t, p, s, signer, q, u, other);
    JoinInjective(SlotOf(t, p, s, signer).parts, SlotOf(v, q, u, other).parts);
  }
}
