/** StatementIssuer: a client's CONNECT bindings and status statements, kept in force through missed ticks and
    clock steps. The clock is read by the caller and may step either way between calls. */
module Issuer {
  import opened Options
  import opened Bytes
  import opened Identity

  const STATEMENT_EVERY_MS := 15 * 60 * 1000
  const STATEMENT_VALID_MS := 60 * 60 * 1000
  const BINDING_VALID_MS := 7 * 24 * 60 * 60 * 1000
  const ROTATE_EVERY_MS := 5 * 24 * 60 * 60 * 1000

  /** The clock readings every window this issuer signs stays representable at. */
  predicate InRange(now: int) { 0 <= now && now + BINDING_VALID_MS < MAX_PROTOCOL_INT }

  /** A binding held with its newest statement; `connectKey` is the carried CONNECT key it binds, and `private` the
      key itself while the binding is the current one. */
  datatype Stated = Stated(
    private: Option<bytes>, connectKey: bytes, bindingId: bytes, binding: Signed, statement: Signed,
    boundAt: int, statedAt: int, issuedAt: int, notAfter: int)

  datatype Material = Material(key: bytes, binding: Signed, status: Signed)

  /** later: a millisecond after the last statement while that is within the tolerance of now, else now. */
  function Later(previous: int, now: int): int {
    if previous + 1 <= now + TOLERANCE_MS then (if previous + 1 > now then previous + 1 else now) else now
  }

  /** A reissued statement is never dated before now nor more than five minutes ahead, so no verifier with this
      clock refuses it; and it is newer than the last, unless newer than the last would be too far ahead. */
  lemma LaterInWindow(previous: int, now: int)
    ensures now <= Later(previous, now) <= now + TOLERANCE_MS
    ensures Later(previous, now) > previous <==> previous < now + TOLERANCE_MS
  {
  }

  predicate RotationDue(b: Stated, now: int) {
    now < b.boundAt - TOLERANCE_MS || now >= b.boundAt + ROTATE_EVERY_MS
  }

  predicate RestatementDue(b: Stated, now: int) {
    now < b.statedAt - TOLERANCE_MS || now >= b.statedAt + STATEMENT_EVERY_MS
  }

  predicate InForce(b: Stated, now: int) {
    && b.boundAt - TOLERANCE_MS <= now <= b.notAfter
    && b.statedAt - TOLERANCE_MS <= now < b.statedAt + STATEMENT_VALID_MS
  }

  /** An identity key at work: issuing bindings and statements, and how a peer that holds its public key judges
      them at a time. */
  datatype Office = Office(
    public: bytes -> bytes,
    bind: (bytes, bytes, int, int) -> Option<Signed>,
    state: (Signed, int, int) -> Option<Signed>,
    bindingOk: (Signed, bytes, int) -> bool,
    statusOk: (Signed, Signed, int) -> bool)

  /** The office of an identity key under the signing scheme, judged by VerifyConnectBinding and VerifyStatus. */
  function OfficeOf(s: Scheme, w: Vocabulary, identity: bytes): Office
    requires |w.bindingNames| == 9 && |w.statusNames| == 6
  {
    Office(
      s.public,
      (connectKey, id, from, to) => ConnectBinding(s, w, identity, connectKey, id, from, to),
      (binding, from, to) => StatusStatement(s, w, identity, binding, from, to),
      (binding, connectKey, now) => VerifyConnectBinding(s, w, binding, s.public(identity), connectKey, now).Verified?,
      (statement, binding, now) => VerifyStatus(s, w, statement, binding, s.public(identity), now).Verified?)
  }

  /** What the office issues is issued exactly within what a verifier accepts, and verifies exactly within five
      minutes of its period. */
  ghost predicate Honest(o: Office) {
    && (forall connectKey, id, from, to :: |id| == 16 ==>
          (o.bind(connectKey, id, from, to).Some? <==> WithinWindow(from, to, MAX_BINDING_MS)))
    && (forall connectKey, id, from, to, now :: |id| == 16 && o.bind(connectKey, id, from, to).Some? ==>
          (o.bindingOk(o.bind(connectKey, id, from, to).value, connectKey, now) <==>
              from - TOLERANCE_MS <= now <= to + TOLERANCE_MS))
    && (forall binding, from, to ::
          (o.state(binding, from, to).Some? <==> WithinWindow(from, to, MAX_STATUS_MS)))
    && (forall binding, from, to, now :: o.state(binding, from, to).Some? ==>
          (o.statusOk(o.state(binding, from, to).value, binding, now) <==>
              from - TOLERANCE_MS <= now <= to + TOLERANCE_MS))
  }

  /** A real identity key's office is honest, byte for byte: what it signs is decoded and checked field by field. */
  lemma {:induction false} IdentityIsHonest(s: Scheme, w: Vocabulary, identity: bytes)
    requires Lawful(s) && WellChosen(w)
    ensures Honest(OfficeOf(s, w, identity))
  {
    var o := OfficeOf(s, w, identity);
    forall connectKey, id, from, to, now | |id| == 16 && WithinWindow(from, to, MAX_BINDING_MS)
      ensures o.bindingOk(o.bind(connectKey, id, from, to).value, connectKey, now) <==>
                from - TOLERANCE_MS <= now <= to + TOLERANCE_MS
    {
      IssuedBindingVerifies(s, w, identity, connectKey, id, from, to, now);
    }
    forall binding, from, to, now | WithinWindow(from, to, MAX_STATUS_MS)
      ensures o.statusOk(o.state(binding, from, to).value, binding, now) <==>
                from - TOLERANCE_MS <= now <= to + TOLERANCE_MS
    {
      IssuedStatusVerifies(s, w, identity, binding, from, to, now);
    }
  }

  /** What every held binding satisfies: it and its statement are this office's own, over the times recorded, and
      the statement is dated no earlier than it was made and at most five minutes ahead. */
  ghost predicate Genuine(o: Office, b: Stated) {
    && |b.bindingId| == 16 && b.notAfter == b.boundAt + BINDING_VALID_MS
    && o.bind(b.connectKey, b.bindingId, b.boundAt, b.notAfter) == Some(b.binding)
    && o.state(b.binding, b.issuedAt, b.issuedAt + STATEMENT_VALID_MS) == Some(b.statement)
    && b.statedAt <= b.issuedAt <= b.statedAt + TOLERANCE_MS
    && (b.private.Some? ==> o.public(b.private.value) == b.connectKey)
  }

  ghost predicate AllGenuine(o: Office, bindings: map<bytes, Stated>) {
    forall h :: h in bindings ==> Genuine(o, bindings[h])
  }

  lemma GenuineWith(o: Office, bindings: map<bytes, Stated>, h: bytes, b: Stated)
    requires AllGenuine(o, bindings) && Genuine(o, b)
    ensures AllGenuine(o, bindings[h := b])
  {
  }

  lemma GenuineWithoutKey(o: Office, b: Stated)
    requires Genuine(o, b)
    ensures Genuine(o, b.(private := None))
  {
  }

  /** A binding with its next statement, when it is not past its not_after and the statement is representable. */
  function Reissued(o: Office, b: Stated, now: int): Stated {
    if b.notAfter < now then b
    else
      var issuedAt := Later(b.issuedAt, now);
      match o.state(b.binding, issuedAt, issuedAt + STATEMENT_VALID_MS)
      case None => b
      case Some(t) => b.(statement := t, statedAt := now, issuedAt := issuedAt)
  }

  /** Every reissued statement is newer than the last and within the tolerance of now, as `Later` dates it. */
  lemma ReissuedGenuine(o: Office, b: Stated, now: int)
    requires Honest(o) && Genuine(o, b)
    ensures var r := Reissued(o, b, now);
            && Genuine(o, r) && r.private == b.private && r.boundAt == b.boundAt && r.notAfter == b.notAfter
            && (InRange(now) && now <= b.notAfter ==> r.statedAt == now && r.issuedAt == Later(b.issuedAt, now))
  {
    LaterInWindow(b.issuedAt, now);
  }

  lemma AllReissuedGenuine(o: Office, bindings: map<bytes, Stated>, now: int)
    requires Honest(o) && AllGenuine(o, bindings)
    ensures AllGenuine(o, map h | h in bindings :: Reissued(o, bindings[h], now))
  {
    forall h | h in bindings
      ensures Genuine(o, Reissued(o, bindings[h], now))
    {
      ReissuedGenuine(o, bindings[h], now);
    }
  }

  /** reissue's loop over the held bindings, in any order. */
  method ReissueEach(o: Office, held: map<bytes, Stated>, now: int) returns (r: map<bytes, Stated>)
    ensures r == map h | h in held :: Reissued(o, held[h], now)
  {
    r := held;
    var todo := held.Keys;
    while todo != {}
      invariant r.Keys == held.Keys && todo <= held.Keys
      invariant forall h :: h in held ==> r[h] == if h in todo then held[h] else Reissued(o, held[h], now)
      decreases |todo|
    {
      var h :| h in todo;
      todo := todo - {h};
      r := r[h := Reissued(o, r[h], now)];
    }
  }

  predicate Stays(held: map<bytes, Stated>, current: bytes, h: bytes, now: int)
    requires h in held
  {
    held[h].notAfter >= now || h == current
  }

  /** dropExpired's loop over the held bindings, in any order. */
  method DropEach(held: map<bytes, Stated>, current: bytes, now: int) returns (r: map<bytes, Stated>)
    ensures r == map h | h in held && Stays(held, current, h, now) :: held[h]
  {
    r := held;
    var todo := held.Keys;
    while todo != {}
      invariant todo <= held.Keys
      invariant r == map h | h in held && (h in todo || Stays(held, current, h, now)) :: held[h]
      decreases |todo|
    {
      var h :| h in todo;
      if held[h].notAfter < now && h != current {
        r := r - {h};
      }
      todo := todo - {h};
    }
  }

  class StatementIssuer {
    const office: Office
    const hash: bytes -> Hash48
    var current: bytes
    var bindings: map<bytes, Stated>
    var rotationFailures: nat

    ghost predicate Valid()
      reads this
    {
      && Honest(office)
      && current in bindings && bindings[current].private.Some?
      && AllGenuine(office, bindings)
    }

    /** NewStatementIssuer once its first rotation succeeded: which it does exactly at a representable time. */
    constructor (o: Office, hash: bytes -> Hash48, now: int, freshKey: bytes, freshId: bytes)
      requires Honest(o) && |freshId| == 16 && InRange(now)
      ensures Valid() && office == o
    {
      office, this.hash := o, hash;
      var b := NewBinding(o, now, freshKey, freshId);
      current := hash(b.value.binding.tbs);
      bindings := map[hash(b.value.binding.tbs) := b.value];
      rotationFailures := 0;
    }

    /** ConnectMaterial: what a new dial carries. Whatever the clock reads, material handed out is a binding and a
        statement a verifier accepts at that time for that key; and at every representable reading, however the
        clock moved since the last call and however many ticks were missed, there is material. */
    method ConnectMaterial(now: int, freshKey: bytes, freshId: bytes) returns (m: Option<Material>)
      requires Valid() && |freshId| == 16
      modifies this
      ensures Valid()
      ensures m.Some? ==>
                && office.bindingOk(m.value.binding, office.public(m.value.key), now)
                && office.statusOk(m.value.status, m.value.binding, now)
      ensures InRange(now) ==> m.Some?
    {
      var held := bindings[current];
      if RotationDue(held, now) || RestatementDue(held, now) {
        Tick(now, freshKey, freshId);
      }
      var b := bindings[current];
      if !InForce(b, now) {
        return None;
      }
      var status := DialStatement(b, now);
      if status.None? {
        return None;
      }
      return Some(Material(b.private.value, b.binding, status.value));
    }

    /** dialStatement: the newest, or one issued now when the newest is dated too far ahead. */
    method DialStatement(b: Stated, now: int) returns (t: Option<Signed>)
      requires Valid() && Genuine(office, b) && InForce(b, now)
      ensures t.Some? ==> office.statusOk(t.value, b.binding, now)
      ensures InRange(now) ==> t.Some?
    {
      if b.issuedAt - TOLERANCE_MS <= now {
        return Some(b.statement);
      }
      t := office.state(b.binding, now, now + STATEMENT_VALID_MS);
    }

    /** tick: reissue, rotate when due, and let go of what expired; the current binding is in force afterwards at
        every representable reading. */
    method Tick(now: int, freshKey: bytes, freshId: bytes)
      requires Valid() && |freshId| == 16
      modifies this
      ensures Valid()
      ensures InRange(now) ==> InForce(bindings[current], now)
    {
      ReissuedGenuine(office, bindings[current], now);
      Reissue(now);
      if RotationDue(bindings[current], now) {
        Rotate(now, freshKey, freshId);
      }
      DropExpired(now);
    }

    /** reissue: a statement at now for each binding whose not_after has not passed. */
    method Reissue(now: int)
      requires Valid()
      modifies this`bindings
      ensures Valid() && bindings == map h | h in old(bindings) :: Reissued(office, old(bindings)[h], now)
    {
      AllReissuedGenuine(office, bindings, now);
      ReissuedGenuine(office, bindings[current], now);
      bindings := ReissueEach(office, bindings, now);
    }

    /** rotate: a new CONNECT key, bound and stated before it becomes the current one; a failure is counted. */
    method Rotate(now: int, freshKey: bytes, freshId: bytes)
      requires Valid() && |freshId| == 16
      modifies this
      ensures Valid()
      ensures InRange(now) ==> bindings[current].boundAt == bindings[current].statedAt == now
      ensures !InRange(now) ==> bindings == old(bindings) && current == old(current)
    {
      var next := NewBinding(office, now, freshKey, freshId);
      if next.None? {
        rotationFailures := rotationFailures + 1;
        return;
      }
      rotationFailures := 0;
      GenuineWithoutKey(office, bindings[current]);
      GenuineWith(office, bindings, current, bindings[current].(private := None));
      bindings := bindings[current := bindings[current].(private := None)];
      GenuineWith(office, bindings, hash(next.value.binding.tbs), next.value);
      var name := hash(next.value.binding.tbs);
      bindings := bindings[name := next.value];
      current := name;
    }

    /** dropExpired: bindings past their not_after go, except the current one. */
    method DropExpired(now: int)
      requires Valid()
      modifies this`bindings
      ensures Valid()
      ensures bindings == map h | h in old(bindings) && Stays(old(bindings), current, h, now) :: old(bindings)[h]
    {
      bindings := DropEach(bindings, current, now);
    }
  }

  /** rotateConnect's new binding: representable times or nothing. */
  function NewBinding(o: Office, now: int, freshKey: bytes, freshId: bytes): (r: Option<Stated>)
    requires Honest(o) && |freshId| == 16
    ensures r.Some? <==> InRange(now)
    ensures r.Some? ==> Genuine(o, r.value) && r.value.private.Some? && r.value.boundAt == r.value.statedAt == now
  {
    match o.bind(o.public(freshKey), freshId, now, now + BINDING_VALID_MS)
    case None => None
    case Some(binding) =>
      match o.state(binding, now, now + STATEMENT_VALID_MS)
      case None => None
      case Some(statement) =>
        Some(Stated(Some(freshKey), o.public(freshKey), freshId, binding, statement, now, now, now,
            now + BINDING_VALID_MS))
  }

  /** What the issuer is asked for: material for a dial, or a tick; each at its own clock reading. */
  datatype Moment = Dials(now: int) | Ticks(now: int)

  /** Material a verifier takes at that reading. */
  ghost predicate Taken(o: Office, m: Option<Material>, now: int) {
    && m.Some?
    && o.bindingOk(m.value.binding, o.public(m.value.key), now)
    && o.statusOk(m.value.status, m.value.binding, now)
  }

  method Meet(issuer: StatementIssuer, moment: Moment, freshKey: bytes, freshId: bytes) returns (m: Option<Material>)
    requires issuer.Valid() && |freshId| == 16
    modifies issuer
    ensures issuer.Valid()
    ensures moment.Dials? && InRange(moment.now) ==> Taken(issuer.office, m, moment.now)
  {
    if moment.Dials? {
      m := issuer.ConnectMaterial(moment.now, freshKey, freshId);
    } else {
      issuer.Tick(moment.now, freshKey, freshId);
      m := None;
    }
  }

  /** Dials and ticks in any order, at any clock readings, each earlier or later than the one before: every dial at a
      representable reading carries a binding and a statement that verify at that reading. */
  method DialThrough(o: Office, hash: bytes -> Hash48, start: int, moments: seq<Moment>, supply: nat -> (bytes, bytes))
    returns (dials: seq<Option<Material>>)
    requires Honest(o) && InRange(start) && (forall n: nat :: |supply(n).1| == 16)
    ensures AllTaken(o, moments, dials)
  {
    var issuer := new StatementIssuer(o, hash, start, supply(0).0, supply(0).1);
    dials := DialOn(issuer, moments, supply);
  }

  ghost predicate AllTaken(o: Office, moments: seq<Moment>, dials: seq<Option<Material>>) {
    && |dials| == |moments|
    && forall i :: 0 <= i < |moments| && moments[i].Dials? && InRange(moments[i].now) ==>
        Taken(o, dials[i], moments[i].now)
  }

  lemma AllTakenPush(o: Office, moments: seq<Moment>, i: nat, dials: seq<Option<Material>>, m: Option<Material>)
    requires i < |moments| && AllTaken(o, moments[..i], dials)
    requires moments[i].Dials? && InRange(moments[i].now) ==> Taken(o, m, moments[i].now)
    ensures AllTaken(o, moments[..i + 1], dials + [m])
  {
  }

  method DialOn(issuer: StatementIssuer, moments: seq<Moment>,
                supply: nat -> (bytes, bytes)) returns (dials: seq<Option<Material>>)
    requires issuer.Valid() && (forall n: nat :: |supply(n).1| == 16)
    modifies issuer
    ensures issuer.Valid() && AllTaken(issuer.office, moments, dials)
  {
    dials := [];
    for i := 0 to |moments|
      invariant issuer.Valid() && AllTaken(issuer.office, moments[..i], dials)
    {
      var m := Meet(issuer, moments[i], supply(i + 1).0, supply(i + 1).1);
      AllTakenPush(issuer.office, moments, i, dials, m);
      dials := dials + [m];
    }
    assert moments[..|moments|] == moments;
  }
}
