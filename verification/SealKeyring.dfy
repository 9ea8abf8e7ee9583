/** A provider's KEM keyring: the key its advertisements name, rotated daily, and the replaced key kept long enough
    for every request sealed to it that admission would still take. */
module SealKeyring {
  import opened Options
  import opened Bytes
  import Admission

  const KEY_LIFETIME_MS := 24 * 60 * 60_000
  const RETIRED_KEPT_MS := 30 * 60_000

  /** A replaced key, named by its id, and when it is forgotten. */
  datatype Retired = Retired(id: bytes, until: int)

  datatype Ring = Ring(current: bytes, since: int, retired: seq<Retired>)

  function Kept(retired: seq<Retired>, now: int): seq<Retired> {
    if retired == [] then []
    else (if now < retired[0].until then [retired[0]] else []) + Kept(retired[1..], now)
  }

  /** rotate, given the key GenerateKey would give now, or none when it fails. */
  function Rotated(r: Ring, now: int, next: Option<bytes>): Ring {
    var kept := Kept(r.retired, now);
    if now - r.since < KEY_LIFETIME_MS || next.None? then r.(retired := kept)
    else Ring(next.value, now, kept + [Retired(r.current, now + RETIRED_KEPT_MS)])
  }

  /** Find, once rotated: the current key, or a replaced one still kept. */
  ghost predicate Finds(r: Ring, id: bytes, now: int) {
    r.current == id || exists i :: 0 <= i < |r.retired| && r.retired[i].id == id && now < r.retired[i].until
  }

  /** The invariant of a ring: at most one replaced key, replaced when the current one began. */
  ghost predicate Sound(r: Ring) {
    |r.retired| <= 1 && forall i :: 0 <= i < |r.retired| ==> r.retired[i].until == r.since + RETIRED_KEPT_MS
  }

  /** However the clock moves, the keyring never keeps more than one replaced key. */
  lemma RotatedSound(r: Ring, now: int, next: Option<bytes>)
    requires Sound(r)
    ensures Sound(Rotated(r, now, next))
  {
    if r.retired != [] {
      assert r.retired == [r.retired[0]];
      assert Kept(r.retired[1..], now) == [];
    }
  }

  /** rotate's loop over the replaced keys. */
  method KeepLive(retired: seq<Retired>, now: int) returns (kept: seq<Retired>)
    ensures kept == Kept(retired, now)
  {
    kept := [];
    assert retired[0..] == retired;
    for i := 0 to |retired|
      invariant kept + Kept(retired[i..], now) == Kept(retired, now)
    {
      var more := retired[i + 1..];
      assert retired[i..][1..] == more;
      if now < retired[i].until {
        assert kept + ([retired[i]] + Kept(more, now)) == kept + [retired[i]] + Kept(more, now);
        kept := kept + [retired[i]];
      } else {
        assert [] + Kept(more, now) == Kept(more, now);
      }
    }
    assert kept + [] == kept;
  }

  class Keyring {
    var current: bytes
    var since: int
    var retired: seq<Retired>

    ghost function State(): Ring
      reads this
    {
      Ring(current, since, retired)
    }

    constructor (first: bytes, now: int)
      ensures State() == Ring(first, now, []) && Sound(State())
    {
      current, since, retired := first, now, [];
    }

    method Rotate(now: int, next: Option<bytes>)
      requires Sound(State())
      modifies this
      ensures State() == Rotated(old(State()), now, next) && Sound(State())
    {
      RotatedSound(State(), now, next);
      retired := KeepLive(retired, now);
      if now - since < KEY_LIFETIME_MS || next.None? {
        return;
      }
      retired := retired + [Retired(current, now + RETIRED_KEPT_MS)];
      current, since := next.value, now;
    }

    method Find(id: bytes, now: int, next: Option<bytes>) returns (found: bool)
      requires Sound(State())
      modifies this
      ensures State() == Rotated(old(State()), now, next) && Sound(State())
      ensures found == Finds(State(), id, now)
    {
      Rotate(now, next);
      if current == id {
        return true;
      }
      for i := 0 to |retired|
        invariant forall j :: 0 <= j < i ==> !(retired[j].id == id && now < retired[j].until)
      {
        if retired[i].id == id && now < retired[i].until {
          return true;
        }
      }
      return false;
    }
  }

  // --------------------------------------------------------------- whole runs

  /** One use of the keyring: the provider's clock, and the key a rotation would bring. */
  datatype Use = Use(now: int, next: Option<bytes>)

  function After(r: Ring, uses: seq<Use>): Ring {
    if uses == [] then r
    else Rotated(After(r, uses[..|uses| - 1]), uses[|uses| - 1].now, uses[|uses| - 1].next)
  }

  ghost predicate Forward(uses: seq<Use>) {
    forall i, j :: 0 <= i <= j < |uses| ==> uses[i].now <= uses[j].now
  }

  lemma {:induction false} AfterSound(r: Ring, uses: seq<Use>)
    requires Sound(r)
    ensures Sound(After(r, uses))
  {
    if uses != [] {
      AfterSound(r, uses[..|uses| - 1]);
      RotatedSound(After(r, uses[..|uses| - 1]), uses[|uses| - 1].now, uses[|uses| - 1].next);
    }
  }

  /** A key is current at `at`, or it was replaced at a time from `at` on and is kept thirty minutes from then. */
  ghost predicate StillHeld(r: Ring, id: bytes, at: int) {
    || r.current == id
    || exists i :: 0 <= i < |r.retired| && r.retired[i].id == id && at + RETIRED_KEPT_MS <= r.retired[i].until
  }

  lemma {:induction false} KeptMember(retired: seq<Retired>, now: int, i: nat)
    requires i < |retired| && now < retired[i].until
    ensures exists j :: 0 <= j < |Kept(retired, now)| && Kept(retired, now)[j] == retired[i]
  {
    var kept := Kept(retired, now);
    if i == 0 {
      assert kept[0] == retired[0];
    } else {
      KeptMember(retired[1..], now, i - 1);
      var j :| 0 <= j < |Kept(retired[1..], now)| && Kept(retired[1..], now)[j] == retired[1..][i - 1];
      var shift := |kept| - |Kept(retired[1..], now)|;
      assert kept[j + shift] == retired[i];
    }
  }

  lemma {:induction false} HeldStep(r: Ring, id: bytes, at: int, now: int, next: Option<bytes>)
    requires StillHeld(r, id, at) && at <= now < at + RETIRED_KEPT_MS
    ensures StillHeld(Rotated(r, now, next), id, at)
  {
    var kept := Kept(r.retired, now);
    var after := Rotated(r, now, next);
    if r.current == id {
      if after.current != id {
        assert after.retired[|kept|] == Retired(id, now + RETIRED_KEPT_MS);
      }
    } else {
      var i :| 0 <= i < |r.retired| && r.retired[i].id == id && at + RETIRED_KEPT_MS <= r.retired[i].until;
      KeptMember(r.retired, now, i);
      var j :| 0 <= j < |kept| && kept[j] == r.retired[i];
      assert after.retired[j] == r.retired[i];
    }
  }

  /** A key the provider named is found for thirty minutes after, whatever rotations come in between. */
  lemma {:induction false} NamedKeyIsFound(r: Ring, uses: seq<Use>, i: nat, j: nat)
    requires Forward(uses) && i <= j < |uses| && uses[j].now < uses[i].now + RETIRED_KEPT_MS
    ensures var id := After(r, uses[..i + 1]).current;
            StillHeld(After(r, uses[..j + 1]), id, uses[i].now) && Finds(After(r, uses[..j + 1]), id, uses[j].now)
    decreases j
  {
    if j > i {
      assert uses[i].now <= uses[j - 1].now <= uses[j].now;
      NamedKeyIsFound(r, uses, i, j - 1);
      assert uses[..j + 1][..j] == uses[..j];
      HeldStep(After(r, uses[..j]), After(r, uses[..i + 1]).current, uses[i].now, uses[j].now, uses[j].next);
    }
  }

  // --------------------------------------------------- against the other windows

  const CLOCK_TOLERANCE_MS := 5 * 60_000
  const ADVERTISEMENT_MAX_MS := 5 * 60_000
  const MAX_CALL_TIMEOUT_MS := 10 * 60_000
  const DEFAULT_CALL_TIMEOUT_MS := 5_000

  /** An advertisement naming a key, its times as its provider signed them. */
  datatype Advertisement = Advertisement(keyId: bytes, createdAt: int, expiresAt: int)

  /** What a caller's verification says of the times: a lifetime within the advertisement's row, and the caller's own
      clock, however skewed, within five minutes of it. */
  predicate VerifiableAt(ad: Advertisement, callerNow: int) {
    && 0 < ad.expiresAt - ad.createdAt <= ADVERTISEMENT_MAX_MS
    && ad.createdAt <= callerNow + CLOCK_TOLERANCE_MS
    && ad.expiresAt + CLOCK_TOLERANCE_MS >= callerNow
  }

  /** callTimeout: clamped to ten minutes, defaulted when not positive. */
  function CallTimeout(t: int): int {
    var clamped := if t < 0 then 0 else if t > MAX_CALL_TIMEOUT_MS then MAX_CALL_TIMEOUT_MS else t;
    if clamped == 0 then DEFAULT_CALL_TIMEOUT_MS else clamped
  }

  const MARGIN_MS := 5 * 60_000

  /** The windows interlock. The keyring names its current key at use `i`, and the provider signs an advertisement of
      it; a caller whose clock reads `callerNow`, right or wrong, verifies it, seals a request to that key and gives it
      a deadline its timeout allows; admission judges the request at `admittedAt`, and the keyring is asked for the key
      at use `j`, later, by whoever answers. If admission does not refuse the request as expired, the key is still
      found, as long as the time from naming the key to signing and the time from admitting to asking are together
      less than five minutes. */
  lemma {:induction false} AdmittedRequestOpens(r: Ring, uses: seq<Use>, i: nat, j: nat, ad: Advertisement,
                                                callerNow: int, timeout: int, admittedAt: int,
                                                l: Admission.Limits, es: Admission.Entries, request: Admission.Request,
                                                share: bytes)
    requires Forward(uses) && i <= j < |uses|
    requires ad.keyId == After(r, uses[..i + 1]).current
    requires VerifiableAt(ad, callerNow)
    requires request.deadline == callerNow + CallTimeout(timeout)
    requires Admission.Judge(l, es, request, share, admittedAt).1 != Admission.Refused(Admission.Expired)
    requires (ad.createdAt - uses[i].now) + (uses[j].now - admittedAt) < MARGIN_MS
    ensures Finds(After(r, uses[..j + 1]), ad.keyId, uses[j].now)
  {
    NamedKeyIsFound(r, uses, i, j);
  }

  /** Five minutes is exact: a key replaced as it was named is forgotten when they have passed. */
  lemma MarginIsExact(a: bytes, b: bytes, l: Admission.Limits, request: Admission.Request, share: bytes)
    requires a != b && request.deadline == 20 * 60_000
    ensures var r := Ring(a, -KEY_LIFETIME_MS, []);
            var uses := [Use(0, None), Use(0, Some(b)), Use(30 * 60_000, None)];
            var ad := Advertisement(a, 0, ADVERTISEMENT_MAX_MS);
            && Forward(uses) && ad.keyId == After(r, uses[..1]).current && VerifiableAt(ad, 10 * 60_000)
            && request.deadline == 10 * 60_000 + CallTimeout(MAX_CALL_TIMEOUT_MS)
            && Admission.Judge(l, map[], request, share, 25 * 60_000).1 != Admission.Refused(Admission.Expired)
            && (ad.createdAt - uses[0].now) + (uses[2].now - 25 * 60_000) == MARGIN_MS
            && !Finds(After(r, uses[..3]), a, uses[2].now)
  {
    var r := Ring(a, -KEY_LIFETIME_MS, []);
    var uses := [Use(0, None), Use(0, Some(b)), Use(30 * 60_000, None)];
    assert uses[..1][..0] == [] && uses[..2][..1] == uses[..1] && uses[..3][..2] == uses[..2];
    assert After(r, uses[..1]) == r;
    assert After(r, uses[..2]) == Ring(b, 0, [Retired(a, RETIRED_KEPT_MS)]);
    assert Kept([Retired(a, RETIRED_KEPT_MS)], 30 * 60_000) == [];
    assert After(r, uses[..3]) == Ring(b, 0, []);
  }
}
