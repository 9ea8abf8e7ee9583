/** A publication's times: how long a verifier accepts it, and how long a node remembers having delivered it. */
module Publication {
  import opened Options

  const TOLERANCE_MS := 5 * 60_000
  const DEFAULT_TTL_MS := 10 * 60_000
  const MAX_TTL_MS := 60 * 60_000

  /** protocolUint: what every time in a signed publication is. */
  type ProtocolUint = n: nat | n < 0x20_0000_0000_0000

  datatype Stamp = Stamp(publishedAt: ProtocolUint, ttl: Option<ProtocolUint>)

  function ExpiresAt(p: Stamp): nat {
    p.publishedAt + (if p.ttl.Some? then p.ttl.value else DEFAULT_TTL_MS) + TOLERANCE_MS
  }

  datatype Verdict = Accepted | Malformed | KeyIdMismatch | NotYetValid(aheadMs: int) | PastExpiry(pastMs: int)

  /** VerifyPublication, of a publication whose signature and fields verified, `own` when its publisher is its key's
      id. */
  function Judge(p: Stamp, own: bool, now: int): Verdict {
    var validFrom := p.publishedAt - TOLERANCE_MS;
    if p.ttl.Some? && p.ttl.value > MAX_TTL_MS then Malformed
    else if !own then KeyIdMismatch
    else if validFrom > now then NotYetValid(validFrom - now)
    else if now > ExpiresAt(p) then PastExpiry(now - ExpiresAt(p))
    else Accepted
  }

  /** An accepted publication is accepted at every moment of one stretch, at most 70 minutes long. */
  lemma AcceptedStretch(p: Stamp, now: int)
    requires Judge(p, true, now) == Accepted
    ensures ExpiresAt(p) - (p.publishedAt - TOLERANCE_MS) <= MAX_TTL_MS + 2 * TOLERANCE_MS
    ensures forall t :: Judge(p, true, t) == Accepted <==> p.publishedAt - TOLERANCE_MS <= t <= ExpiresAt(p)
  {
  }
}

/** The hashes of delivered publications, each kept until its publication expires, so that none is delivered twice. */
module EventDedup {
  import opened Options
  import opened Bytes
  import Publication

  type Hash = b: bytes | |b| == 48 witness seq(48, _ => 0)

  /** The sweep compares unsigned: a time before 1970 is past every expiry. */
  function Swept(seen: map<Hash, nat>, now: i64): map<Hash, nat> {
    map h | h in seen && seen[h] >= Unsigned(now) :: seen[h]
  }

  function Heard(seen: map<Hash, nat>, hash: Hash, expiresAt: nat, now: i64): map<Hash, nat> {
    if hash in seen then seen else Swept(seen, now)[hash := expiresAt]
  }

  class EventDedup {
    var seen: map<Hash, nat>

    constructor ()
      ensures seen == map[]
    {
      seen := map[];
    }

    method First(hash: Hash, expiresAt: nat, now: i64) returns (isNew: bool)
      modifies this
      ensures isNew == (hash !in old(seen))
      ensures seen == Heard(old(seen), hash, expiresAt, now)
    {
      if hash in seen {
        return false;
      }
      var held := seen.Keys;
      while held != {}
        invariant held <= old(seen).Keys
        invariant seen == map h | h in old(seen) && (h in held || old(seen)[h] >= Unsigned(now)) :: old(seen)[h]
        decreases |held|
      {
        var h :| h in held;
        if seen[h] < Unsigned(now) {
          seen := seen - {h};
        }
        held := held - {h};
      }
      seen := seen[hash := expiresAt];
      return true;
    }
  }

  /** An event heard on some link at some time, its publication expiring when its stamp says. */
  datatype Event = Event(hash: Hash, stamp: Publication.Stamp, now: i64)

  predicate IsFresh(e: Event) { Publication.Judge(e.stamp, true, e.now) == Publication.Accepted }

  ghost predicate Hears(seen: map<Hash, nat>, e: Event, next: map<Hash, nat>) {
    next == Heard(seen, e.hash, Publication.ExpiresAt(e.stamp), e.now)
  }

  /** A run from an empty dedup: the events, and the hashes held before, between and after them. */
  ghost predicate IsRun(states: seq<map<Hash, nat>>, run: seq<Event>) {
    && |states| == |run| + 1 && states[0] == map[]
    && forall k :: 0 <= k < |run| ==> Hears(states[k], run[k], states[k + 1])
  }

  /** Event `i` is reported first. */
  predicate FirstAt(states: seq<map<Hash, nat>>, run: seq<Event>, i: nat)
    requires i < |run| && |states| == |run| + 1
  {
    run[i].hash !in states[i]
  }

  /** The clock's readings never step back, in the order of the calls. */
  predicate Forward(run: seq<Event>) { forall i, j :: 0 <= i < j < |run| ==> run[i].now <= run[j].now }

  /** Whether another publication was first heard since event `i`, up to `t`, at a reading past `i`'s expiry. */
  ghost predicate Forgotten(states: seq<map<Hash, nat>>, run: seq<Event>, i: nat, t: nat)
    requires i < t <= |run| && |states| == |run| + 1
  {
    exists k :: i < k < t && FirstAt(states, run, k) && Unsigned(run[k].now) > Publication.ExpiresAt(run[i].stamp)
  }

  ghost predicate FirstBetween(states: seq<map<Hash, nat>>, run: seq<Event>, i: nat, t: nat)
    requires i < t <= |run| && |states| == |run| + 1
  {
    exists k :: i < k < t && run[k].hash == run[i].hash && FirstAt(states, run, k)
  }

  lemma ForgottenStep(states: seq<map<Hash, nat>>, run: seq<Event>, i: nat, k: nat)
    requires i < k < |run| && |states| == |run| + 1
    ensures Forgotten(states, run, i, k + 1) <==>
              || Forgotten(states, run, i, k)
              || (FirstAt(states, run, k) && Unsigned(run[k].now) > Publication.ExpiresAt(run[i].stamp))
  {
    if Forgotten(states, run, i, k) {
      var m :| i < m < k && FirstAt(states, run, m) && Unsigned(run[m].now) > Publication.ExpiresAt(run[i].stamp);
      assert i < m < k + 1;
    }
  }

  lemma NoneBetween(states: seq<map<Hash, nat>>, run: seq<Event>, i: nat, k: nat)
    requires i < k < |run| && |states| == |run| + 1 && !FirstBetween(states, run, i, k + 1)
    ensures !FirstBetween(states, run, i, k) && (run[k].hash == run[i].hash ==> !FirstAt(states, run, k))
  {
  }

  /** A hash is held, until its publication expires, exactly when it was not swept. */
  ghost predicate HeldUnless(seen: map<Hash, nat>, h: Hash, until: nat, swept: bool) {
    (h in seen <==> !swept) && (h in seen ==> seen[h] == until)
  }

  lemma HeardOn(seen: map<Hash, nat>, e: Event, next: map<Hash, nat>, h: Hash, until: nat, swept: bool)
    requires Hears(seen, e, next) && HeldUnless(seen, h, until, swept) && (e.hash == h ==> h in seen)
    ensures HeldUnless(next, h, until, swept || (e.hash !in seen && Unsigned(e.now) > until))
  {
  }

  /** Until it is first heard again, a hash is held exactly as long as no such sweep came. */
  lemma {:induction false} HeldUnlessForgotten(states: seq<map<Hash, nat>>, run: seq<Event>, i: nat, t: nat)
    requires IsRun(states, run) && i < t <= |run| && FirstAt(states, run, i) && !FirstBetween(states, run, i, t)
    ensures HeldUnless(states[t], run[i].hash, Publication.ExpiresAt(run[i].stamp), Forgotten(states, run, i, t))
    decreases t
  {
    if t == i + 1 {
      assert Hears(states[i], run[i], states[t]);
    } else {
      var k := t - 1;
      NoneBetween(states, run, i, k);
      HeldUnlessForgotten(states, run, i, k);
      ForgottenStep(states, run, i, k);
      var until := Publication.ExpiresAt(run[i].stamp);
      HeardOn(states[k], run[k], states[t], run[i].hash, until, Forgotten(states, run, i, k));
    }
  }

  /** When a publication is delivered again. In every run, whatever the readings and their order, a copy at `j` of what
      was first heard at `i`, with no such report in between, is reported first exactly when another publication was
      first heard between them at a reading past `i`'s expiry. */
  lemma FirstAgainIff(states: seq<map<Hash, nat>>, run: seq<Event>, i: nat, j: nat)
    requires IsRun(states, run) && i < j < |run| && run[j].hash == run[i].hash && FirstAt(states, run, i)
    requires !FirstBetween(states, run, i, j)
    ensures FirstAt(states, run, j) <==> Forgotten(states, run, i, j)
  {
    HeldUnlessForgotten(states, run, i, j);
  }

  /** So by the time of a copy at `j` it was reported first again, there or earlier, exactly when such a sweep came. */
  lemma {:induction false} AgainIffForgotten(states: seq<map<Hash, nat>>, run: seq<Event>, i: nat, j: nat)
    requires IsRun(states, run) && i < j < |run| && run[j].hash == run[i].hash && FirstAt(states, run, i)
    ensures FirstBetween(states, run, i, j + 1) <==> Forgotten(states, run, i, j)
    decreases j
  {
    if FirstBetween(states, run, i, j) {
      var k :| i < k < j && run[k].hash == run[i].hash && FirstAt(states, run, k);
      assert FirstBetween(states, run, i, k + 1);
      AgainIffForgotten(states, run, i, k);
      var m :| i < m < k && FirstAt(states, run, m) && Unsigned(run[m].now) > Publication.ExpiresAt(run[i].stamp);
      assert i < m < j;
    } else {
      FirstAgainIff(states, run, i, j);
    }
  }

  /** What is heard is read from signed bytes: its hash is theirs, and its stamp is in them. */
  ghost predicate Carries(run: seq<Event>, signed: seq<bytes>, sha: bytes -> Hash,
                          stampIn: bytes -> Publication.Stamp) {
    && |signed| == |run|
    && forall k :: 0 <= k < |run| ==> run[k].hash == sha(signed[k]) && run[k].stamp == stampIn(signed[k])
  }

  /** So where the calls come in the order of their readings, from 1970 on, no publication is reported first twice
      while it is accepted, although expired hashes are forgotten; or here are two signed publications with one
      hash. */
  lemma {:induction false} FirstOnce(states: seq<map<Hash, nat>>, run: seq<Event>, i: nat, j: nat,
                                     signed: seq<bytes>, sha: bytes -> Hash, stampIn: bytes -> Publication.Stamp)
    requires IsRun(states, run) && i < j < |run| && Forward(run) && Carries(run, signed, sha, stampIn)
    requires forall k :: 0 <= k < |run| ==> run[k].now >= 0
    requires run[i].hash == run[j].hash && IsFresh(run[j]) && FirstAt(states, run, i)
    ensures !FirstAt(states, run, j) || Collision(sha, signed[i], signed[j])
  {
    if FirstAt(states, run, j) {
      assert FirstBetween(states, run, i, j + 1);
      AgainIffForgotten(states, run, i, j);
    }
  }

  /** Before 1970 one can be: as unsigned, such a reading is past every expiry. */
  lemma FirstTwiceBefore1970(states: seq<map<Hash, nat>>, a: Hash, b: Hash, stamp: Publication.Stamp)
    requires a != b && stamp == Publication.Stamp(0, None)
    requires IsRun(states, [Event(a, stamp, -3), Event(b, stamp, -2), Event(a, stamp, -1)])
    ensures var run := [Event(a, stamp, -3), Event(b, stamp, -2), Event(a, stamp, -1)];
            && Forward(run) && (forall k :: 0 <= k < 3 ==> IsFresh(run[k]))
            && FirstAt(states, run, 0) && FirstAt(states, run, 2)
  {
    var run := [Event(a, stamp, -3), Event(b, stamp, -2), Event(a, stamp, -1)];
    assert Hears(states[0], run[0], states[1]) && Hears(states[1], run[1], states[2]);
  }

  /** And across links: each reads the clock before it calls, so one that read a millisecond later may call first. */
  lemma FirstTwiceAcrossLinks(states: seq<map<Hash, nat>>, a: Hash, b: Hash, p: Publication.Stamp,
                              q: Publication.Stamp)
    requires a != b && p == Publication.Stamp(1_000_000, None) && q == Publication.Stamp(1_900_000, None)
    requires IsRun(states, [Event(a, p, 1_899_999), Event(b, q, 1_900_001), Event(a, p, 1_900_000)])
    ensures var run := [Event(a, p, 1_899_999), Event(b, q, 1_900_001), Event(a, p, 1_900_000)];
            && (forall k :: 0 <= k < 3 ==> IsFresh(run[k]))
            && FirstAt(states, run, 0) && FirstAt(states, run, 2)
  {
    var run := [Event(a, p, 1_899_999), Event(b, q, 1_900_001), Event(a, p, 1_900_000)];
    assert Hears(states[0], run[0], states[1]) && Hears(states[1], run[1], states[2]);
  }
}
