/** A sealed group's epochs: the stretch each publishes and is accepted for, against the life of an event. */
module GroupEpoch {
  import opened Options
  import opened Bytes
  import Publication

  const EVENT_LIFE_MS := 65 * 60_000
  const TOLERANCE_MS := 5 * 60_000

  type Id = b: bytes | |b| == 8 witness seq(8, _ => 0)

  datatype Epoch = Epoch(id: Id, key: bytes, issuedAt: int, publishUntil: int, acceptUntil: int)

  /** epochOf's rules for an epoch's times, each read as an unsigned integer that fits int64. */
  predicate ReadsAs(e: Epoch) {
    && |e.key| == 32
    && 0 <= e.issuedAt < TWO63 && 0 <= e.publishUntil < TWO63 && 0 <= e.acceptUntil < TWO63
    && e.issuedAt < e.publishUntil && e.acceptUntil == Wrapped(e.publishUntil + EVENT_LIFE_MS)
  }

  /** No epoch read from a reply overflowed: it is accepted exactly an event's life past its publishing. */
  lemma ReadTimes(e: Epoch)
    requires ReadsAs(e)
    ensures e.acceptUntil == e.publishUntil + EVENT_LIFE_MS
  {
  }

  predicate Publishing(e: Epoch, now: int) { e.issuedAt <= now < e.publishUntil }

  predicate Acceptable(e: Epoch, now: int) { now <= Wrapped(e.acceptUntil + TOLERANCE_MS) }

  /** An epoch outlives its events. An event stamped while its epoch published, or up to five minutes after, is
      refused by the time rules of publications before its epoch stops being acceptable, whatever its ttl; unless
      the epoch's times lie within five minutes of the end of int64, when the addition wraps and the epoch is
      acceptable at no moment such an event is accepted. */
  lemma {:induction false} EpochOutlivesEvents(e: Epoch, p: Publication.Stamp, now: int)
    requires ReadsAs(e) && e.issuedAt <= p.publishedAt <= e.publishUntil + TOLERANCE_MS
    requires Publication.Judge(p, true, now) == Publication.Accepted
    ensures Acceptable(e, now) <==> e.acceptUntil + TOLERANCE_MS < TWO63
  {
    ReadTimes(e);
  }

  /** The latest moment an epoch publishes and the longest ttl meet the bound exactly: a millisecond less of either
      the accepted stretch or the tolerance would refuse an event still in time. */
  lemma NoRoomToSpare(e: Epoch, p: Publication.Stamp)
    requires ReadsAs(e) && e.acceptUntil + TOLERANCE_MS < TWO63
    requires p == Publication.Stamp(p.publishedAt, Some(Publication.MAX_TTL_MS))
    requires p.publishedAt == e.publishUntil + TOLERANCE_MS
    ensures Publication.Judge(p, true, Publication.ExpiresAt(p)) == Publication.Accepted
    ensures Acceptable(e, Publication.ExpiresAt(p)) && !Acceptable(e, Publication.ExpiresAt(p) + 1)
  {
    ReadTimes(e);
  }

  /** Such an epoch can be handed out. */
  lemma WrappedEpoch(id: Id, key: bytes, p: Publication.Stamp, now: int)
    requires |key| == 32 && p == Publication.Stamp(1_000_000, None) && now == 1_000_000
    ensures var e := Epoch(id, key, 0, TWO63 - 1 - EVENT_LIFE_MS, TWO63 - 1);
            && ReadsAs(e) && Publishing(e, p.publishedAt)
            && Publication.Judge(p, true, now) == Publication.Accepted && !Acceptable(e, now)
  {
  }

  // ------------------------------------------------------------ the held epochs

  function ForPublish(held: seq<Epoch>, now: int): Option<Epoch> {
    if held == [] then None
    else
      var best, e := ForPublish(held[..|held| - 1], now), held[|held| - 1];
      if Publishing(e, now) && (best.None? || e.issuedAt >= best.value.issuedAt) then Some(e) else best
  }

  /** The newest epoch that publishes at `now`, if any does: what a publisher seals under. */
  lemma {:induction false} ForPublishIsNewest(held: seq<Epoch>, now: int)
    ensures ForPublish(held, now).None? <==> forall e :: e in held ==> !Publishing(e, now)
    ensures ForPublish(held, now).Some? ==>
              && ForPublish(held, now).value in held && Publishing(ForPublish(held, now).value, now)
              && forall e :: e in held && Publishing(e, now) ==> e.issuedAt <= ForPublish(held, now).value.issuedAt
  {
    if held != [] {
      var n := |held| - 1;
      ForPublishIsNewest(held[..n], now);
      assert held == held[..n] + [held[n]];
    }
  }

  method PickForPublish(held: seq<Epoch>, now: int) returns (best: Option<Epoch>)
    ensures best == ForPublish(held, now)
  {
    best := None;
    for i := 0 to |held|
      invariant best == ForPublish(held[..i], now)
    {
      assert held[..i + 1][..i] == held[..i];
      var e := held[i];
      if e.issuedAt <= now && now < e.publishUntil && (best.None? || e.issuedAt >= best.value.issuedAt) {
        best := Some(e);
      }
    }
    assert held[..|held|] == held;
  }

  function Live(held: seq<Epoch>, now: int): seq<Epoch> {
    if held == [] then []
    else Live(held[..|held| - 1], now) + if Acceptable(held[|held| - 1], now) then [held[|held| - 1]] else []
  }

  lemma {:induction false} LiveMembers(held: seq<Epoch>, now: int, e: Epoch)
    ensures e in Live(held, now) <==> e in held && Acceptable(e, now)
  {
    if held != [] {
      var n := |held| - 1;
      LiveMembers(held[..n], now, e);
      assert held == held[..n] + [held[n]];
    }
  }

  method KeepLive(held: seq<Epoch>, now: int) returns (kept: seq<Epoch>)
    ensures kept == Live(held, now)
  {
    kept := [];
    for i := 0 to |held|
      invariant kept == Live(held[..i], now)
    {
      assert held[..i + 1][..i] == held[..i];
      if Acceptable(held[i], now) {
        kept := kept + [held[i]];
      }
    }
    assert held[..|held|] == held;
  }

  type Fraction = f: real | 0.0 <= f < 1.0

  /** int64(float64(n) * fraction), over the reals. */
  function Scaled(n: int, fraction: Fraction): int { (n as real * fraction).Floor }

  lemma ScaledDown(n: nat, fraction: Fraction)
    ensures 0 <= Scaled(n, fraction) <= n && (n > 0 ==> Scaled(n, fraction) < n)
  {
    Shrinks(n as real, fraction);
    FloorWithin(n as real * fraction, n);
  }

  lemma FloorWithin(x: real, n: nat)
    requires 0.0 <= x <= n as real
    ensures 0 <= x.Floor <= n && (x < n as real ==> x.Floor < n)
  {
    assert x.Floor as real <= x < x.Floor as real + 1.0;
  }

  lemma Shrinks(r: real, fraction: Fraction)
    requires r >= 0.0
    ensures 0.0 <= r * fraction <= r && (r > 0.0 ==> r * fraction < r)
  {
    assert r - r * fraction == r * (1.0 - fraction);
  }

  function Third(e: Epoch): int { (e.publishUntil - e.issuedAt) / 3 }

  /** repullAt: `fraction` of the way through the last third of the publishing stretch. */
  function RepullAt(e: Epoch, fraction: Fraction): int { e.publishUntil - Third(e) + Scaled(Third(e), fraction) }

  /** A re-pull falls in the ahead window: while the epoch still publishes, and not before its last third. */
  lemma {:induction false} RepullInWindow(e: Epoch, fraction: Fraction)
    requires ReadsAs(e)
    ensures e.publishUntil - Third(e) <= RepullAt(e, fraction) <= e.publishUntil
    ensures e.publishUntil - e.issuedAt >= 3 ==> RepullAt(e, fraction) < e.publishUntil
  {
    ScaledDown(Third(e), fraction);
  }
}
