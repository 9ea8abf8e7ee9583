/** A provider's request admission: one entry per (caller, request id), swept five minutes after its deadline, with
    counters per caller and share and reply bytes kept beside the entries. */
module Admission {
  import opened Options
  import opened Bytes

  const DEADLINE_PAST_MS := 5 * 60_000
  const DEADLINE_AHEAD_MS := 10 * 60_000
  const KEPT_PAST_MS := 5 * 60_000

  datatype Limits = Limits(callerQuota: nat, share: nat, cap: nat, replyBytes: nat, replyBytesTotal: nat)

  datatype Request = Request(caller: bytes, id: bytes, hash: bytes, deadline: int)

  datatype Key = Key(caller: bytes, id: bytes)

  datatype Entry = Entry(hash: bytes, expiresAt: int, share: bytes, answered: bool, reply: Option<bytes>)

  datatype Refusal =
    | Expired | NotYetValid | RequestIdReused | ReplyNotKept | CallerQuota | ShareFull | AdmissionFull

  datatype Verdict = New | Copy(stored: Option<bytes>) | Refused(why: Refusal)

  type Entries = map<Key, Entry>

  function KeyOf(r: Request): Key { Key(r.caller, r.id) }

  // --------------------------------------------------------------- recounting

  /** What the counters count: entries of a caller, entries of a share, reply bytes of a caller, reply bytes in all. */
  datatype Measure = OfCaller(caller: bytes) | OfShare(share: bytes) | BytesOfCaller(caller: bytes) | AllBytes

  function ReplySize(e: Entry): nat { if e.reply.Some? then |e.reply.value| else 0 }

  function Weight(m: Measure, k: Key, e: Entry): nat {
    match m
    case OfCaller(c) => if k.caller == c then 1 else 0
    case OfShare(s) => if e.share == s then 1 else 0
    case BytesOfCaller(c) => if k.caller == c then ReplySize(e) else 0
    case AllBytes => ReplySize(e)
  }

  /** The recount of a measure over all held entries. */
  ghost function Total(m: Measure, es: Entries): nat
    decreases |es|
  {
    if es == map[] then 0
    else
      var k :| k in es;
      assert es - {k} == map q | q in es && q != k :: es[q];
      assert (es - {k}).Keys == es.Keys - {k};
      Weight(m, k, es[k]) + Total(m, es - {k})
  }

  lemma {:induction false} TotalWithout(m: Measure, es: Entries, k: Key)
    requires k in es
    ensures Total(m, es) == Weight(m, k, es[k]) + Total(m, es - {k})
    decreases |es|
  {
    var p :| p in es && Total(m, es) == Weight(m, p, es[p]) + Total(m, es - {p});
    if p != k {
      assert (es - {p}).Keys == es.Keys - {p};
      TotalWithout(m, es - {p}, k);
      assert (es - {k}).Keys == es.Keys - {k};
      TotalWithout(m, es - {k}, p);
      assert es - {p} - {k} == es - {k} - {p};
    }
  }

  lemma {:induction false} TotalWith(m: Measure, es: Entries, k: Key, e: Entry)
    requires k !in es
    ensures Total(m, es[k := e]) == Weight(m, k, e) + Total(m, es)
  {
    TotalWithout(m, es[k := e], k);
    assert es[k := e] - {k} == es;
  }

  lemma {:induction false} TotalUpdate(m: Measure, es: Entries, k: Key, e: Entry)
    requires k in es
    ensures Total(m, es[k := e]) + Weight(m, k, es[k]) == Weight(m, k, e) + Total(m, es)
  {
    TotalWithout(m, es, k);
    TotalWithout(m, es[k := e], k);
    assert es[k := e] - {k} == es - {k};
  }

  // ------------------------------------------------------ the steps, on entries

  function Swept(es: Entries, now: int): Entries {
    map k | k in es && es[k].expiresAt >= now :: es[k]
  }

  ghost function Room(l: Limits, es: Entries, caller: bytes, n: nat): bool {
    Total(BytesOfCaller(caller), es) + n <= l.replyBytes && Total(AllBytes, es) + n <= l.replyBytesTotal
  }

  /** admit's judgement, and the entries after it. */
  ghost function Judge(l: Limits, es: Entries, r: Request, share: bytes, now: int): (Entries, Verdict) {
    if r.deadline < now - DEADLINE_PAST_MS then (es, Refused(Expired))
    else if r.deadline > now + DEADLINE_AHEAD_MS then (es, Refused(NotYetValid))
    else
      var held := Swept(es, now);
      var k := KeyOf(r);
      if k in held then
        if held[k].hash != r.hash then (held, Refused(RequestIdReused))
        else if held[k].answered && held[k].reply.None? then (held, Refused(ReplyNotKept))
        else (held, Copy(held[k].reply))
      else if Total(OfCaller(r.caller), held) >= l.callerQuota then (held, Refused(CallerQuota))
      else if Total(OfShare(share), held) >= l.share then (held, Refused(ShareFull))
      else if |held| >= l.cap then (held, Refused(AdmissionFull))
      else (held[k := Entry(r.hash, r.deadline + KEPT_PAST_MS, share, false, None)], New)
  }

  /** store: the first reply of a held request, kept when the byte bounds leave room for it. */
  ghost function Stored(l: Limits, es: Entries, r: Request, reply: bytes): Entries {
    var k := KeyOf(r);
    if k !in es || es[k].answered || es[k].hash != r.hash then es
    else if Room(l, es, r.caller, |reply|) then es[k := es[k].(answered := true, reply := Some(reply))]
    else es[k := es[k].(answered := true)]
  }

  /** Only an answered request holds a reply. */
  ghost predicate Unanswered(es: Entries) {
    forall k :: k in es && !es[k].answered ==> es[k].reply.None?
  }

  // ------------------------------------------------------------------ tallies

  function At<K>(m: map<K, int>, k: K): int { if k in m then m[k] else 0 }

  /** decrement: takes `n` from a counter, dropping it at zero. */
  function Decrement(m: map<bytes, int>, k: bytes, n: nat): map<bytes, int> {
    if At(m, k) - n <= 0 then m - {k} else m[k := At(m, k) - n]
  }

  function Increment(m: map<bytes, int>, k: bytes, n: nat): map<bytes, int> { m[k := At(m, k) + n] }

  function CallerMeasure(c: bytes): Measure { OfCaller(c) }
  function ShareMeasure(s: bytes): Measure { OfShare(s) }
  function ByteMeasure(c: bytes): Measure { BytesOfCaller(c) }

  /** A counter map is the recount, for every name it could hold, and within its bound. */
  ghost predicate Tally(m: map<bytes, int>, of: bytes -> Measure, es: Entries, bound: nat) {
    forall x: bytes :: At(m, x) == Total(of(x), es) <= bound
  }

  /** An entry weighs `n` under the name `x` and nothing under any other. */
  ghost predicate WeighsOnly(of: bytes -> Measure, k: Key, e: Entry, x: bytes, n: nat) {
    Weight(of(x), k, e) == n && forall y: bytes :: y != x ==> Weight(of(y), k, e) == 0
  }

  lemma Weighs(k: Key, e: Entry)
    ensures WeighsOnly(CallerMeasure, k, e, k.caller, 1)
    ensures WeighsOnly(ShareMeasure, k, e, e.share, 1)
    ensures WeighsOnly(ByteMeasure, k, e, k.caller, ReplySize(e))
  {
  }

  /** Answering a request changes what it weighs only in its caller's reply bytes. */
  ghost predicate Reweighs(of: bytes -> Measure, k: Key, was: Entry, e: Entry, x: bytes, n: nat) {
    forall y: bytes :: Weight(of(y), k, e) == Weight(of(y), k, was) + (if y == x then n else 0)
  }

  lemma AnswerReweighs(k: Key, was: Entry, e: Entry)
    requires e.share == was.share && was.reply.None?
    ensures Reweighs(CallerMeasure, k, was, e, k.caller, 0)
    ensures Reweighs(ShareMeasure, k, was, e, e.share, 0)
    ensures Reweighs(ByteMeasure, k, was, e, k.caller, ReplySize(e))
  {
  }

  lemma TallyDrop(m: map<bytes, int>, of: bytes -> Measure, es: Entries, bound: nat, k: Key, x: bytes, n: nat)
    requires Tally(m, of, es, bound) && k in es && WeighsOnly(of, k, es[k], x, n)
    ensures Tally(Decrement(m, x, n), of, es - {k}, bound)
  {
    forall y: bytes
      ensures At(Decrement(m, x, n), y) == Total(of(y), es - {k}) <= bound
    {
      TotalWithout(of(y), es, k);
    }
  }

  lemma TallyAdd(m: map<bytes, int>, of: bytes -> Measure, es: Entries, bound: nat, k: Key, e: Entry, x: bytes, n: nat)
    requires Tally(m, of, es, bound) && k !in es && WeighsOnly(of, k, e, x, n) && At(m, x) + n <= bound
    ensures Tally(Increment(m, x, n), of, es[k := e], bound)
  {
    forall y: bytes
      ensures At(Increment(m, x, n), y) == Total(of(y), es[k := e]) <= bound
    {
      TotalWith(of(y), es, k, e);
    }
  }

  lemma TallyUpdate(m: map<bytes, int>, of: bytes -> Measure, es: Entries, bound: nat, k: Key, e: Entry, x: bytes,
                    n: nat)
    requires Tally(m, of, es, bound) && k in es && At(m, x) + n <= bound
    requires Reweighs(of, k, es[k], e, x, n)
    ensures Tally(Increment(m, x, n), of, es[k := e], bound)
    ensures n == 0 ==> Tally(m, of, es[k := e], bound)
  {
    forall y: bytes
      ensures At(Increment(m, x, n), y) == Total(of(y), es[k := e]) <= bound
      ensures n == 0 ==> At(m, y) == Total(of(y), es[k := e]) <= bound
    {
      TotalUpdate(of(y), es, k, e);
    }
  }

  lemma NothingDropped(m: map<bytes, int>, of: bytes -> Measure, es: Entries, bound: nat, x: bytes)
    requires Tally(Decrement(m, x, 0), of, es, bound) && At(m, x) >= 0
    ensures Tally(m, of, es, bound)
  {
    forall y: bytes
      ensures At(m, y) == Total(of(y), es) <= bound
    {
      assert At(Decrement(m, x, 0), y) == At(m, y);
    }
  }

  lemma NothingAdded(m: map<bytes, int>, of: bytes -> Measure, es: Entries, bound: nat, x: bytes)
    requires Tally(Increment(m, x, 0), of, es, bound)
    ensures Tally(m, of, es, bound)
  {
    forall y: bytes
      ensures At(m, y) == Total(of(y), es) <= bound
    {
      assert At(Increment(m, x, 0), y) == At(m, y);
    }
  }

  /** The counters beside the entries. */
  datatype Books = Books(callers: map<bytes, int>, shares: map<bytes, int>, replyBytes: map<bytes, int>,
                         replyTotal: int)

  ghost predicate Consistent(l: Limits, es: Entries, b: Books) {
    && Tally(b.callers, CallerMeasure, es, l.callerQuota)
    && Tally(b.shares, ShareMeasure, es, l.share)
    && Tally(b.replyBytes, ByteMeasure, es, l.replyBytes)
    && b.replyTotal == Total(AllBytes, es) <= l.replyBytesTotal
    && |es| <= l.cap
    && Unanswered(es)
  }

  lemma ForgetKeeps(l: Limits, es: Entries, b: Books, k: Key)
    requires Consistent(l, es, b) && k in es
    ensures var n := ReplySize(es[k]);
            var bytesLeft := if es[k].reply.Some? then Decrement(b.replyBytes, k.caller, n) else b.replyBytes;
            Consistent(l, es - {k},
                Books(Decrement(b.callers, k.caller, 1), Decrement(b.shares, es[k].share, 1), bytesLeft,
                    b.replyTotal - n))
  {
    Weighs(k, es[k]);
    TallyDrop(b.callers, CallerMeasure, es, l.callerQuota, k, k.caller, 1);
    TallyDrop(b.shares, ShareMeasure, es, l.share, k, es[k].share, 1);
    TallyDrop(b.replyBytes, ByteMeasure, es, l.replyBytes, k, k.caller, ReplySize(es[k]));
    if es[k].reply.None? {
      NothingDropped(b.replyBytes, ByteMeasure, es - {k}, l.replyBytes, k.caller);
    }
    TotalWithout(AllBytes, es, k);
    assert (es - {k}).Keys == es.Keys - {k};
  }

  lemma HoldKeeps(l: Limits, es: Entries, b: Books, k: Key, e: Entry)
    requires Consistent(l, es, b) && k !in es && e.reply.None?
    requires At(b.callers, k.caller) < l.callerQuota && At(b.shares, e.share) < l.share && |es| < l.cap
    ensures Consistent(l, es[k := e],
                       Books(Increment(b.callers, k.caller, 1), Increment(b.shares, e.share, 1), b.replyBytes,
                           b.replyTotal))
  {
    HoldKeepsCallers(l, es, b, k, e);
    HoldKeepsShares(l, es, b, k, e);
    HoldKeepsBytes(l, es, b, k, e);
    HoldKeepsRest(es, k, e);
  }

  lemma HoldKeepsRest(es: Entries, k: Key, e: Entry)
    requires k !in es && e.reply.None? && Unanswered(es)
    ensures Total(AllBytes, es[k := e]) == Total(AllBytes, es)
    ensures |es[k := e]| == |es| + 1
    ensures Unanswered(es[k := e])
  {
    TotalWith(AllBytes, es, k, e);
    assert es[k := e].Keys == es.Keys + {k};
  }

  lemma HoldKeepsCallers(l: Limits, es: Entries, b: Books, k: Key, e: Entry)
    requires Tally(b.callers, CallerMeasure, es, l.callerQuota) && k !in es && At(b.callers, k.caller) < l.callerQuota
    ensures Tally(Increment(b.callers, k.caller, 1), CallerMeasure, es[k := e], l.callerQuota)
  {
    Weighs(k, e);
    TallyAdd(b.callers, CallerMeasure, es, l.callerQuota, k, e, k.caller, 1);
  }

  lemma HoldKeepsShares(l: Limits, es: Entries, b: Books, k: Key, e: Entry)
    requires Tally(b.shares, ShareMeasure, es, l.share) && k !in es && At(b.shares, e.share) < l.share
    ensures Tally(Increment(b.shares, e.share, 1), ShareMeasure, es[k := e], l.share)
  {
    Weighs(k, e);
    TallyAdd(b.shares, ShareMeasure, es, l.share, k, e, e.share, 1);
  }

  lemma HoldKeepsBytes(l: Limits, es: Entries, b: Books, k: Key, e: Entry)
    requires Tally(b.replyBytes, ByteMeasure, es, l.replyBytes) && k !in es && e.reply.None?
    ensures Tally(b.replyBytes, ByteMeasure, es[k := e], l.replyBytes)
  {
    Weighs(k, e);
    assert At(b.replyBytes, k.caller) == Total(ByteMeasure(k.caller), es);
    TallyAdd(b.replyBytes, ByteMeasure, es, l.replyBytes, k, e, k.caller, 0);
    NothingAdded(b.replyBytes, ByteMeasure, es[k := e], l.replyBytes, k.caller);
  }

  lemma AnswerKeeps(l: Limits, es: Entries, b: Books, k: Key, reply: Option<bytes>)
    requires Consistent(l, es, b) && k in es && !es[k].answered
    requires reply.Some? ==>
               At(b.replyBytes, k.caller) + |reply.value| <= l.replyBytes
                   && b.replyTotal + |reply.value| <= l.replyBytesTotal
    ensures var n := if reply.Some? then |reply.value| else 0;
            var held := if reply.Some? then Increment(b.replyBytes, k.caller, n) else b.replyBytes;
            Consistent(l, es[k := es[k].(answered := true, reply := reply)],
                b.(replyBytes := held, replyTotal := b.replyTotal + n))
  {
    var e := es[k].(answered := true, reply := reply);
    var n := if reply.Some? then |reply.value| else 0;
    assert At(b.replyBytes, k.caller) == Total(ByteMeasure(k.caller), es);
    assert At(b.callers, k.caller) == Total(CallerMeasure(k.caller), es);
    assert At(b.shares, e.share) == Total(ShareMeasure(e.share), es);
    AnswerReweighs(k, es[k], e);
    TallyUpdate(b.callers, CallerMeasure, es, l.callerQuota, k, e, k.caller, 0);
    TallyUpdate(b.shares, ShareMeasure, es, l.share, k, e, e.share, 0);
    TallyUpdate(b.replyBytes, ByteMeasure, es, l.replyBytes, k, e, k.caller, n);
    TotalUpdate(AllBytes, es, k, e);
    assert es[k := e].Keys == es.Keys;
  }

  // ---------------------------------------------------------------- the store

  class Admission {
    const limits: Limits
    var entries: Entries
    var callers: map<bytes, int>
    var shares: map<bytes, int>
    var replyBytes: map<bytes, int>
    var replyTotal: int

    /** Every counter is the recount of the held entries, and every bound holds. */
    ghost predicate Valid()
      reads this
    {
      Consistent(limits, entries, Books(callers, shares, replyBytes, replyTotal))
    }

    constructor (l: Limits)
      ensures Valid() && entries == map[] && limits == l
    {
      limits := l;
      entries, callers, shares, replyBytes, replyTotal := map[], map[], map[], map[], 0;
    }

    /** Removing one entry, its counters with it. */
    method Forget(k: Key)
      requires Valid() && k in entries
      modifies this
      ensures Valid() && entries == old(entries) - {k}
    {
      var e := entries[k];
      ForgetKeeps(limits, entries, Books(callers, shares, replyBytes, replyTotal), k);
      entries := entries - {k};
      callers := Decrement(callers, k.caller, 1);
      shares := Decrement(shares, e.share, 1);
      if e.reply.Some? {
        replyBytes := Decrement(replyBytes, k.caller, |e.reply.value|);
        replyTotal := replyTotal - |e.reply.value|;
      }
    }

    /** sweep: the loop over the held entries, in any order, deleting what expired. */
    method Sweep(now: int)
      requires Valid()
      modifies this
      ensures Valid() && entries == Swept(old(entries), now)
    {
      var todo := entries.Keys;
      while todo != {}
        invariant Valid() && todo <= entries.Keys <= old(entries).Keys
        invariant forall k :: k in entries ==> entries[k] == old(entries)[k]
        invariant forall k :: k in old(entries) ==> (k in entries <==> k in todo || old(entries)[k].expiresAt >= now)
        decreases |todo|
      {
        var k :| k in todo;
        todo := todo - {k};
        if entries[k].expiresAt < now {
          Forget(k);
        }
      }
      assert entries.Keys == Swept(old(entries), now).Keys;
    }

    method Admit(r: Request, share: bytes, now: int) returns (v: Verdict)
      requires Valid()
      modifies this
      ensures Valid()
      ensures (entries, v) == Judge(limits, old(entries), r, share, now)
    {
      if r.deadline < now - DEADLINE_PAST_MS {
        return Refused(Expired);
      }
      if r.deadline > now + DEADLINE_AHEAD_MS {
        return Refused(NotYetValid);
      }
      Sweep(now);
      var k := KeyOf(r);
      if k in entries {
        var e := entries[k];
        if e.hash != r.hash {
          return Refused(RequestIdReused);
        }
        if e.answered && e.reply.None? {
          return Refused(ReplyNotKept);
        }
        return Copy(e.reply);
      }
      assert At(callers, r.caller) == Total(CallerMeasure(r.caller), entries);
      assert At(shares, share) == Total(ShareMeasure(share), entries);
      if At(callers, r.caller) >= limits.callerQuota {
        return Refused(CallerQuota);
      }
      if At(shares, share) >= limits.share {
        return Refused(ShareFull);
      }
      if |entries| >= limits.cap {
        return Refused(AdmissionFull);
      }
      Hold(k, Entry(r.hash, r.deadline + KEPT_PAST_MS, share, false, None));
      return New;
    }

    /** Holding one more request, its counters with it. */
    method Hold(k: Key, e: Entry)
      requires Valid() && k !in entries && e.reply.None?
      requires At(callers, k.caller) < limits.callerQuota && At(shares, e.share) < limits.share
      requires |entries| < limits.cap
      modifies this
      ensures Valid() && entries == old(entries)[k := e]
    {
      HoldKeeps(limits, entries, Books(callers, shares, replyBytes, replyTotal), k, e);
      entries := entries[k := e];
      callers := Increment(callers, k.caller, 1);
      shares := Increment(shares, e.share, 1);
    }

    method Store(r: Request, reply: bytes)
      requires Valid()
      modifies this
      ensures Valid()
      ensures entries == Stored(limits, old(entries), r, reply)
    {
      var k := KeyOf(r);
      if k !in entries || entries[k].answered || entries[k].hash != r.hash {
        return;
      }
      assert At(replyBytes, r.caller) == Total(ByteMeasure(r.caller), entries);
      if At(replyBytes, r.caller) + |reply| > limits.replyBytes || replyTotal + |reply| > limits.replyBytesTotal {
        Answer(k, None);
        return;
      }
      Answer(k, Some(reply));
    }

    /** Answering a held request, keeping the reply when there is one to keep. */
    method Answer(k: Key, reply: Option<bytes>)
      requires Valid() && k in entries && !entries[k].answered
      requires reply.Some? ==>
                 At(replyBytes, k.caller) + |reply.value| <= limits.replyBytes
                     && replyTotal + |reply.value| <= limits.replyBytesTotal
      modifies this
      ensures Valid() && entries == old(entries)[k := old(entries)[k].(answered := true, reply := reply)]
    {
      AnswerKeeps(limits, entries, Books(callers, shares, replyBytes, replyTotal), k, reply);
      entries := entries[k := entries[k].(answered := true, reply := reply)];
      if reply.Some? {
        replyBytes := Increment(replyBytes, k.caller, |reply.value|);
        replyTotal := replyTotal + |reply.value|;
      }
    }
  }

  // --------------------------------------------------------------- whole runs

  /** What happens to an admission: a request arrives on a share at a time, or an admitted request's reply comes. */
  datatype Event = Arrives(r: Request, share: bytes, now: int) | Replies(r: Request, reply: bytes)

  ghost function Step(l: Limits, es: Entries, e: Event): Entries {
    match e
    case Arrives(r, share, now) => Judge(l, es, r, share, now).0
    case Replies(r, reply) => Stored(l, es, r, reply)
  }

  /** The entries after the first `t` steps. */
  ghost function After(l: Limits, run: seq<Event>, t: nat): Entries
    requires t <= |run|
  {
    if t == 0 then map[] else Step(l, After(l, run, t - 1), run[t - 1])
  }

  ghost function VerdictAt(l: Limits, run: seq<Event>, i: nat): Verdict
    requires i < |run| && run[i].Arrives?
  {
    Judge(l, After(l, run, i), run[i].r, run[i].share, run[i].now).1
  }

  /** The clock's readings never step back, in the order in which the arrivals take the lock. */
  ghost predicate Forward(run: seq<Event>) {
    forall i, j :: 0 <= i <= j < |run| && run[i].Arrives? && run[j].Arrives? ==> run[i].now <= run[j].now
  }

  predicate InWindow(r: Request, now: int) {
    now - DEADLINE_PAST_MS <= r.deadline <= now + DEADLINE_AHEAD_MS
  }

  /** An arrival that reaches the sweep, its own deadline being in its window, at a reading past `until`. */
  predicate Sweeps(e: Event, until: int) { e.Arrives? && InWindow(e.r, e.now) && e.now > until }

  /** Whether such an arrival, past the expiry of the request admitted at `i`, came since, up to `t`. */
  ghost predicate SweptBetween(run: seq<Event>, i: nat, t: nat)
    requires i < t <= |run| && run[i].Arrives?
  {
    exists q :: i < q < t && Sweeps(run[q], run[i].r.deadline + KEPT_PAST_MS)
  }

  /** Whether the caller and id of the request admitted at `i` were judged new since, up to `t`. */
  ghost predicate NewBetween(l: Limits, run: seq<Event>, i: nat, t: nat)
    requires i < t <= |run| && run[i].Arrives?
  {
    exists q :: i < q < t && run[q].Arrives? && KeyOf(run[q].r) == KeyOf(run[i].r) && VerdictAt(l, run, q) == New
  }

  lemma SweptBetweenStep(run: seq<Event>, i: nat, t: nat)
    requires i < t < |run| && run[i].Arrives?
    ensures SweptBetween(run, i, t + 1) <==>
              SweptBetween(run, i, t) || Sweeps(run[t], run[i].r.deadline + KEPT_PAST_MS)
  {
    if SweptBetween(run, i, t) {
      var q :| i < q < t && Sweeps(run[q], run[i].r.deadline + KEPT_PAST_MS);
      assert i < q < t + 1;
    }
  }

  lemma NoNewBetween(l: Limits, run: seq<Event>, i: nat, t: nat)
    requires i < t < |run| && run[i].Arrives? && !NewBetween(l, run, i, t + 1)
    ensures !NewBetween(l, run, i, t)
    ensures run[t].Arrives? && KeyOf(run[t].r) == KeyOf(run[i].r) ==> VerdictAt(l, run, t) != New
  {
  }

  ghost predicate IsReply(e: Event, r: Request) {
    e.Replies? && KeyOf(e.r) == KeyOf(r) && e.r.hash == r.hash
  }

  ghost predicate Replied(run: seq<Event>, r: Request, from: nat, t: nat)
    requires t <= |run|
  {
    exists s :: from <= s < t && IsReply(run[s], r)
  }

  /** The entry a request admitted at step `i` has after `t` steps: its hash and expiry never change, and it holds
      the first reply that came for it, if there was room for that reply when it came. */
  ghost function EntryAfter(l: Limits, run: seq<Event>, i: nat, t: nat): Entry
    requires i < t <= |run| && run[i].Arrives?
  {
    var r := run[i].r;
    if Replied(run, r, i + 1, t)
    then Entry(r.hash, r.deadline + KEPT_PAST_MS, run[i].share, true, KeptReply(l, run, FirstReply(run, r, i + 1, t)))
    else Entry(r.hash, r.deadline + KEPT_PAST_MS, run[i].share, false, None)
  }

  ghost predicate HoldsEntry(es: Entries, k: Key, e: Entry) { k in es && es[k] == e }

  /** The first reply for `r` from step `from` on. */
  ghost function FirstReply(run: seq<Event>, r: Request, from: nat, t: nat): (s: nat)
    requires t <= |run| && Replied(run, r, from, t)
    ensures from <= s < t && IsReply(run[s], r)
    ensures forall q :: from <= q < s ==> !IsReply(run[q], r)
    decreases t - from
  {
    if IsReply(run[from], r) then from else FirstReply(run, r, from + 1, t)
  }

  /** What a reply at step `s` leaves for copies: itself, when the byte bounds had room for it. */
  ghost function KeptReply(l: Limits, run: seq<Event>, s: nat): Option<bytes>
    requires s < |run| && run[s].Replies?
  {
    if Room(l, After(l, run, s), run[s].r.caller, |run[s].reply|) then Some(run[s].reply) else None
  }

  /** One step on a held entry: no sweep past its life keeps it, and only its first reply changes it. */
  lemma StepOnHeld(l: Limits, es: Entries, step: Event, k: Key, e: Entry)
    requires HoldsEntry(es, k, e) && !Sweeps(step, e.expiresAt)
    ensures HoldsEntry(Step(l, es, step), k,
              if step.Replies? && KeyOf(step.r) == k && step.r.hash == e.hash && !e.answered
              then e.(answered := true,
                      reply := if Room(l, es, k.caller, |step.reply|) then Some(step.reply) else e.reply)
              else e)
  {
  }

  lemma {:induction false} FirstReplyExtends(run: seq<Event>, r: Request, from: nat, t: nat)
    requires t < |run| && Replied(run, r, from, t)
    ensures Replied(run, r, from, t + 1) && FirstReply(run, r, from, t + 1) == FirstReply(run, r, from, t)
  {
    var a := FirstReply(run, r, from, t);
    assert Replied(run, r, from, t + 1);
    var b := FirstReply(run, r, from, t + 1);
  }

  lemma EntryAfterFresh(l: Limits, run: seq<Event>, i: nat, t: nat)
    requires i < t <= |run| && run[i].Arrives?
    ensures var e := EntryAfter(l, run, i, t);
            e.hash == run[i].r.hash && e.expiresAt == run[i].r.deadline + KEPT_PAST_MS
                && (!e.answered ==> e.reply.None?)
  {
  }

  /** What one more step does to that entry: nothing, unless it is the first reply. */
  lemma {:induction false} EntryAfterStep(l: Limits, run: seq<Event>, i: nat, t: nat)
    requires i < t < |run| && run[i].Arrives?
    ensures var r := run[i].r;
            EntryAfter(l, run, i, t + 1) ==
              if IsReply(run[t], r) && !EntryAfter(l, run, i, t).answered
              then EntryAfter(l, run, i, t).(answered := true, reply := KeptReply(l, run, t))
              else EntryAfter(l, run, i, t)
  {
    var r := run[i].r;
    if Replied(run, r, i + 1, t) {
      FirstReplyExtends(run, r, i + 1, t);
    } else if IsReply(run[t], r) {
      assert Replied(run, r, i + 1, t + 1);
      assert FirstReply(run, r, i + 1, t + 1) == t;
    } else {
      assert !Replied(run, r, i + 1, t + 1);
    }
  }

  /** An admitted request is held, with its first reply, until an arrival sweeps at a reading past its expiry. */
  lemma {:induction false} HeldUntilSwept(l: Limits, run: seq<Event>, i: nat, t: nat)
    requires i < t <= |run| && run[i].Arrives? && VerdictAt(l, run, i) == New && !SweptBetween(run, i, t)
    ensures HoldsEntry(After(l, run, t), KeyOf(run[i].r), EntryAfter(l, run, i, t))
  {
    HeldFrom(l, run, i, After(l, run, i), After(l, run, i + 1));
    StaysHeld(l, run, i, t);
  }

  lemma {:induction false} StaysHeld(l: Limits, run: seq<Event>, i: nat, t: nat)
    requires i < t <= |run| && run[i].Arrives? && !SweptBetween(run, i, t)
    requires HoldsEntry(After(l, run, i + 1), KeyOf(run[i].r), EntryAfter(l, run, i, i + 1))
    ensures HoldsEntry(After(l, run, t), KeyOf(run[i].r), EntryAfter(l, run, i, t))
    decreases t
  {
    if t > i + 1 {
      SweptBetweenStep(run, i, t - 1);
      StaysHeld(l, run, i, t - 1);
      HeldOn(l, run, i, t - 1, After(l, run, t - 1), After(l, run, t));
    }
  }

  lemma NewIsHeld(l: Limits, es: Entries, r: Request, share: bytes, now: int)
    requires Judge(l, es, r, share, now).1 == New
    ensures HoldsEntry(Judge(l, es, r, share, now).0, KeyOf(r),
                       Entry(r.hash, r.deadline + KEPT_PAST_MS, share, false, None))
  {
  }

  lemma {:induction false} HeldFrom(l: Limits, run: seq<Event>, i: nat, es: Entries, next: Entries)
    requires i < |run| && run[i].Arrives? && VerdictAt(l, run, i) == New
    requires es == After(l, run, i) && next == After(l, run, i + 1)
    ensures HoldsEntry(next, KeyOf(run[i].r), EntryAfter(l, run, i, i + 1))
  {
    NewIsHeld(l, es, run[i].r, run[i].share, run[i].now);
    assert !Replied(run, run[i].r, i + 1, i + 1);
  }

  lemma {:induction false} HeldOn(l: Limits, run: seq<Event>, i: nat, t: nat, es: Entries, next: Entries)
    requires i < t < |run| && run[i].Arrives? && es == After(l, run, t) && next == After(l, run, t + 1)
    requires HoldsEntry(es, KeyOf(run[i].r), EntryAfter(l, run, i, t))
    requires !Sweeps(run[t], run[i].r.deadline + KEPT_PAST_MS)
    ensures HoldsEntry(next, KeyOf(run[i].r), EntryAfter(l, run, i, t + 1))
  {
    EntryAfterStep(l, run, i, t);
    EntryAfterFresh(l, run, i, t);
    StepOnHeld(l, es, run[t], KeyOf(run[i].r), EntryAfter(l, run, i, t));
  }

  /** One step that does not admit a key: it stays unheld, and a sweep past its entry's expiry removes it. */
  lemma StepOnGone(l: Limits, es: Entries, step: Event, k: Key)
    requires k !in es || Sweeps(step, es[k].expiresAt)
    requires step.Arrives? && KeyOf(step.r) == k ==> Judge(l, es, step.r, step.share, step.now).1 != New
    ensures k !in Step(l, es, step)
  {
  }

  lemma {:induction false} HeldExpiry(l: Limits, run: seq<Event>, i: nat, t: nat)
    requires i < t <= |run| && run[i].Arrives? && VerdictAt(l, run, i) == New && !SweptBetween(run, i, t)
    ensures var es := After(l, run, t);
            KeyOf(run[i].r) in es && es[KeyOf(run[i].r)].expiresAt == run[i].r.deadline + KEPT_PAST_MS
  {
    HeldUntilSwept(l, run, i, t);
    EntryAfterFresh(l, run, i, t);
  }

  lemma {:induction false} GoneOn(l: Limits, run: seq<Event>, t: nat, k: Key, es: Entries)
    requires t < |run| && es == After(l, run, t) && (k !in es || Sweeps(run[t], es[k].expiresAt))
    requires run[t].Arrives? && KeyOf(run[t].r) == k ==> VerdictAt(l, run, t) != New
    ensures k !in After(l, run, t + 1)
  {
    StepOnGone(l, es, run[t], k);
  }

  /** After such a sweep it is not held, until its caller and id are admitted again. */
  lemma {:induction false} GoneOnceSwept(l: Limits, run: seq<Event>, i: nat, t: nat)
    requires i < t <= |run| && run[i].Arrives? && VerdictAt(l, run, i) == New
    requires SweptBetween(run, i, t) && !NewBetween(l, run, i, t)
    ensures KeyOf(run[i].r) !in After(l, run, t)
    decreases t
  {
    var q := t - 1;
    SweptBetweenStep(run, i, q);
    NoNewBetween(l, run, i, q);
    if SweptBetween(run, i, q) {
      GoneOnceSwept(l, run, i, q);
    } else {
      HeldExpiry(l, run, i, q);
    }
    GoneOn(l, run, q, KeyOf(run[i].r), After(l, run, q));
  }

  /** What arrives is read from signed bytes: its hash is theirs, and its deadline is in them. */
  ghost predicate Carries(run: seq<Event>, signed: seq<bytes>, sha: bytes -> bytes, deadlineIn: bytes -> int) {
    && |signed| == |run|
    && forall t :: 0 <= t < |run| && run[t].Arrives? ==>
        run[t].r.hash == sha(signed[t]) && run[t].r.deadline == deadlineIn(signed[t])
  }

  /** What a copy at `j` is told of a request admitted at `i` and still held: that it runs, or exactly what its first
      reply left. */
  ghost function HeldVerdict(l: Limits, run: seq<Event>, i: nat, j: nat): Verdict
    requires i < j < |run| && run[j].Arrives?
  {
    var r := run[j].r;
    if !Replied(run, r, i + 1, j) then Copy(None)
    else
      match KeptReply(l, run, FirstReply(run, r, i + 1, j))
      case Some(reply) => Copy(Some(reply))
      case None => Refused(ReplyNotKept)
  }

  ghost predicate HasRoom(l: Limits, held: Entries, caller: bytes, share: bytes) {
    Total(OfCaller(caller), held) < l.callerQuota && Total(OfShare(share), held) < l.share && |held| < l.cap
  }

  /** A key that is not held is judged by its window and the room alone. */
  lemma UnheldIsNewIff(l: Limits, es: Entries, r: Request, share: bytes, now: int)
    requires KeyOf(r) !in es
    ensures Judge(l, es, r, share, now).1 == New <==> InWindow(r, now) && HasRoom(l, Swept(es, now), r.caller, share)
  {
  }

  lemma HeldIsTold(l: Limits, run: seq<Event>, i: nat, j: nat, es: Entries)
    requires i < j < |run| && run[i].Arrives? && run[j].Arrives? && run[j].r == run[i].r
    requires InWindow(run[j].r, run[j].now)
    requires es == After(l, run, j) && HoldsEntry(es, KeyOf(run[i].r), EntryAfter(l, run, i, j))
    ensures VerdictAt(l, run, j) == HeldVerdict(l, run, i, j)
  {
    assert KeyOf(run[j].r) in Swept(es, run[j].now);
  }

  /** When a request runs again. In every run, whatever the readings and their order, a copy at `j` of a request
      admitted at `i`, with none admitted in between, is new exactly when it is in its window, an arrival between them
      swept at a reading past the request's expiry, and there is room; a copy in its window with no such sweep before
      it is given exactly what the first reply left, or told that it still runs or was not kept. */
  lemma {:induction false} NewAgainIff(l: Limits, run: seq<Event>, i: nat, j: nat)
    requires i < j < |run| && run[i].Arrives? && run[j].Arrives? && run[j].r == run[i].r
    requires VerdictAt(l, run, i) == New && !NewBetween(l, run, i, j)
    ensures VerdictAt(l, run, j) == New <==>
              && InWindow(run[j].r, run[j].now) && SweptBetween(run, i, j)
              && HasRoom(l, Swept(After(l, run, j), run[j].now), run[j].r.caller, run[j].share)
    ensures InWindow(run[j].r, run[j].now) && !SweptBetween(run, i, j) ==>
              VerdictAt(l, run, j) == HeldVerdict(l, run, i, j)
  {
    var es := After(l, run, j);
    if SweptBetween(run, i, j) {
      GoneOnceSwept(l, run, i, j);
      UnheldIsNewIff(l, es, run[j].r, run[j].share, run[j].now);
    } else if InWindow(run[j].r, run[j].now) {
      HeldUntilSwept(l, run, i, j);
      HeldIsTold(l, run, i, j, es);
    }
  }

  /** With no sweep past its expiry, its caller and id are not admitted again. */
  lemma {:induction false} NotNewUnlessSwept(l: Limits, run: seq<Event>, i: nat, t: nat)
    requires i < t <= |run| && run[i].Arrives? && VerdictAt(l, run, i) == New && !SweptBetween(run, i, t)
    ensures !NewBetween(l, run, i, t)
  {
    forall q | i < q < t && run[q].Arrives? && KeyOf(run[q].r) == KeyOf(run[i].r)
      ensures VerdictAt(l, run, q) != New
    {
      assert !Sweeps(run[q], run[i].r.deadline + KEPT_PAST_MS);
      assert !SweptBetween(run, i, q);
      HeldExpiry(l, run, i, q);
    }
  }

  /** So a request that runs twice had such a sweep in between, whatever else was admitted. */
  lemma {:induction false} TwiceMeansSwept(l: Limits, run: seq<Event>, i: nat, j: nat)
    requires i < j < |run| && run[i].Arrives? && run[j].Arrives? && run[j].r == run[i].r
    requires VerdictAt(l, run, i) == New && VerdictAt(l, run, j) == New
    ensures SweptBetween(run, i, j)
  {
    assert NewBetween(l, run, i, j + 1);
    SweptBetweenStep(run, i, j);
    if !SweptBetween(run, i, j + 1) {
      NotNewUnlessSwept(l, run, i, j + 1);
    }
  }

  lemma {:induction false} CopyIsTold(l: Limits, run: seq<Event>, i: nat, j: nat)
    requires i < j < |run| && run[i].Arrives? && run[j].Arrives? && Forward(run)
    requires run[j].r == run[i].r && VerdictAt(l, run, i) == New
    ensures VerdictAt(l, run, j) ==
              if run[j].r.deadline < run[j].now - DEADLINE_PAST_MS then Refused(Expired) else HeldVerdict(l, run, i, j)
  {
    assert run[i].now <= run[j].now;
    if run[j].r.deadline >= run[j].now - DEADLINE_PAST_MS {
      assert !SweptBetween(run, i, j);
      NotNewUnlessSwept(l, run, i, j);
      NewAgainIff(l, run, i, j);
    }
  }

  /** A request runs once where arrivals take the lock in the order of their readings. Over every such run, a request
      judged new is never judged new again, even after its entry was swept: a copy still in time finds it, and is
      given exactly what the first reply left, or told that it still runs or was not kept. A copy out of time is
      refused as expired. Requests are the same when caller, id and hash are; or else here are two signed requests
      with one hash. */
  lemma {:induction false} AdmittedOnce(l: Limits, run: seq<Event>, i: nat, j: nat,
                                        signed: seq<bytes>, sha: bytes -> bytes, deadlineIn: bytes -> int)
    requires i < j < |run| && run[i].Arrives? && run[j].Arrives? && Forward(run)
    requires Carries(run, signed, sha, deadlineIn)
    requires KeyOf(run[j].r) == KeyOf(run[i].r) && run[j].r.hash == run[i].r.hash && VerdictAt(l, run, i) == New
    ensures || Collision(sha, signed[i], signed[j])
            || (&& VerdictAt(l, run, j) != New
                && VerdictAt(l, run, j) ==
                     if run[j].r.deadline < run[j].now - DEADLINE_PAST_MS then Refused(Expired)
                     else HeldVerdict(l, run, i, j))
  {
    if signed[i] == signed[j] {
      assert run[i].r == run[j].r;
      CopyIsTold(l, run, i, j);
    }
  }

  lemma {:induction false} CountAtMost(m: Measure, es: Entries)
    requires m.OfCaller? || m.OfShare?
    ensures Total(m, es) <= |es|
    decreases |es|
  {
    if es != map[] {
      var k :| k in es;
      TotalWithout(m, es, k);
      assert (es - {k}).Keys == es.Keys - {k};
      CountAtMost(m, es - {k});
    }
  }

  lemma NewWhereRoom(l: Limits, es: Entries, r: Request, share: bytes, now: int)
    requires InWindow(r, now) && KeyOf(r) !in Swept(es, now)
    requires |Swept(es, now)| < l.callerQuota && |Swept(es, now)| < l.share && |Swept(es, now)| < l.cap
    ensures Judge(l, es, r, share, now).1 == New
    ensures Judge(l, es, r, share, now).0 ==
              Swept(es, now)[KeyOf(r) := Entry(r.hash, r.deadline + KEPT_PAST_MS, share, false, None)]
  {
    CountAtMost(OfCaller(r.caller), Swept(es, now));
    CountAtMost(OfShare(share), Swept(es, now));
  }

  lemma SweptIsNewAgain(l: Limits, p: Request, o: Request, share: bytes, other: bytes, one: Entries, two: Entries)
    requires KeyOf(o) != KeyOf(p) && o.deadline == p.deadline + KEPT_PAST_MS + 1
    requires l.callerQuota >= 2 && l.share >= 2 && l.cap >= 2
    requires one == map[KeyOf(p) := Entry(p.hash, p.deadline + KEPT_PAST_MS, share, false, None)]
    requires two == Judge(l, one, o, other, p.deadline + KEPT_PAST_MS + 1).0
    ensures Judge(l, two, p, share, p.deadline + KEPT_PAST_MS).1 == New
  {
    assert Swept(one, p.deadline + KEPT_PAST_MS + 1) == map[];
    NewWhereRoom(l, one, o, other, p.deadline + KEPT_PAST_MS + 1);
    assert two == map[KeyOf(o) := Entry(o.hash, o.deadline + KEPT_PAST_MS, other, false, None)];
    assert Swept(two, p.deadline + KEPT_PAST_MS) == two;
    NewWhereRoom(l, two, p, share, p.deadline + KEPT_PAST_MS);
  }

  /** Across links it can run twice: each reads the clock before it takes the lock, so one that read a millisecond
      later may sweep first. */
  lemma AdmittedTwiceAcrossLinks(l: Limits, p: Request, o: Request, share: bytes, other: bytes, run: seq<Event>)
    requires KeyOf(o) != KeyOf(p) && o.deadline == p.deadline + KEPT_PAST_MS + 1
    requires l.callerQuota >= 2 && l.share >= 2 && l.cap >= 2
    requires run == [Arrives(p, share, p.deadline), Arrives(o, other, p.deadline + KEPT_PAST_MS + 1),
                     Arrives(p, share, p.deadline + KEPT_PAST_MS)]
    ensures VerdictAt(l, run, 0) == New && VerdictAt(l, run, 2) == New
  {
    var e := Entry(p.hash, p.deadline + KEPT_PAST_MS, share, false, None);
    NewWhereRoom(l, map[], p, share, p.deadline);
    assert After(l, run, 1) == Judge(l, map[], p, share, p.deadline).0 == map[KeyOf(p) := e];
    assert After(l, run, 2) == Judge(l, map[KeyOf(p) := e], o, other, p.deadline + KEPT_PAST_MS + 1).0;
    SweptIsNewAgain(l, p, o, share, other, map[KeyOf(p) := e], After(l, run, 2));
  }
}
