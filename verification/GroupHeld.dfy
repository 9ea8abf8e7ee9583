/** A joined group: its policy, its epochs, and the budget of pulls each publisher may cause. */
module GroupHeld {
  import opened Bytes
  import opened Sorting
  import opened GroupEpoch

  const FIRST_BACKOFF_MS := 1_000
  const UNKNOWN_IDS_PER_PUBLISHER := 3

  type Node = b: bytes | |b| == 32 witness seq(32, _ => 0)

  datatype Policy = Unset | Off | Preferred | Required

  datatype Pin = NoPin | ByUser(node: Node) | Found(node: Node)

  datatype Budget = Budget(since: int, count: nat)

  datatype Group = Group(
    pin: Pin, policy: Policy, epochs: seq<Epoch>, rotation: int, unknown: map<Id, int>, budget: map<Node, Budget>,
    backoff: int, wake: nat)

  /** What ParseReply gives: a policy, and at least one epoch, each with epochOf's times. */
  datatype Reply = Reply(policy: Policy, epochs: seq<Epoch>)

  predicate Parsed(r: Reply) {
    r.policy != Unset && r.epochs != [] && forall i :: 0 <= i < |r.epochs| ==> ReadsAs(r.epochs[i])
  }

  function NewGroup(pin: Pin): Group { Group(pin, Unset, [], 0, map[], map[], FIRST_BACKOFF_MS, 0) }

  // ------------------------------------------------------------------- merge

  predicate IssuedBefore(a: Epoch, b: Epoch) { a.issuedAt < b.issuedAt }

  predicate HasId(held: seq<Epoch>, id: Id) { exists i :: 0 <= i < |held| && held[i].id == id }

  predicate DistinctIds(held: seq<Epoch>) { forall i, j :: 0 <= i < j < |held| ==> held[i].id != held[j].id }

  function AddMissing(held: seq<Epoch>, es: seq<Epoch>): seq<Epoch>
    decreases |es|
  {
    if es == [] then held
    else AddMissing(if HasId(held, es[0].id) then held else held + [es[0]], es[1..])
  }

  function MergedPolicy(p: Policy, answered: Policy): Policy {
    if answered != Off || (p != Preferred && p != Required) then answered else p
  }

  function Merged(g: Group, r: Reply): Group
    requires r.epochs != []
  {
    g.(policy := MergedPolicy(g.policy, r.policy),
       rotation := r.epochs[0].publishUntil - r.epochs[0].issuedAt,
       epochs := Sort(IssuedBefore, AddMissing(g.epochs, r.epochs)))
  }

  /** What every held list of epochs is: one per id, by issue time, each with an epoch's times. */
  ghost predicate Orderly(held: seq<Epoch>) {
    DistinctIds(held) && Sorted(IssuedBefore, held) && forall i :: 0 <= i < |held| ==> ReadsAs(held[i])
  }

  lemma {:induction false} AddMissingKeeps(held: seq<Epoch>, es: seq<Epoch>)
    requires DistinctIds(held) && forall i :: 0 <= i < |held| ==> ReadsAs(held[i])
    requires forall i :: 0 <= i < |es| ==> ReadsAs(es[i])
    ensures DistinctIds(AddMissing(held, es))
    ensures forall i :: 0 <= i < |AddMissing(held, es)| ==> ReadsAs(AddMissing(held, es)[i])
    ensures forall e :: e in held ==> e in AddMissing(held, es)
    ensures forall e :: e in AddMissing(held, es) ==> e in held || e in es
    ensures forall i :: 0 <= i < |es| ==> HasId(AddMissing(held, es), es[i].id)
    decreases |es|
  {
    if es != [] {
      var more := if HasId(held, es[0].id) then held else held + [es[0]];
      AddMissingKeeps(more, es[1..]);
      var k :| 0 <= k < |more| && more[k].id == es[0].id;
      assert more[k] in AddMissing(held, es);
      assert es == [es[0]] + es[1..];
    }
  }

  lemma {:induction false} InsertDistinct(x: Epoch, xs: seq<Epoch>)
    requires DistinctIds(xs) && !HasId(xs, x.id)
    ensures DistinctIds(Insert(IssuedBefore, x, xs))
    ensures forall id :: HasId(Insert(IssuedBefore, x, xs), id) ==> id == x.id || HasId(xs, id)
  {
    if xs != [] && IssuedBefore(xs[0], x) {
      var t := Insert(IssuedBefore, x, xs[1..]);
      InsertDistinct(x, xs[1..]);
      assert !HasId(xs[1..], xs[0].id);
      assert !HasId(t, xs[0].id);
      forall id | HasId([xs[0]] + t, id)
        ensures id == x.id || HasId(xs, id)
      {
        assert id == xs[0].id || HasId(t, id);
        assert HasId(xs[1..], id) ==> HasId(xs, id);
      }
    } else {
      forall id | HasId([x] + xs, id)
        ensures id == x.id || HasId(xs, id)
      {
        var k :| 0 <= k < |[x] + xs| && ([x] + xs)[k].id == id;
        assert k > 0 ==> xs[k - 1].id == id;
      }
    }
  }

  lemma {:induction false} SortDistinct(xs: seq<Epoch>)
    requires DistinctIds(xs)
    ensures DistinctIds(Sort(IssuedBefore, xs))
    ensures forall id :: HasId(Sort(IssuedBefore, xs), id) ==> HasId(xs, id)
  {
    if xs != [] {
      SortDistinct(xs[1..]);
      assert !HasId(xs[1..], xs[0].id);
      assert forall id :: HasId(xs[1..], id) ==> HasId(xs, id);
      InsertDistinct(xs[0], Sort(IssuedBefore, xs[1..]));
    }
  }

  /** merge keeps the held epochs orderly, loses none of them, takes in nothing but the reply's, and holds every id
      the reply named. */
  lemma {:induction false} MergeOrderly(held: seq<Epoch>, es: seq<Epoch>)
    requires Orderly(held) && forall i :: 0 <= i < |es| ==> ReadsAs(es[i])
    ensures var merged := Sort(IssuedBefore, AddMissing(held, es));
            && Orderly(merged)
            && (forall e :: e in held ==> e in merged) && (forall e :: e in merged ==> e in held || e in es)
            && (forall i :: 0 <= i < |es| ==> HasId(merged, es[i].id))
  {
    var all := AddMissing(held, es);
    var merged := Sort(IssuedBefore, all);
    AddMissingKeeps(held, es);
    SortDistinct(all);
    SortSorted(IssuedBefore, all);
    forall e
      ensures e in merged <==> e in all
    {
      SortMember(IssuedBefore, all, e);
    }
    forall i | 0 <= i < |es|
      ensures HasId(merged, es[i].id)
    {
      var k :| 0 <= k < |all| && all[k].id == es[i].id;
      assert all[k] in merged;
    }
    forall i | 0 <= i < |merged|
      ensures ReadsAs(merged[i])
    {
      assert merged[i] in all;
    }
  }

  lemma {:induction false} LiveOrderly(held: seq<Epoch>, now: int)
    requires Orderly(held)
    ensures Orderly(Live(held, now))
  {
    if held != [] {
      var n := |held| - 1;
      OrderlyFront(held, n);
      LiveOrderly(held[..n], now);
      LiveBefore(held, now);
      OrderlyPush(Live(held[..n], now), held[n]);
    }
  }

  lemma OrderlyFront(held: seq<Epoch>, n: nat)
    requires Orderly(held) && n <= |held|
    ensures Orderly(held[..n])
  {
  }

  /** An epoch that follows all of a list. */
  ghost predicate FollowsAll(held: seq<Epoch>, e: Epoch) {
    ReadsAs(e) && forall i :: 0 <= i < |held| ==> held[i].id != e.id && !IssuedBefore(e, held[i])
  }

  lemma OrderlyPush(held: seq<Epoch>, e: Epoch)
    requires Orderly(held) && FollowsAll(held, e)
    ensures Orderly(held + [e])
  {
  }

  lemma {:induction false} LiveBefore(held: seq<Epoch>, now: int)
    requires Orderly(held) && held != []
    ensures FollowsAll(Live(held[..|held| - 1], now), held[|held| - 1])
  {
    var n := |held| - 1;
    var rest := Live(held[..n], now);
    forall i | 0 <= i < |rest|
      ensures rest[i].id != held[n].id && !IssuedBefore(held[n], rest[i])
    {
      LiveMembers(held[..n], now, rest[i]);
      var k :| 0 <= k < n && held[..n][k] == rest[i];
      assert held[k] == rest[i];
    }
  }

  // ------------------------------------------------------------------- spend

  predicate NewWindow(g: Group, publisher: Node, now: int) {
    publisher !in g.budget || now - g.budget[publisher].since >= g.rotation
  }

  /** Whether one more pull of an unknown id may be charged to `publisher`. */
  predicate MaySpend(g: Group, publisher: Node, now: int) {
    NewWindow(g, publisher, now) || g.budget[publisher].count < UNKNOWN_IDS_PER_PUBLISHER
  }

  function Spent(g: Group, publisher: Node, now: int): Group {
    g.(budget := g.budget[publisher :=
      if NewWindow(g, publisher, now) then Budget(now, 1)
      else if !MaySpend(g, publisher, now) then g.budget[publisher]
      else Budget(g.budget[publisher].since, g.budget[publisher].count + 1)])
  }

  /** What every step keeps of a group. */
  ghost predicate Sane(g: Group) {
    && Orderly(g.epochs)
    && g.backoff >= FIRST_BACKOFF_MS
    && (g.policy != Unset ==> g.rotation > 0)
    && forall p :: p in g.budget ==> 1 <= g.budget[p].count <= UNKNOWN_IDS_PER_PUBLISHER
  }

  predicate Sealing(p: Policy) { p == Preferred || p == Required }

  lemma MergedSane(g: Group, r: Reply)
    requires Sane(g) && Parsed(r)
    ensures Sane(Merged(g, r)) && (Sealing(g.policy) ==> Sealing(Merged(g, r).policy)) && Merged(g, r).policy != Unset
    ensures forall e :: e in g.epochs ==> e in Merged(g, r).epochs
  {
    MergeOrderly(g.epochs, r.epochs);
  }

  /** The group as its methods update it. */
  class Held {
    var pin: Pin
    var policy: Policy
    var epochs: seq<Epoch>
    var rotation: int
    var unknown: map<Id, int>
    var budget: map<Node, Budget>
    var backoff: int
    var wake: nat

    ghost function State(): Group
      reads this
    {
      Group(pin, policy, epochs, rotation, unknown, budget, backoff, wake)
    }

    constructor (pin: Pin)
      ensures State() == NewGroup(pin)
    {
      this.pin, policy, epochs, rotation, unknown, budget := pin, Unset, [], 0, map[], map[];
      backoff, wake := FIRST_BACKOFF_MS, 0;
    }

    method Merge(r: Reply)
      requires Sane(State()) && Parsed(r)
      modifies this`policy, this`rotation, this`epochs
      ensures State() == Merged(old(State()), r) && Sane(State())
    {
      MergedSane(State(), r);
      if r.policy != Off || (policy != Preferred && policy != Required) {
        policy := r.policy;
      }
      rotation := r.epochs[0].publishUntil - r.epochs[0].issuedAt;
      assert r.epochs[0..] == r.epochs;
      for i := 0 to |r.epochs|
        invariant AddMissing(epochs, r.epochs[i..]) == AddMissing(old(epochs), r.epochs)
        invariant policy == MergedPolicy(old(policy), r.policy)
        invariant rotation == r.epochs[0].publishUntil - r.epochs[0].issuedAt
      {
        assert r.epochs[i..][1..] == r.epochs[i + 1..];
        if !HasId(epochs, r.epochs[i].id) {
          epochs := epochs + [r.epochs[i]];
        }
      }
      epochs := Sort(IssuedBefore, epochs);
    }

    method Spend(publisher: Node, now: int) returns (ok: bool)
      modifies this`budget
      ensures ok == old(MaySpend(State(), publisher, now))
      ensures State() == Spent(old(State()), publisher, now)
    {
      if publisher !in budget || now - budget[publisher].since >= rotation {
        budget := budget[publisher := Budget(now, 1)];
      } else if budget[publisher].count >= UNKNOWN_IDS_PER_PUBLISHER {
        assert budget[publisher := budget[publisher]] == budget;
        return false;
      } else {
        budget := budget[publisher := Budget(budget[publisher].since, budget[publisher].count + 1)];
      }
      return true;
    }

    method Store(now: int)
      modifies this`epochs
      ensures State() == old(State()).(epochs := Live(old(epochs), now))
    {
      epochs := KeepLive(epochs, now);
    }
  }
}
