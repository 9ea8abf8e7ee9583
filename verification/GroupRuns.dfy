/** What every run of a keyring of groups keeps: over any steps, in any order, with any answers. */
module GroupRuns {
  import opened Options
  import opened Bytes
  import opened GroupEpoch
  import opened GroupHeld
  import opened GroupKeyring
  import Publication

  ghost predicate Moves(s: Ring, step: Step, t: Ring) { Linked(s) && t == Next(s, step) }

  /** A run from an empty keyring: the steps, and the rings before, between and after them. */
  ghost predicate IsRun(states: seq<Ring>, run: seq<Step>) {
    && |states| == |run| + 1 && states[0] == Start
    && forall t :: 0 <= t < |run| ==> Moves(states[t], run[t], states[t + 1])
  }

  lemma {:induction false} Reached(states: seq<Ring>, run: seq<Step>, t: nat)
    requires IsRun(states, run) && t <= |run|
    ensures Inv(states[t])
  {
    if t == 0 {
      StartInv();
    } else {
      Reached(states, run, t - 1);
      MoveKeeps(states[t - 1], run[t - 1], states[t]);
    }
  }

  lemma StartInv()
    ensures Inv(Start)
  {
  }

  lemma {:induction false} MoveKeeps(s: Ring, step: Step, t: Ring)
    requires Inv(s) && Moves(s, step, t)
    ensures Inv(t) && AllOnward(s, t, ClockOf(step))
  {
    StepKeeps(s, step);
  }

  /** Step by step, every group goes onward. */
  ghost predicate Onwards(states: seq<Ring>, run: seq<Step>) {
    |states| == |run| + 1 && forall t :: 0 <= t < |run| ==> AllOnward(states[t], states[t + 1], ClockOf(run[t]))
  }

  lemma {:induction false} RunsOnward(states: seq<Ring>, run: seq<Step>)
    requires IsRun(states, run)
    ensures Onwards(states, run)
  {
    forall t | 0 <= t < |run|
      ensures AllOnward(states[t], states[t + 1], ClockOf(run[t]))
    {
      Reached(states, run, t);
      MoveKeeps(states[t], run[t], states[t + 1]);
    }
  }

  /** What holds of each group at every moment of a run. */
  lemma {:induction false} GroupSane(states: seq<Ring>, run: seq<Step>, t: nat, o: nat)
    requires IsRun(states, run) && t <= |run| && o < |states[t].objects|
    ensures Sane(states[t].objects[o].group)
  {
    Reached(states, run, t);
  }

  /** The held epochs of a group have distinct ids and stand in order of issue, at every moment of every run. */
  lemma {:induction false} EpochsOrdered(states: seq<Ring>, run: seq<Step>, t: nat, o: nat, i: nat, j: nat)
    requires IsRun(states, run) && t <= |run| && o < |states[t].objects| && i < j < |states[t].objects[o].group.epochs|
    ensures var held := states[t].objects[o].group.epochs;
            held[i].id != held[j].id && held[i].issuedAt <= held[j].issuedAt
  {
    var held := states[t].objects[o].group.epochs;
    GroupSane(states, run, t, o);
    assert !IssuedBefore(held[j], held[i]);
  }

  /** A group once seen preferred or required is never off while it is held, and a pinned distributor stays. */
  ghost predicate Steadfast(g: Group, h: Group) {
    && (Sealing(g.policy) ==> Sealing(h.policy))
    && (g.pin.ByUser? ==> h.pin == g.pin)
  }

  lemma {:induction false} SteadfastAlong(states: seq<Ring>, run: seq<Step>, o: nat, i: nat, j: nat)
    requires Onwards(states, run) && i <= j <= |run| && o < |states[i].objects|
    ensures o < |states[j].objects| && Steadfast(states[i].objects[o].group, states[j].objects[o].group)
    decreases j
  {
    if i < j {
      SteadfastAlong(states, run, o, i, j - 1);
      assert AllOnward(states[j - 1], states[j], ClockOf(run[j - 1]));
      OnwardSteadfast(states[j - 1].objects[o].group, states[j].objects[o].group, ClockOf(run[j - 1]));
    }
  }

  lemma OnwardSteadfast(g: Group, h: Group, clock: Option<int>)
    requires Onward(g, h, clock)
    ensures Steadfast(g, h)
  {
  }

  lemma {:induction false} PolicyMonotone(states: seq<Ring>, run: seq<Step>, o: nat, i: nat, j: nat)
    requires IsRun(states, run) && i <= j <= |run| && o < |states[i].objects|
    ensures o < |states[j].objects| && Steadfast(states[i].objects[o].group, states[j].objects[o].group)
  {
    RunsOnward(states, run);
    SteadfastAlong(states, run, o, i, j);
  }

  // ------------------------------------------------------------ the epochs given out

  lemma {:induction false} HeldEpochIs(held: seq<Epoch>, id: Id)
    ensures HeldEpoch(held, id).None? <==> !HasId(held, id)
    ensures HeldEpoch(held, id).Some? ==> HeldEpoch(held, id).value in held && HeldEpoch(held, id).value.id == id
  {
    if held != [] {
      HeldEpochIs(held[1..], id);
      assert held == [held[0]] + held[1..];
      if HasId(held, id) && held[0].id != id {
        var k :| 0 <= k < |held| && held[k].id == id;
        assert held[1..][k - 1].id == id;
      }
      if HasId(held[1..], id) {
        var k :| 0 <= k < |held[1..]| && held[1..][k].id == id;
        assert held[k + 1].id == id;
      }
    }
  }

  lemma {:induction false} HeldEpochFinds(held: seq<Epoch>, e: Epoch)
    requires DistinctIds(held) && e in held
    ensures HeldEpoch(held, e.id) == Some(e)
  {
    var k :| 0 <= k < |held| && held[k] == e;
    assert HasId(held, e.id);
    HeldEpochIs(held, e.id);
  }

  /** The group a publish or an open ends on. */
  ghost function EndsOn(s: Ring, step: Step): nat
    requires Linked(s)
    requires ((step.BeginPublish? || step.BeginOpen?) && step.key in s.groups) || (step.Replies? && s.pulling.Some?)
  {
    if step.Replies? then s.pulling.value.obj else s.groups[step.key]
  }

  /** Which id an open that ends here asked for, if an open ends here. */
  function AskedFor(s: Ring, step: Step): Option<Id> {
    if step.BeginOpen? then Some(step.id)
    else if step.Replies? && s.pulling.Some? && s.pulling.value.purpose.ToOpen? then Some(s.pulling.value.purpose.id)
    else None
  }

  /** The reading an epoch is given at. */
  function GivenAt(step: Step): int
    requires step.BeginPublish? || step.BeginOpen? || step.Replies?
  {
    match step
    case BeginPublish(_, now) => now
    case BeginOpen(_, _, _, looked, _) => looked
    case Replies(_, _, clock, _) => clock.giving
  }

  /** A publish is given only an epoch that publishes at that moment, the newest such its group holds, and an open
      only an epoch of the id it asked for, acceptable at that moment. */
  lemma {:induction false} GivesOnlyWhatMayBe(s: Ring, step: Step)
    requires Linked(s) && (step.BeginPublish? || step.BeginOpen? || step.Replies?) && Out(s, step).Gives?
    ensures var e, held := Out(s, step).epoch, Next(s, step).objects[EndsOn(s, step)].group.epochs;
            && e in held
            && (AskedFor(s, step).Some? ==> e.id == AskedFor(s, step).value && Acceptable(e, GivenAt(step)))
            && (AskedFor(s, step).None? ==>
                  && Publishing(e, GivenAt(step))
                  && forall f :: f in held && Publishing(f, GivenAt(step)) ==> f.issuedAt <= e.issuedAt)
  {
    var held := Next(s, step).objects[EndsOn(s, step)].group.epochs;
    ForPublishIsNewest(held, GivenAt(step));
    if AskedFor(s, step).Some? {
      HeldEpochIs(held, AskedFor(s, step).value);
    }
  }

  /** No epoch is erased while it is acceptable: one a group held is held at every later moment of the run, up to a
      clock reading it is acceptable at and no reading of the run is past. */
  lemma {:induction false} EpochKept(states: seq<Ring>, run: seq<Step>, o: nat, e: Epoch, i: nat, j: nat, now: int)
    requires Onwards(states, run) && i <= j <= |run| && o < |states[i].objects|
    requires e in states[i].objects[o].group.epochs && Acceptable(e, now)
    requires forall t :: i <= t < j && ClockOf(run[t]).Some? ==> ClockOf(run[t]).value <= now
    ensures o < |states[j].objects| && e in states[j].objects[o].group.epochs
    decreases j
  {
    if i < j {
      EpochKept(states, run, o, e, i, j - 1, now);
      assert AllOnward(states[j - 1], states[j], ClockOf(run[j - 1]));
      assert Onward(states[j - 1].objects[o].group, states[j].objects[o].group, ClockOf(run[j - 1]));
    }
  }

  /** An event still in time is opened. When a member's group held the epoch an event was sealed under, and the event
      was stamped while that epoch published or up to five minutes after, then at every moment the event's own time
      rules accept it the member's open is given that epoch, at once and whatever the run did meanwhile. */
  lemma {:induction false} EventOpens(states: seq<Ring>, run: seq<Step>, key: GroupKey, e: Epoch, i: nat, j: nat,
                                      p: Publication.Stamp, publisher: Node, now: int, asked: int)
    requires IsRun(states, run) && i <= j <= |run| && key in states[j].groups
    requires states[j].groups[key] < |states[i].objects|
    requires e in states[i].objects[states[j].groups[key]].group.epochs && e.acceptUntil + TOLERANCE_MS < TWO63
    requires e.issuedAt <= p.publishedAt <= e.publishUntil + TOLERANCE_MS
    requires Publication.Judge(p, true, now) == Publication.Accepted
    requires forall t :: i <= t < j && ClockOf(run[t]).Some? ==> ClockOf(run[t]).value <= now
    ensures Linked(states[j]) && Out(states[j], BeginOpen(key, e.id, publisher, now, asked)) == Gives(e)
  {
    var o := states[j].groups[key];
    GroupSane(states, run, i, o);
    assert ReadsAs(e);
    EpochOutlivesEvents(e, p, now);
    RunsOnward(states, run);
    EpochKept(states, run, o, e, i, j, now);
    Reached(states, run, j);
    OpensHeld(states[j], key, e, publisher, now, asked);
  }

  lemma {:induction false} OpensHeld(s: Ring, key: GroupKey, e: Epoch, publisher: Node, now: int, asked: int)
    requires Inv(s) && key in s.groups && e in s.objects[s.groups[key]].group.epochs && Acceptable(e, now)
    ensures Out(s, BeginOpen(key, e.id, publisher, now, asked)) == Gives(e)
  {
    assert Sane(s.objects[s.groups[key]].group);
    HeldEpochFinds(s.objects[s.groups[key]].group.epochs, e);
  }

  // ------------------------------------------------------------------- wake-ups

  /** A later wake-up of the same joined group was armed. */
  ghost predicate Replaced(s: Ring, i: nat)
    requires i < |s.armed|
  {
    exists j :: i < j < |s.armed| && s.armed[j].obj == s.armed[i].obj
  }

  lemma {:induction false} NewestIsUnreplaced(s: Ring, i: nat)
    requires Inv(s) && i < |s.armed|
    ensures Replaced(s, i) <==> s.armed[i].generation != s.objects[s.armed[i].obj].group.wake
  {
    var o := s.armed[i].obj;
    assert Within(s.armed[i], s.objects);
    var m :| 0 <= m < |s.armed| && s.armed[m].obj == o && s.armed[m].generation == s.objects[o].group.wake;
    if Replaced(s, i) {
      var j :| i < j < |s.armed| && s.armed[j].obj == o;
      assert Within(s.armed[j], s.objects);
    } else {
      assert m <= i;
    }
  }

  ghost predicate PullsOnFiring(s: Ring, i: nat)
    requires Linked(s)
  {
    s.pulling.None? && Next(s, Fires(i)).pulling.Some?
  }

  /** When a wake-up pulls, in any ring in order with no other pull out. For the group joined when it was armed:
      exactly when no later one replaced it. When that group was left and its key joined again, generations start
      over: the old wake-up pulls exactly when it carries the number of the newest wake-up of the group joined since. */
  lemma {:induction false} WakeUpPullsIff(s: Ring, i: nat)
    requires Inv(s) && i < |s.armed| && s.pulling.None?
    ensures var w := s.armed[i];
            var key := s.objects[w.obj].key;
            && (key !in s.groups ==> !PullsOnFiring(s, i))
            && (key in s.groups && s.groups[key] == w.obj ==> (PullsOnFiring(s, i) <==> !Replaced(s, i)))
            && (key in s.groups && s.groups[key] != w.obj ==>
                  (PullsOnFiring(s, i) <==> s.objects[s.groups[key]].group.wake == w.generation))
  {
    NewestIsUnreplaced(s, i);
  }

  /** What a join from any open ring that does not hold the key leaves. */
  ghost predicate JustJoined(s: Ring, key: GroupKey, t: Ring) {
    && Linked(t) && t.pulling.None? && !t.closed && t.groups == s.groups[key := |s.objects|]
    && |t.armed| == |s.armed| + 1 && (s.armed != [] ==> t.armed[0] == s.armed[0])
    && t.armed[|s.armed|].obj == |s.objects| && t.armed[|s.armed|].generation == 1
    && |t.objects| == |s.objects| + 1 && (s.objects != [] ==> t.objects[0] == s.objects[0])
    && t.objects[|s.objects|].key == key && t.objects[|s.objects|].group.wake == 1
  }

  lemma {:induction false} Joins(s: Ring, key: GroupKey, reply: Reply, node: Node, clock: Clock, begun: Ring, t: Ring)
    requires Linked(s) && s.pulling.None? && !s.closed && key !in s.groups && Parsed(reply)
    requires Moves(s, BeginJoin(key, NoPin), begun) && Moves(begun, Replies(reply, node, clock, 0.0), t)
    ensures JustJoined(s, key, t)
  {
  }

  lemma FirstWakeFires(s: Ring, key: GroupKey)
    requires Linked(s) && s.pulling.None? && !s.closed && |s.armed| == 2 && |s.objects| == 2
    requires s.groups == map[key := 1] && s.armed[0].obj == 0 && s.armed[0].generation == 1
    requires s.objects[0].key == key && s.objects[1].group.wake == 1
    ensures PullsOnFiring(s, 0)
  {
  }

  /** And it can: join, leave and join again while the first wake-up is on its way, and it pulls though a newer one
      has replaced it. */
  lemma {:induction false} RejoinedWakeUpPulls(states: seq<Ring>, key: GroupKey, reply: Reply, node: Node, clock: Clock)
    requires Parsed(reply)
    requires var join, got := BeginJoin(key, NoPin), Replies(reply, node, clock, 0.0);
             IsRun(states, [join, got, Leaves(key), join, got])
    ensures var s := states[5];
            && Linked(s) && |s.armed| == 2 && s.objects[s.armed[0].obj].key == s.objects[s.armed[1].obj].key == key
            && PullsOnFiring(s, 0)
  {
    var join, got := BeginJoin(key, NoPin), Replies(reply, node, clock, 0.0);
    var run := [join, got, Leaves(key), join, got];
    assert Moves(states[0], run[0], states[1]) && Moves(states[1], run[1], states[2]);
    Joins(Start, key, reply, node, clock, states[1], states[2]);
    assert Moves(states[2], run[2], states[3]) && Moves(states[3], run[3], states[4]);
    assert Moves(states[4], run[4], states[5]);
    assert states[3].groups == map[];
    Joins(states[3], key, reply, node, clock, states[4], states[5]);
    FirstWakeFires(states[5], key);
  }

  /** No wake-up is armed to come at once. */
  lemma {:induction false} WakeUpsWait(states: seq<Ring>, run: seq<Step>, t: nat, i: nat)
    requires IsRun(states, run) && t <= |run| && i < |states[t].armed|
    ensures states[t].armed[i].delay >= FIRST_BACKOFF_MS
  {
    Reached(states, run, t);
    assert Within(states[t].armed[i], states[t].objects);
  }

  // --------------------------------------------------------- pulls of unknown ids

  /** A step that charges a pull of an unknown id to `publisher` in group `o`. */
  predicate ChargesIn(s: Ring, step: Step, o: nat, publisher: Node) {
    && step.BeginOpen? && step.publisher == publisher && s.pulling.None?
    && step.key in s.groups && s.groups[step.key] == o && o < |s.objects|
    && Asks(s.objects[o].group, step.id, publisher, step.now)
  }

  function BudgetIn(s: Ring, o: nat, publisher: Node): nat {
    if o < |s.objects| && publisher in s.objects[o].group.budget then s.objects[o].group.budget[publisher].count else 0
  }

  /** The budget after a step, by what the step does to it. */
  function BudgetNext(s: Ring, step: Step, o: nat, publisher: Node): nat {
    if !ChargesIn(s, step, o, publisher) then BudgetIn(s, o, publisher)
    else if NewWindow(s.objects[o].group, publisher, step.now) then 1
    else BudgetIn(s, o, publisher) + 1
  }

  lemma {:induction false} BudgetStepIn(s: Ring, step: Step, o: nat, publisher: Node)
    requires Linked(s)
    ensures BudgetIn(Next(s, step), o, publisher) == BudgetNext(s, step, o, publisher)
  {
    if step.Replies? || step.Fails? {
      BudgetOnEnding(s, step, o, publisher);
    } else if step.BeginOpen? {
      BudgetOnOpen(s, step, o, publisher);
    } else {
      BudgetElsewhere(s, step, o, publisher);
    }
  }

  lemma BudgetElsewhere(s: Ring, step: Step, o: nat, publisher: Node)
    requires Linked(s) && !step.Replies? && !step.Fails? && !step.BeginOpen?
    ensures BudgetIn(Next(s, step), o, publisher) == BudgetIn(s, o, publisher)
  {
  }

  lemma BudgetOnOpen(s: Ring, step: Step, o: nat, publisher: Node)
    requires Linked(s) && step.BeginOpen?
    ensures BudgetIn(Next(s, step), o, publisher) == BudgetNext(s, step, o, publisher)
  {
  }

  lemma {:induction false} BudgetOnEnding(s: Ring, step: Step, o: nat, publisher: Node)
    requires Linked(s) && (step.Replies? || step.Fails?)
    ensures BudgetIn(Next(s, step), o, publisher) == BudgetIn(s, o, publisher)
  {
    if s.pulling.Some? && step.Replies? && Parsed(step.reply) {
      SettledBudget(s, Replied(s, step.reply, step.provider, step.clock, step.fraction), o, publisher);
    } else if s.pulling.Some? && step.Replies? {
      SettledBudget(s, Failed(s, NoDistributor, false, step.clock.storing), o, publisher);
    } else if s.pulling.Some? {
      SettledBudget(s, Failed(s, step.reason, step.notAdvertised, step.now), o, publisher);
    }
  }

  lemma SettledBudget(s: Ring, end: Ending, o: nat, publisher: Node)
    requires s.pulling.Some? && s.pulling.value.obj < |s.objects|
    requires end.group.budget == s.objects[s.pulling.value.obj].group.budget
    ensures BudgetIn(Settled(s, end), o, publisher) == BudgetIn(s, o, publisher)
  {
  }

  /** What a run does to one publisher's budget in one group, step by step. */
  datatype Spending = Nothing | Charge | Reset

  ghost function SpendingAt(s: Ring, step: Step, o: nat, publisher: Node): Spending {
    if !ChargesIn(s, step, o, publisher) then Nothing
    else if NewWindow(s.objects[o].group, publisher, step.now) then Reset
    else Charge
  }

  ghost predicate Spends(states: seq<Ring>, run: seq<Step>, o: nat, publisher: Node, spent: seq<Spending>) {
    && |spent| == |run| && |states| == |run| + 1
    && forall t :: 0 <= t < |run| ==> spent[t] == SpendingAt(states[t], run[t], o, publisher)
  }

  /** How many pulls are charged from step `i` up to `j`. */
  function Charged(spent: seq<Spending>, i: nat, j: nat): nat
    requires i <= j <= |spent|
    decreases j
  {
    if i == j then 0 else Charged(spent, i, j - 1) + if spent[j - 1].Nothing? then 0 else 1
  }

  lemma {:induction false} ChargedWithin(budget: seq<nat>, spent: seq<Spending>, i: nat, j: nat)
    requires |budget| == |spent| + 1 && i <= j <= |spent|
    requires forall t :: i <= t < j ==>
               budget[t + 1] == if spent[t].Reset? then 1 else if spent[t].Charge? then budget[t] + 1 else budget[t]
    requires forall t :: i < t < j ==> !spent[t].Reset?
    ensures Charged(spent, i, j) <= budget[j]
    decreases j
  {
    if i < j {
      ChargedWithin(budget, spent, i, j - 1);
    }
  }

  lemma BudgetBound(s: Ring, o: nat, publisher: Node)
    requires AllSane(s)
    ensures BudgetIn(s, o, publisher) <= UNKNOWN_IDS_PER_PUBLISHER
  {
    if o < |s.objects| {
      assert Sane(s.objects[o].group);
    }
  }

  /** At most three pulls of unknown ids are charged to a publisher from one reset of its budget to the next. */
  lemma {:induction false} AtMostThreeCharged(states: seq<Ring>, run: seq<Step>, o: nat, publisher: Node,
                                              spent: seq<Spending>, i: nat, j: nat)
    requires IsRun(states, run) && Spends(states, run, o, publisher, spent) && i <= j <= |run|
    requires forall t :: i < t < j ==> !spent[t].Reset?
    ensures Charged(spent, i, j) <= UNKNOWN_IDS_PER_PUBLISHER
  {
    var budget := seq(|states|, t requires 0 <= t < |states| => BudgetIn(states[t], o, publisher));
    forall t | 0 <= t < |run|
      ensures budget[t + 1] == if spent[t].Reset? then 1 else if spent[t].Charge? then budget[t] + 1 else budget[t]
    {
      assert Moves(states[t], run[t], states[t + 1]);
      BudgetStepIn(states[t], run[t], o, publisher);
    }
    ChargedWithin(budget, spent, i, j);
    Reached(states, run, j);
    BudgetBound(states[j], o, publisher);
  }
}
