/** The keyring of joined groups as its critical sections interleave. One pull is out at a time; while it is out,
    groups are left, the keyring is closed, and wake-ups armed earlier come due. A step is one critical section, with
    the clock readings it makes. */
module GroupKeyring {
  import opened Options
  import opened GroupEpoch
  import opened GroupHeld

  datatype GroupKey = GroupKey(realm: Node, prefix: string)

  datatype Joined = Joined(key: GroupKey, group: Group)

  /** A re-pull a timer will ask for: of the key it was armed for, naming the generation it was armed as. */
  datatype Wakeup = Wakeup(obj: nat, generation: nat, delay: int)

  datatype Purpose = ToJoin | ToPublish | ToOpen(id: Id, asked: int) | ToRepull

  datatype Pull = Pull(purpose: Purpose, obj: nat)

  /** `objects` are the groups ever made, named by position; `groups` says which are joined; `armed` is every wake-up
      ever armed, any of which may still be on its way. */
  datatype Ring = Ring(
    groups: map<GroupKey, nat>, objects: seq<Joined>, closed: bool, pulling: Option<Pull>, armed: seq<Wakeup>)

  datatype Reason = NotAMember | MembershipUnknown | UnknownEpoch | EpochExpired | NoDistributor

  /** The readings at the end of a pull, in any relation to each other: storeLocked's, the one scheduleLocked stores
      at, the one it counts the delay from, and the one the caller's epoch is judged at. */
  datatype Clock = Clock(storing: int, again: int, waiting: int, giving: int)

  function Later(a: int, b: int): int { if a > b then a else b }

  function Latest(c: Clock): int { Later(Later(c.storing, c.again), Later(c.waiting, c.giving)) }

  datatype Step =
    | BeginJoin(key: GroupKey, pin: Pin)
    | BeginPublish(key: GroupKey, now: int)
    | BeginOpen(key: GroupKey, id: Id, publisher: Node, looked: int, now: int)
    | Fires(at: nat)
    | Replies(reply: Reply, provider: Node, clock: Clock, fraction: Fraction)
    | Fails(reason: Reason, notAdvertised: bool, now: int)
    | Leaves(key: GroupKey)
    | Closes

  const Start := Ring(map[], [], false, None, [])

  ghost predicate Linked(s: Ring) {
    && (forall k :: k in s.groups ==> s.groups[k] < |s.objects|)
    && (s.pulling.Some? ==> s.pulling.value.obj < |s.objects|)
    && (forall i :: 0 <= i < |s.armed| ==> s.armed[i].obj < |s.objects|)
  }

  function HeldEpoch(held: seq<Epoch>, id: Id): Option<Epoch> {
    if held == [] then None else if held[0].id == id then Some(held[0]) else HeldEpoch(held[1..], id)
  }

  function Stored(g: Group, now: int): Group { g.(epochs := Live(g.epochs, now)) }

  /** scheduleLocked's delay: to an instant of the newest epoch's ahead window, and never at once. */
  function RepullDelay(g: Group, now: int, fraction: Fraction): int {
    if g.epochs == [] then FIRST_BACKOFF_MS
    else
      var wait := RepullAt(g.epochs[|g.epochs| - 1], fraction) - now;
      if wait > FIRST_BACKOFF_MS then wait else FIRST_BACKOFF_MS
  }

  function Doubled(g: Group): int {
    var cap := if g.rotation / 3 > FIRST_BACKOFF_MS then g.rotation / 3 else FIRST_BACKOFF_MS;
    if 2 * g.backoff < cap then 2 * g.backoff else cap
  }

  /** What the end of a pull makes of its group and of the joined groups, and the delay it arms a re-pull with. */
  datatype Ending = Ending(group: Group, groups: map<GroupKey, nat>, delay: Option<int>)

  /** The end of a pull: with a delay its group's re-pull is armed, unless the keyring is closed. */
  function Settled(s: Ring, end: Ending): Ring
    requires s.pulling.Some? && s.pulling.value.obj < |s.objects|
  {
    var o := s.pulling.value.obj;
    var g, delay := end.group, end.delay;
    var arms := delay.Some? && !s.closed;
    Ring(
      end.groups,
      s.objects[o := Joined(s.objects[o].key, if arms then g.(wake := g.wake + 1) else g)],
      s.closed,
      None,
      if arms then s.armed + [Wakeup(o, g.wake + 1, delay.value)] else s.armed)
  }

  /** storeLocked: the group is put back where it is joined. */
  function PutBack(s: Ring): map<GroupKey, nat>
    requires s.pulling.Some? && s.pulling.value.obj < |s.objects|
  {
    var key := s.objects[s.pulling.value.obj].key;
    if key in s.groups then s.groups[key := s.pulling.value.obj] else s.groups
  }

  function Pinned(g: Group, provider: Node): Group { if g.pin == NoPin then g.(pin := Found(provider)) else g }

  function Unpinned(g: Group, notAdvertised: bool): Group {
    if notAdvertised && g.pin.Found? then g.(pin := NoPin) else g
  }

  /** scheduleLocked's group: its backoff begun again, and stored at `now`. */
  function Rested(g: Group, now: int): Group { Stored(g, now).(backoff := FIRST_BACKOFF_MS) }

  function Replied(s: Ring, reply: Reply, provider: Node, clock: Clock, fraction: Fraction): Ending
    requires s.pulling.Some? && s.pulling.value.obj < |s.objects| && Parsed(reply)
  {
    var o := s.pulling.value.obj;
    var key, held := s.objects[o].key, s.objects[o].group;
    var g := Pinned(held, provider);
    var merged := Merged(g, reply);
    var once, twice := Rested(merged, clock.again), Rested(Stored(merged, clock.storing), clock.again);
    match s.pulling.value.purpose
    case ToJoin =>
      if s.closed then Ending(g, s.groups, None)
      else Ending(once, s.groups[key := o], Some(RepullDelay(once, clock.waiting, fraction)))
    case ToPublish => Ending(twice, PutBack(s), Some(RepullDelay(twice, clock.waiting, fraction)))
    case ToOpen(id, asked) => Ending(Stored(merged, clock.storing), PutBack(s), None)
    case ToRepull =>
      if key !in s.groups || s.closed then Ending(g, s.groups, None)
      else Ending(once, PutBack(s), Some(RepullDelay(once, clock.waiting, fraction)))
  }

  function Failed(s: Ring, reason: Reason, notAdvertised: bool, now: int): Ending
    requires s.pulling.Some? && s.pulling.value.obj < |s.objects|
  {
    var o := s.pulling.value.obj;
    var key, held := s.objects[o].key, s.objects[o].group;
    var g := Unpinned(held, notAdvertised);
    var backedOff := Stored(g, now).(backoff := Doubled(g));
    match s.pulling.value.purpose
    case ToJoin => Ending(g, s.groups, None)
    case ToPublish => Ending(backedOff, PutBack(s), Some(g.backoff))
    case ToOpen(id, asked) =>
      var remembered := g.(unknown := g.unknown[id := asked + EVENT_LIFE_MS]);
      Ending(if reason == UnknownEpoch then remembered else g, s.groups, None)
    case ToRepull =>
      if key !in s.groups || s.closed then Ending(g, s.groups, None) else Ending(backedOff, PutBack(s), Some(g.backoff))
  }

  function Begin(s: Ring, purpose: Purpose, o: nat): Ring { s.(pulling := Some(Pull(purpose, o))) }

  /** Whether an open goes on to pull: nothing held under the id, no unknown_epoch answer remembered past `now` (an
      id with none reads as remembered until 1970), and budget. */
  predicate Asks(g: Group, id: Id, publisher: Node, now: int) {
    && HeldEpoch(g.epochs, id).None?
    && !((if id in g.unknown then g.unknown[id] else 0) > now)
    && MaySpend(g, publisher, now)
  }

  /** repull's test of a wake-up naming `key` and `generation`. */
  predicate StillAwaited(s: Ring, key: GroupKey, generation: nat)
    requires key in s.groups ==> s.groups[key] < |s.objects|
  {
    !s.closed && key in s.groups && s.objects[s.groups[key]].group.wake == generation
  }

  function Next(s: Ring, step: Step): Ring
    requires Linked(s)
  {
    match step
    case BeginJoin(key, pin) =>
      if s.pulling.Some? || key in s.groups then s
      else Begin(s.(objects := s.objects + [Joined(key, NewGroup(pin))]), ToJoin, |s.objects|)
    case BeginPublish(key, now) =>
      if s.pulling.Some? || key !in s.groups || ForPublish(s.objects[s.groups[key]].group.epochs, now).Some? then s
      else Begin(s, ToPublish, s.groups[key])
    case BeginOpen(key, id, publisher, looked, now) =>
      if s.pulling.Some? || key !in s.groups || !Asks(s.objects[s.groups[key]].group, id, publisher, now) then s
      else
        var o := s.groups[key];
        Begin(s.(objects := s.objects[o := Joined(s.objects[o].key, Spent(s.objects[o].group, publisher, now))]),
              ToOpen(id, now), o)
    case Fires(at) =>
      if s.pulling.Some? || at >= |s.armed| then s
      else
        var key := s.objects[s.armed[at].obj].key;
        if StillAwaited(s, key, s.armed[at].generation) then Begin(s, ToRepull, s.groups[key]) else s
    case Replies(reply, provider, clock, fraction) =>
      if s.pulling.None? then s
      else if Parsed(reply) then Settled(s, Replied(s, reply, provider, clock, fraction))
      else Settled(s, Failed(s, NoDistributor, false, clock.storing))
    case Fails(reason, notAdvertised, now) =>
      if s.pulling.None? then s else Settled(s, Failed(s, reason, notAdvertised, now))
    case Leaves(key) => s.(groups := s.groups - {key})
    case Closes => s.(groups := map[], closed := true)
  }

  // ----------------------------------------------------------- what callers are given

  datatype Outcome = Silent | Gives(epoch: Epoch) | Denies(reason: Reason) | NotJoined

  function GivesOr(e: Option<Epoch>, otherwise: Outcome): Outcome { if e.Some? then Gives(e.value) else otherwise }

  function Opened(held: seq<Epoch>, id: Id, now: int): Outcome {
    match HeldEpoch(held, id)
    case None => Silent
    case Some(e) => if Acceptable(e, now) then Gives(e) else Denies(EpochExpired)
  }

  /** What PublishEpoch or OpenEpoch returns as a step ends it. */
  function Out(s: Ring, step: Step): Outcome
    requires Linked(s)
  {
    match step
    case BeginPublish(key, now) =>
      if key !in s.groups then NotJoined
      else GivesOr(ForPublish(s.objects[s.groups[key]].group.epochs, now), Silent)
    case BeginOpen(key, id, publisher, looked, now) =>
      if key !in s.groups then NotJoined
      else
        var g := s.objects[s.groups[key]].group;
        if HeldEpoch(g.epochs, id).None? && s.pulling.None? && !Asks(g, id, publisher, now) then Denies(UnknownEpoch)
        else Opened(g.epochs, id, looked)
    case Replies(reply, provider, clock, fraction) =>
      if s.pulling.None? || s.pulling.value.purpose == ToJoin || s.pulling.value.purpose == ToRepull then Silent
      else if !Parsed(reply) then Denies(NoDistributor)
      else
        var held := Next(s, step).objects[s.pulling.value.obj].group.epochs;
        if s.pulling.value.purpose == ToPublish then GivesOr(ForPublish(held, clock.giving), Denies(NoDistributor))
        else if HeldEpoch(held, s.pulling.value.purpose.id).None? then Denies(NoDistributor)
        else Opened(held, s.pulling.value.purpose.id, clock.giving)
    case Fails(reason, notAdvertised, now) =>
      if s.pulling.None? || s.pulling.value.purpose == ToJoin || s.pulling.value.purpose == ToRepull then Silent
      else Denies(reason)
    case _ => Silent
  }

  // ------------------------------------------------------------------ the invariant

  ghost predicate Holds(objects: seq<Joined>, k: GroupKey, o: nat) {
    o < |objects| && objects[o].key == k && objects[o].group.policy != Unset
  }

  /** Joined groups are under their own keys; a pull's group is joined, or left for good: whatever joins while the
      pull is out is no other group under its key. */
  ghost predicate Placed(s: Ring) {
    && Linked(s)
    && (forall k :: k in s.groups ==> Holds(s.objects, k, s.groups[k]))
    && (s.closed ==> s.groups == map[])
    && (s.pulling.Some? ==>
      var p := s.pulling.value;
      var key := s.objects[p.obj].key;
      key in s.groups ==> p.purpose != ToJoin && s.groups[key] == p.obj)
  }

  ghost predicate AllSane(s: Ring) { forall o :: 0 <= o < |s.objects| ==> Sane(s.objects[o].group) }

  predicate Armed(armed: seq<Wakeup>, o: nat, generation: nat) {
    exists i :: 0 <= i < |armed| && armed[i].obj == o && armed[i].generation == generation
  }

  ghost predicate Rising(armed: seq<Wakeup>) {
    forall i, j :: 0 <= i < j < |armed| && armed[i].obj == armed[j].obj ==> armed[i].generation < armed[j].generation
  }

  ghost predicate Within(w: Wakeup, objects: seq<Joined>) {
    w.obj < |objects| && 1 <= w.generation <= objects[w.obj].group.wake && w.delay >= FIRST_BACKOFF_MS
  }

  /** Wake-ups of one group carry rising generations, the last of them the group's own, and none is immediate. */
  ghost predicate Numbered(armed: seq<Wakeup>, objects: seq<Joined>) {
    && Rising(armed)
    && (forall i :: 0 <= i < |armed| ==> Within(armed[i], objects))
    && (forall o :: 0 <= o < |objects| && objects[o].group.wake > 0 ==> Armed(armed, o, objects[o].group.wake))
  }

  ghost predicate Inv(s: Ring) { Placed(s) && AllSane(s) && Numbered(s.armed, s.objects) }

  lemma StoredSane(g: Group, now: int)
    requires Sane(g)
    ensures Sane(Stored(g, now))
    ensures forall e :: e in g.epochs && Acceptable(e, now) ==> e in Stored(g, now).epochs
  {
    LiveOrderly(g.epochs, now);
    forall e | e in g.epochs && Acceptable(e, now)
      ensures e in Live(g.epochs, now)
    {
      LiveMembers(g.epochs, now, e);
    }
  }

  /** What one step may do to a group: its policy never leaves preferred or required for off, a distributor the user
      pinned stays pinned, generations rise, and no epoch acceptable at the step's clock is lost. */
  ghost predicate Onward(g: Group, h: Group, clock: Option<int>) {
    && Sane(h)
    && (Sealing(g.policy) ==> Sealing(h.policy)) && (g.policy != Unset ==> h.policy != Unset)
    && (g.pin.ByUser? ==> h.pin == g.pin)
    && g.wake <= h.wake
    && forall e :: e in g.epochs && (clock.Some? ==> Acceptable(e, clock.value)) ==> e in h.epochs
  }

  /** What is acceptable at a later reading was acceptable at every earlier one. */
  lemma OnwardLater(g: Group, h: Group, now: int, later: int)
    requires Onward(g, h, Some(now)) && now <= later
    ensures Onward(g, h, Some(later))
  {
    assert forall e :: Acceptable(e, later) ==> Acceptable(e, now);
  }

  lemma OnwardTwice(g: Group, h: Group, i: Group, clock: Option<int>)
    requires (Onward(g, h, None) || Onward(g, h, clock)) && Onward(h, i, clock)
    ensures Onward(g, i, clock)
  {
  }

  lemma StoredOnward(g: Group, now: int)
    requires Sane(g)
    ensures Onward(g, Stored(g, now), Some(now))
  {
    StoredSane(g, now);
  }

  lemma {:induction false} StoredOn(g: Group, h: Group, now: int, later: int)
    requires Onward(g, h, Some(later)) && now <= later
    ensures Onward(g, Stored(h, now), Some(later))
  {
    StoredOnward(h, now);
    OnwardLater(h, Stored(h, now), now, later);
    OnwardTwice(g, h, Stored(h, now), Some(later));
  }

  lemma {:induction false} SameWakesNumbered(armed: seq<Wakeup>, objects: seq<Joined>, later: seq<Joined>)
    requires Numbered(armed, objects) && |objects| <= |later|
    requires forall o :: 0 <= o < |objects| ==> later[o].group.wake == objects[o].group.wake
    requires forall o :: |objects| <= o < |later| ==> later[o].group.wake == 0
    ensures Numbered(armed, later)
  {
    forall i | 0 <= i < |armed|
      ensures Within(armed[i], later)
    {
      assert Within(armed[i], objects);
    }
  }

  lemma {:induction false} ArmingNumbered(armed: seq<Wakeup>, objects: seq<Joined>, o: nat, j: Joined, w: Wakeup)
    requires Numbered(armed, objects) && o < |objects| && j.group.wake == objects[o].group.wake + 1
    requires w.obj == o && w.generation == j.group.wake && w.delay >= FIRST_BACKOFF_MS
    ensures Numbered(armed + [w], objects[o := j])
  {
    var more, later := armed + [w], objects[o := j];
    forall i | 0 <= i < |more|
      ensures Within(more[i], later) && (i < |armed| && more[i].obj == o ==> more[i].generation < w.generation)
    {
      assert i < |armed| ==> Within(armed[i], objects);
    }
    forall q | 0 <= q < |later| && later[q].group.wake > 0
      ensures Armed(more, q, later[q].group.wake)
    {
      if q == o {
        assert more[|armed|] == w;
      } else {
        var i :| 0 <= i < |armed| && armed[i].obj == q && armed[i].generation == objects[q].group.wake;
        assert more[i] == armed[i];
      }
    }
  }

  lemma {:induction false} SettledNumbered(s: Ring, end: Ending)
    requires s.pulling.Some? && s.pulling.value.obj < |s.objects| && Numbered(s.armed, s.objects)
    requires end.group.wake == s.objects[s.pulling.value.obj].group.wake
    requires end.delay.Some? ==> end.delay.value >= FIRST_BACKOFF_MS
    ensures Numbered(Settled(s, end).armed, Settled(s, end).objects)
  {
    var o, t := s.pulling.value.obj, Settled(s, end);
    if end.delay.Some? && !s.closed {
      ArmingNumbered(s.armed, s.objects, o, t.objects[o], Wakeup(o, end.group.wake + 1, end.delay.value));
    } else {
      SameWakesNumbered(s.armed, s.objects, t.objects);
    }
  }

  lemma NumberedLinks(s: Ring)
    requires Numbered(s.armed, s.objects) && forall k :: k in s.groups ==> Holds(s.objects, k, s.groups[k])
    requires s.pulling.Some? ==> s.pulling.value.obj < |s.objects|
    ensures Linked(s)
  {
    forall i | 0 <= i < |s.armed|
      ensures s.armed[i].obj < |s.objects|
    {
      assert Within(s.armed[i], s.objects);
    }
  }

  /** A pull ends with its group taken onward, its generation as it was, no immediate re-pull, and the joined groups
      as they were or with its own group under its own key. */
  ghost predicate Proper(s: Ring, end: Ending, clock: Option<int>)
    requires s.pulling.Some? && s.pulling.value.obj < |s.objects|
  {
    var o := s.pulling.value.obj;
    && Onward(s.objects[o].group, end.group, clock)
    && end.group.wake == s.objects[o].group.wake
    && (end.delay.Some? ==> end.delay.value >= FIRST_BACKOFF_MS)
    && (end.groups == s.groups
        || (end.groups == s.groups[s.objects[o].key := o] && !s.closed && end.group.policy != Unset))
  }

  lemma {:induction false} SettledPlaced(s: Ring, end: Ending, clock: Option<int>)
    requires Placed(s) && s.pulling.Some? && Proper(s, end, clock)
    requires Numbered(Settled(s, end).armed, Settled(s, end).objects)
    ensures Placed(Settled(s, end))
  {
    var t := Settled(s, end);
    forall k | k in t.groups
      ensures Holds(t.objects, k, t.groups[k])
    {
      assert k in s.groups ==> Holds(s.objects, k, s.groups[k]);
    }
    NumberedLinks(t);
  }

  lemma OnwardSame(g: Group, clock: Option<int>)
    requires Sane(g)
    ensures Onward(g, g, clock)
  {
  }

  lemma OnwardArmed(g: Group, h: Group, clock: Option<int>)
    requires Onward(g, h, clock)
    ensures Onward(g, h.(wake := h.wake + 1), clock)
  {
  }

  ghost predicate AllOnward(s: Ring, t: Ring, clock: Option<int>) {
    && |s.objects| <= |t.objects|
    && forall o :: 0 <= o < |s.objects| ==>
         t.objects[o].key == s.objects[o].key && Onward(s.objects[o].group, t.objects[o].group, clock)
  }

  lemma {:induction false} SettledOnward(s: Ring, end: Ending, clock: Option<int>)
    requires s.pulling.Some? && s.pulling.value.obj < |s.objects| && AllSane(s) && Proper(s, end, clock)
    ensures AllOnward(s, Settled(s, end), clock) && AllSane(Settled(s, end))
  {
    var t := Settled(s, end);
    forall o | 0 <= o < |s.objects|
      ensures t.objects[o].key == s.objects[o].key && Onward(s.objects[o].group, t.objects[o].group, clock)
    {
      if o == s.pulling.value.obj {
        OnwardArmed(s.objects[o].group, end.group, clock);
      } else {
        OnwardSame(s.objects[o].group, clock);
      }
    }
  }

  lemma {:induction false} SettledKeeps(s: Ring, end: Ending, clock: Option<int>)
    requires Inv(s) && s.pulling.Some? && Proper(s, end, clock)
    ensures Inv(Settled(s, end)) && AllOnward(s, Settled(s, end), clock)
  {
    SettledNumbered(s, end);
    SettledPlaced(s, end, clock);
    SettledOnward(s, end, clock);
  }

  /** Putting a pulled group back where it is joined changes nothing: no other group took its place meanwhile. */
  lemma {:induction false} PutBackSame(s: Ring)
    requires Placed(s) && s.pulling.Some?
    ensures PutBack(s) == s.groups
  {
    var key := s.objects[s.pulling.value.obj].key;
    if key in s.groups {
      assert s.groups[key := s.groups[key]] == s.groups;
    }
  }

  lemma PinOnward(held: Group, g: Group, clock: Option<int>)
    requires Sane(held) && (g == held || (!held.pin.ByUser? && g == held.(pin := g.pin)))
    ensures Onward(held, g, clock)
  {
  }

  lemma OnwardBackoff(g: Group, h: Group, backoff: int, clock: Option<int>)
    requires Onward(g, h, clock) && backoff >= FIRST_BACKOFF_MS
    ensures Onward(g, h.(backoff := backoff), clock)
  {
  }

  lemma MergedOnward(g: Group, r: Reply, clock: Option<int>)
    requires Sane(g) && Parsed(r)
    ensures Onward(g, Merged(g, r), clock) && Merged(g, r).policy != Unset
  {
    MergedSane(g, r);
  }

  lemma {:induction false} RestedOn(g: Group, h: Group, now: int, later: int)
    requires Onward(g, h, Some(later)) && now <= later
    ensures Onward(g, Rested(h, now), Some(later))
  {
    StoredOn(g, h, now, later);
    OnwardBackoff(g, Stored(h, now), FIRST_BACKOFF_MS, Some(later));
  }

  lemma {:induction false} RepliedOnward(held: Group, g: Group, reply: Reply, clock: Clock)
    requires Sane(held) && Parsed(reply) && (g == held || (!held.pin.ByUser? && g == held.(pin := g.pin)))
    ensures Onward(held, g, Some(Latest(clock))) && Merged(g, reply).policy != Unset
    ensures Onward(held, Stored(Merged(g, reply), clock.storing), Some(Latest(clock)))
    ensures Onward(held, Rested(Merged(g, reply), clock.again), Some(Latest(clock)))
    ensures Onward(held, Rested(Stored(Merged(g, reply), clock.storing), clock.again), Some(Latest(clock)))
  {
    var merged, latest := Merged(g, reply), Latest(clock);
    PinOnward(held, g, Some(latest));
    MergedOnward(g, reply, Some(latest));
    OnwardTwice(held, g, merged, Some(latest));
    StoredOn(held, merged, clock.storing, latest);
    RestedOn(held, merged, clock.again, latest);
    RestedOn(held, Stored(merged, clock.storing), clock.again, latest);
  }

  lemma {:induction false} FailedOnward(held: Group, g: Group, unknown: map<Id, int>, now: int)
    requires Sane(held) && (g == held || (!held.pin.ByUser? && g == held.(pin := g.pin)))
    ensures Onward(held, g, Some(now))
    ensures Onward(held, Stored(g, now).(backoff := Doubled(g)), Some(now))
    ensures Onward(held, g.(unknown := unknown), Some(now))
  {
    PinOnward(held, g, None);
    StoredOnward(g, now);
    OnwardTwice(held, g, Stored(g, now), Some(now));
    OnwardBackoff(held, Stored(g, now), Doubled(g), Some(now));
    PinOnward(held, g, Some(now));
    OnwardUnknown(held, g, unknown, Some(now));
  }

  lemma {:induction false} RepliedGroupOnward(s: Ring, reply: Reply, provider: Node, clock: Clock, fraction: Fraction)
    requires s.pulling.Some? && s.pulling.value.obj < |s.objects| && Parsed(reply)
    requires Sane(s.objects[s.pulling.value.obj].group)
    ensures Onward(s.objects[s.pulling.value.obj].group, Replied(s, reply, provider, clock, fraction).group,
              Some(Latest(clock)))
  {
    var held := s.objects[s.pulling.value.obj].group;
    RepliedOnward(held, Pinned(held, provider), reply, clock);
  }

  lemma {:induction false} RepliedProper(s: Ring, reply: Reply, provider: Node, clock: Clock, fraction: Fraction)
    requires Placed(s) && s.pulling.Some? && Sane(s.objects[s.pulling.value.obj].group) && Parsed(reply)
    ensures Proper(s, Replied(s, reply, provider, clock, fraction), Some(Latest(clock)))
  {
    RepliedGroupOnward(s, reply, provider, clock, fraction);
    PutBackSame(s);
  }

  lemma {:induction false} FailedProper(s: Ring, reason: Reason, notAdvertised: bool, now: int)
    requires Placed(s) && s.pulling.Some? && Sane(s.objects[s.pulling.value.obj].group)
    ensures Proper(s, Failed(s, reason, notAdvertised, now), Some(now))
  {
    var held := s.objects[s.pulling.value.obj].group;
    FailedOnward(held, Unpinned(held, notAdvertised), Failed(s, reason, notAdvertised, now).group.unknown, now);
    PutBackSame(s);
  }

  lemma OnwardUnknown(g: Group, h: Group, unknown: map<Id, int>, clock: Option<int>)
    requires Onward(g, h, clock)
    ensures Onward(g, h.(unknown := unknown), clock)
  {
  }

  /** The latest clock reading a step makes. */
  function ClockOf(step: Step): Option<int> {
    match step
    case BeginPublish(_, now) => Some(now)
    case BeginOpen(_, _, _, looked, now) => Some(Later(looked, now))
    case Replies(_, _, clock, _) => Some(Latest(clock))
    case Fails(_, _, now) => Some(now)
    case _ => None
  }

  /** A step that changes the objects as `Onward` allows, arms nothing, and keeps the joined groups. */
  lemma {:induction false} BegunKeeps(s: Ring, objects: seq<Joined>, pull: Pull, clock: Option<int>)
    requires Inv(s) && AllOnward(s, s.(objects := objects), clock) && pull.obj < |objects|
    requires forall o :: 0 <= o < |s.objects| ==> objects[o].group.wake == s.objects[o].group.wake
    requires forall o :: |s.objects| <= o < |objects| ==> Sane(objects[o].group) && objects[o].group.wake == 0
    requires objects[pull.obj].key in s.groups ==> pull.purpose != ToJoin && s.groups[objects[pull.obj].key] == pull.obj
    ensures Inv(s.(objects := objects, pulling := Some(pull)))
  {
    var t := s.(objects := objects, pulling := Some(pull));
    SameWakesNumbered(s.armed, s.objects, objects);
    forall k | k in t.groups
      ensures Holds(objects, k, t.groups[k])
    {
      assert Holds(s.objects, k, s.groups[k]);
    }
    NumberedLinks(t);
  }

  lemma {:induction false} JoinBegunKeeps(s: Ring, key: GroupKey, pin: Pin)
    requires Inv(s)
    ensures Inv(Next(s, BeginJoin(key, pin))) && AllOnward(s, Next(s, BeginJoin(key, pin)), None)
  {
    var objects := s.objects + [Joined(key, NewGroup(pin))];
    forall o | 0 <= o < |s.objects|
      ensures objects[o] == s.objects[o] && Onward(s.objects[o].group, objects[o].group, None)
    {
      OnwardSame(s.objects[o].group, None);
    }
    if s.pulling.None? && key !in s.groups {
      BegunKeeps(s, objects, Pull(ToJoin, |s.objects|), None);
    }
  }

  lemma SpentOnward(g: Group, publisher: Node, now: int, clock: Option<int>)
    requires Sane(g)
    ensures Onward(g, Spent(g, publisher, now), clock)
  {
  }

  lemma {:induction false} OpenBegunKeeps(s: Ring, step: Step)
    requires Inv(s) && step.BeginOpen?
    ensures Inv(Next(s, step)) && AllOnward(s, Next(s, step), ClockOf(step))
  {
    forall o | 0 <= o < |s.objects|
      ensures Onward(s.objects[o].group, s.objects[o].group, ClockOf(step))
      ensures Onward(s.objects[o].group, Spent(s.objects[o].group, step.publisher, step.now), ClockOf(step))
    {
      OnwardSame(s.objects[o].group, ClockOf(step));
      SpentOnward(s.objects[o].group, step.publisher, step.now, ClockOf(step));
    }
    var t := Next(s, step);
    if t != s {
      assert Holds(s.objects, step.key, s.groups[step.key]);
      BegunKeeps(s, t.objects, Pull(ToOpen(step.id, step.now), s.groups[step.key]), ClockOf(step));
    }
  }

  lemma {:induction false} RepliesKeeps(s: Ring, reply: Reply, provider: Node, clock: Clock, fraction: Fraction)
    requires Inv(s) && s.pulling.Some? && Parsed(reply)
    ensures Inv(Settled(s, Replied(s, reply, provider, clock, fraction)))
    ensures AllOnward(s, Settled(s, Replied(s, reply, provider, clock, fraction)), Some(Latest(clock)))
  {
    RepliedProper(s, reply, provider, clock, fraction);
    SettledKeeps(s, Replied(s, reply, provider, clock, fraction), Some(Latest(clock)));
  }

  lemma {:induction false} FailsKeeps(s: Ring, reason: Reason, notAdvertised: bool, now: int, latest: int)
    requires Inv(s) && s.pulling.Some? && now <= latest
    ensures Inv(Settled(s, Failed(s, reason, notAdvertised, now)))
    ensures AllOnward(s, Settled(s, Failed(s, reason, notAdvertised, now)), Some(latest))
  {
    FailedProper(s, reason, notAdvertised, now);
    SettledKeeps(s, Failed(s, reason, notAdvertised, now), Some(now));
    AllOnwardLater(s, Settled(s, Failed(s, reason, notAdvertised, now)), now, latest);
  }

  lemma {:induction false} AllOnwardLater(s: Ring, t: Ring, now: int, later: int)
    requires AllOnward(s, t, Some(now)) && now <= later
    ensures AllOnward(s, t, Some(later))
  {
    forall o | 0 <= o < |s.objects|
      ensures Onward(s.objects[o].group, t.objects[o].group, Some(later))
    {
      OnwardLater(s.objects[o].group, t.objects[o].group, now, later);
    }
  }

  lemma {:induction false} AnswerKeeps(s: Ring, step: Step)
    requires Inv(s) && s.pulling.Some? && (step.Replies? || step.Fails?)
    ensures Inv(Next(s, step)) && AllOnward(s, Next(s, step), ClockOf(step))
  {
    if step.Fails? {
      FailsKeeps(s, step.reason, step.notAdvertised, step.now, step.now);
    } else if Parsed(step.reply) {
      RepliesKeeps(s, step.reply, step.provider, step.clock, step.fraction);
    } else {
      FailsKeeps(s, NoDistributor, false, step.clock.storing, Latest(step.clock));
    }
  }

  lemma {:induction false} IdleKeeps(s: Ring, clock: Option<int>)
    requires Inv(s)
    ensures AllOnward(s, s, clock)
  {
    forall o | 0 <= o < |s.objects|
      ensures Onward(s.objects[o].group, s.objects[o].group, clock)
    {
      OnwardSame(s.objects[o].group, clock);
    }
  }

  /** A step that changes no group: the joined ones are fewer or the same. */
  lemma {:induction false} QuietKeeps(s: Ring, t: Ring, clock: Option<int>)
    requires Inv(s) && t.objects == s.objects && t.armed == s.armed
    requires t.groups.Keys <= s.groups.Keys && forall k :: k in t.groups ==> t.groups[k] == s.groups[k]
    requires t.closed ==> t.groups == map[]
    requires t.pulling == s.pulling
               || (t.pulling.Some? && t.pulling.value.purpose != ToJoin && t.pulling.value.obj in s.groups.Values)
    ensures Inv(t) && AllOnward(s, t, clock)
  {
    forall k | k in t.groups
      ensures Holds(t.objects, k, t.groups[k])
    {
      assert Holds(s.objects, k, s.groups[k]);
    }
    IdleKeeps(s, clock);
    if t.pulling != s.pulling {
      var k :| k in s.groups && s.groups[k] == t.pulling.value.obj;
      assert Holds(s.objects, k, s.groups[k]);
    }
    NumberedLinks(t);
  }

  /** Every step keeps the ring in order, and takes every group onward. */
  lemma {:induction false} StepKeeps(s: Ring, step: Step)
    requires Inv(s)
    ensures Inv(Next(s, step)) && AllOnward(s, Next(s, step), ClockOf(step))
  {
    if step.BeginJoin? {
      JoinBegunKeeps(s, step.key, step.pin);
    } else if step.BeginOpen? {
      OpenBegunKeeps(s, step);
    } else if (step.Replies? || step.Fails?) && s.pulling.Some? {
      AnswerKeeps(s, step);
    } else {
      QuietKeeps(s, Next(s, step), ClockOf(step));
    }
  }
}
