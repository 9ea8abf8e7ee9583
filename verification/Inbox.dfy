/** An inbox: a bounded queue with an end, and the one-token channels that wake those who wait on it. */
module Inbox {
  const CAPACITY := 256

  datatype Policy = WaitForRoom | DropNewest | DropOldest

  /** An item by the number of its push, which orders all pushes that were taken. */
  datatype Item = Item(number: nat, notice: bool)

  /** What the lock protects. */
  datatype Box = Box(items: seq<Item>, closed: bool, dropped: nat)

  /** What a push found: taken, and then it signals ready; refused, because the inbox is closed or is full; or to
      wait. */
  datatype Pushed = Took | Ended | Full | MustWait

  function PushOutcome(b: Box, policy: Policy, notice: bool): Pushed {
    if b.closed then Ended
    else if |b.items| < CAPACITY then Took
    else if policy == DropNewest && !notice then Full
    else if policy == WaitForRoom then MustWait
    else Took
  }

  predicate Evicts(b: Box, policy: Policy, notice: bool) {
    PushOutcome(b, policy, notice) == Took && |b.items| >= CAPACITY
  }

  function AfterPush(b: Box, policy: Policy, x: Item): Box {
    match PushOutcome(b, policy, x.notice)
    case Took =>
      if |b.items| < CAPACITY then b.(items := b.items + [x])
      else b.(items := b.items[1..] + [x], dropped := b.dropped + 1)
    case Full => b.(dropped := b.dropped + 1)
    case _ => b
  }

  /** What a next found: an item, the end, or nothing yet. */
  datatype Next = Handed(item: Item, more: bool) | AtEnd | Nothing

  function NextOutcome(b: Box): Next {
    if b.items != [] then Handed(b.items[0], |b.items| > 1 || b.closed) else if b.closed then AtEnd else Nothing
  }

  function AfterNext(b: Box): Box { if b.items != [] then b.(items := b.items[1..]) else b }

  /** The critical sections of push, next and close. */
  class Inbox {
    const policy: Policy
    var items: seq<Item>
    var closed: bool
    var dropped: nat

    ghost function State(): Box
      reads this
    {
      Box(items, closed, dropped)
    }

    constructor (policy: Policy)
      ensures this.policy == policy && State() == Box([], false, 0)
    {
      this.policy := policy;
      items, closed, dropped := [], false, 0;
    }

    method PushSection(x: Item) returns (r: Pushed)
      modifies this
      ensures r == PushOutcome(old(State()), policy, x.notice) && State() == AfterPush(old(State()), policy, x)
    {
      if closed {
        return Ended;
      } else if |items| < CAPACITY {
        items := items + [x];
        return Took;
      } else if policy == DropNewest && !x.notice {
        dropped := dropped + 1;
        return Full;
      } else if policy == DropNewest || policy == DropOldest {
        items := items[1..] + [x];
        dropped := dropped + 1;
        return Took;
      }
      return MustWait;
    }

    method NextSection() returns (r: Next)
      modifies this
      ensures r == NextOutcome(old(State())) && State() == AfterNext(old(State()))
    {
      if |items| > 0 {
        var item := items[0];
        items := items[1..];
        return Handed(item, |items| > 0 || closed);
      } else if closed {
        return AtEnd;
      }
      return Nothing;
    }

    method CloseSection()
      modifies this
      ensures State() == old(State()).(closed := true)
    {
      closed := true;
    }
  }

  // ------------------------------------------------------------------ interleavings

  /** The inbox and those around it: its two tokens; the signals of goroutines that have left the lock and not yet
      sent; the consumers about to lock it and those waiting on the ready token; the pushers woken to try again and
      those waiting on the room token. `taken` are the items handed over, `accepted`, `refused` and `evicted` how many
      pushes were taken, refused for fullness, or later dropped. */
  datatype World = World(
    box: Box, ready: bool, room: bool, readySignals: nat, roomSignals: nat, awake: nat, waiting: nat,
    pushersAwake: nat, pushersWaiting: nat, taken: seq<Item>, accepted: nat, refused: nat, evicted: nat)

  datatype Step =
    | Push(notice: bool) | Close | CallNext | LockNext | Wake | GiveUp | SignalReady | SignalRoom
    | PusherWakes | PushAgain(notice: bool) | PusherGivesUp

  const Start := World(Box([], false, 0), false, false, 0, 0, 0, 0, 0, 0, [], 0, 0, 0)

  function Pushes(w: World, policy: Policy, notice: bool): World {
    var x := Item(w.accepted, notice);
    var out := PushOutcome(w.box, policy, notice);
    w.(box := AfterPush(w.box, policy, x),
       readySignals := if out == Took then w.readySignals + 1 else w.readySignals,
       pushersWaiting := if out == MustWait then w.pushersWaiting + 1 else w.pushersWaiting,
       accepted := if out == Took then w.accepted + 1 else w.accepted,
       refused := if out == Full then w.refused + 1 else w.refused,
       evicted := if Evicts(w.box, policy, notice) then w.evicted + 1 else w.evicted)
  }

  function Locks(w: World): World
    requires w.awake > 0
  {
    var v := w.(box := AfterNext(w.box), awake := w.awake - 1);
    match NextOutcome(w.box)
    case Handed(x, more) =>
      v.(taken := w.taken + [x], roomSignals := w.roomSignals + 1,
         readySignals := if more then w.readySignals + 1 else w.readySignals)
    case AtEnd => v.(readySignals := w.readySignals + 1)
    case Nothing => v.(waiting := w.waiting + 1)
  }

  /** One step of any goroutine; one that cannot be taken changes nothing. */
  function Take(w: World, policy: Policy, step: Step): World {
    match step
    case Push(notice) => Pushes(w, policy, notice)
    case Close =>
      w.(box := w.box.(closed := true), readySignals := w.readySignals + 1, roomSignals := w.roomSignals + 1)
    case CallNext => w.(awake := w.awake + 1)
    case LockNext => if w.awake > 0 then Locks(w) else w
    case Wake =>
      if w.ready && w.waiting > 0 then w.(ready := false, waiting := w.waiting - 1, awake := w.awake + 1) else w
    case GiveUp => if w.waiting > 0 then w.(waiting := w.waiting - 1) else w
    case SignalReady => if w.readySignals > 0 then w.(ready := true, readySignals := w.readySignals - 1) else w
    case SignalRoom => if w.roomSignals > 0 then w.(room := true, roomSignals := w.roomSignals - 1) else w
    case PusherWakes =>
      if w.room && w.pushersWaiting > 0
      then w.(room := false, pushersWaiting := w.pushersWaiting - 1, pushersAwake := w.pushersAwake + 1)
      else w
    case PushAgain(notice) =>
      if w.pushersAwake > 0 then Pushes(w.(pushersAwake := w.pushersAwake - 1), policy, notice) else w
    case PusherGivesUp => if w.pushersWaiting > 0 then w.(pushersWaiting := w.pushersWaiting - 1) else w
  }

  function After(policy: Policy, run: seq<Step>): World {
    if run == [] then Start else Take(After(policy, run[..|run| - 1]), policy, run[|run| - 1])
  }

  ghost predicate Ascending(xs: seq<Item>) { forall i, j :: 0 <= i < j < |xs| ==> xs[i].number < xs[j].number }

  /** No consumer waits in vain: while one waits and there is something for it, a token, a signal on its way, or a
      consumer already awake will find it. */
  predicate Heard(w: World) {
    w.waiting > 0 && (w.box.items != [] || w.box.closed) ==> w.ready || w.readySignals > 0 || w.awake > 0
  }

  /** Nor does a pusher while the inbox is open and empty. */
  predicate PushersHeard(w: World) {
    w.pushersWaiting > 0 && w.box.items == [] && !w.box.closed ==> w.room || w.roomSignals > 0 || w.pushersAwake > 0
  }

  /** Pushers wait only where the policy makes them. */
  predicate PushersWaitFor(w: World, policy: Policy) {
    policy != WaitForRoom ==> w.pushersWaiting == 0 && w.pushersAwake == 0
  }

  ghost predicate Counted(w: World) {
    && |w.box.items| <= CAPACITY
    && w.box.dropped == w.refused + w.evicted
    && w.accepted == |w.taken| + |w.box.items| + w.evicted
  }

  ghost predicate Ordered(w: World) {
    var line := w.taken + w.box.items;
    Ascending(line) && forall i :: 0 <= i < |line| ==> line[i].number < w.accepted
  }

  ghost predicate Inv(w: World, policy: Policy) {
    Heard(w) && PushersHeard(w) && PushersWaitFor(w, policy) && Counted(w) && Ordered(w)
  }

  lemma DropAt(line: seq<Item>, n: nat)
    requires Ascending(line) && n < |line|
    ensures Ascending(line[..n] + line[n + 1..])
    ensures forall x :: x in line[..n] + line[n + 1..] ==> x in line
  {
    var rest := line[..n] + line[n + 1..];
    assert forall i :: 0 <= i < |rest| ==> rest[i] == line[if i < n then i else i + 1];
  }

  lemma {:induction false} OrderedPush(w: World, policy: Policy, notice: bool)
    requires Ordered(w)
    ensures Ordered(Pushes(w, policy, notice))
  {
    var v := Pushes(w, policy, notice);
    var line, after := w.taken + w.box.items, v.taken + v.box.items;
    var x := Item(w.accepted, notice);
    if Evicts(w.box, policy, notice) {
      var n := |w.taken|;
      DropAt(line, n);
      assert after == line[..n] + line[n + 1..] + [x];
      JoinsLine(line[..n] + line[n + 1..], x);
    } else if PushOutcome(w.box, policy, notice) == Took {
      assert after == line + [x];
      JoinsLine(line, x);
    }
  }

  lemma JoinsLine(line: seq<Item>, x: Item)
    requires Ascending(line) && forall y :: y in line ==> y.number < x.number
    ensures Ascending(line + [x]) && forall y :: y in line + [x] ==> y.number <= x.number
  {
  }

  lemma OrderedLock(w: World)
    requires Ordered(w) && w.awake > 0
    ensures Ordered(Locks(w))
  {
    var v := Locks(w);
    assert v.taken + v.box.items == w.taken + w.box.items;
  }

  lemma CountedPush(w: World, policy: Policy, notice: bool)
    requires Counted(w)
    ensures Counted(Pushes(w, policy, notice))
  {
  }

  lemma CountedStep(w: World, policy: Policy, step: Step)
    requires Counted(w)
    ensures Counted(Take(w, policy, step))
  {
    if step.Push? {
      CountedPush(w, policy, step.notice);
    } else if step.PushAgain? && w.pushersAwake > 0 {
      CountedPush(w.(pushersAwake := w.pushersAwake - 1), policy, step.notice);
    }
  }

  lemma HeardStep(w: World, policy: Policy, step: Step)
    requires Heard(w)
    ensures Heard(Take(w, policy, step))
  {
  }

  lemma PushersStep(w: World, policy: Policy, step: Step)
    requires PushersHeard(w) && PushersWaitFor(w, policy)
    ensures PushersHeard(Take(w, policy, step)) && PushersWaitFor(Take(w, policy, step), policy)
  {
  }

  lemma {:induction false} StepKeeps(w: World, policy: Policy, step: Step)
    requires Inv(w, policy)
    ensures Inv(Take(w, policy, step), policy)
  {
    CountedStep(w, policy, step);
    HeardStep(w, policy, step);
    PushersStep(w, policy, step);
    if step.Push? {
      OrderedPush(w, policy, step.notice);
    } else if step.PushAgain? && w.pushersAwake > 0 {
      OrderedPush(w.(pushersAwake := w.pushersAwake - 1), policy, step.notice);
    } else if step.LockNext? && w.awake > 0 {
      OrderedLock(w);
    }
  }

  lemma {:induction false} Reached(policy: Policy, run: seq<Step>)
    ensures Inv(After(policy, run), policy)
  {
    if run != [] {
      Reached(policy, run[..|run| - 1]);
      StepKeeps(After(policy, run[..|run| - 1]), policy, run[|run| - 1]);
    }
  }

  /** In every interleaving of pushers, consumers and closes: no consumer's wakeup is lost, so that when nothing is left
      to happen but waiting, whichever consumer waits waits on an empty open inbox, and a pusher that waits then waits
      on one that is closed or holds an item, so that they never all wait on each other; items are handed over in the
      order pushed; at most 256 are held; and the drop count is the items refused for fullness and those evicted. */
  lemma {:induction false} InboxHolds(policy: Policy, run: seq<Step>)
    ensures var w := After(policy, run);
            && (w.waiting > 0 && !w.ready && w.readySignals == 0 && w.awake == 0 ==> w.box.items == [] && !w.box.closed)
            && (w.pushersWaiting > 0 && !w.room && w.roomSignals == 0 && w.pushersAwake == 0 ==>
                w.box.items != [] || w.box.closed)
            && (forall i, j :: 0 <= i < j < |w.taken| ==> w.taken[i].number < w.taken[j].number)
            && |w.box.items| <= CAPACITY
            && w.box.dropped == w.refused + w.evicted
            && w.accepted == |w.taken| + |w.box.items| + w.evicted
  {
    Reached(policy, run);
    var w := After(policy, run);
    forall i, j | 0 <= i < j < |w.taken|
      ensures w.taken[i].number < w.taken[j].number
    {
      assert (w.taken + w.box.items)[i] == w.taken[i] && (w.taken + w.box.items)[j] == w.taken[j];
    }
  }

  // --------------------------------------------------------- pushers left waiting

  /** A pusher waits although its wait is over, there being room or no inbox to wait for, and nothing is under way that
      wakes it. */
  predicate Stranded(w: World) {
    && w.pushersWaiting > 0 && (|w.box.items| < CAPACITY || w.box.closed)
    && !w.room && w.roomSignals == 0 && w.pushersAwake == 0
  }

  /** When pushers become stranded: exactly when the only one woken, no further token or signal being left, tries again
      and is done while others wait, the inbox being closed or having room beyond its item. Its push passes the token
      on to nobody. */
  lemma StrandsIff(w: World, policy: Policy, step: Step)
    requires !Stranded(w) && |w.box.items| <= CAPACITY && PushersWaitFor(w, policy)
    ensures Stranded(Take(w, policy, step)) <==>
              && step.PushAgain? && w.pushersAwake == 1 && w.pushersWaiting > 0 && !w.room && w.roomSignals == 0
              && (w.box.closed || |w.box.items| + 1 < CAPACITY)
  {
  }

  /** Where pushers wait one at a time none is ever stranded. */
  lemma {:induction false} LonePusherHeard(policy: Policy, run: seq<Step>)
    requires forall t :: 0 <= t <= |run| ==>
               After(policy, run[..t]).pushersWaiting + After(policy, run[..t]).pushersAwake <= 1
    ensures !Stranded(After(policy, run))
  {
    if run != [] {
      var n := |run| - 1;
      forall t | 0 <= t <= n
        ensures run[..n][..t] == run[..t]
      {
      }
      LonePusherHeard(policy, run[..n]);
      Reached(policy, run[..n]);
      StrandsIff(After(policy, run[..n]), policy, run[n]);
      assert After(policy, run[..n]).pushersWaiting + After(policy, run[..n]).pushersAwake <= 1;
    }
  }

  function Filling(n: nat): seq<Step> { if n == 0 then [] else Filling(n - 1) + [Push(false)] }

  lemma {:induction false} Filled(n: nat)
    requires n <= CAPACITY
    ensures var w := After(WaitForRoom, Filling(n));
            && |w.box.items| == n && !w.box.closed && !w.room && w.roomSignals == 0
            && w.pushersAwake == 0 && w.pushersWaiting == 0
  {
    if n > 0 {
      Filled(n - 1);
      assert Filling(n)[..|Filling(n)| - 1] == Filling(n - 1);
    }
  }

  lemma {:induction false} AfterThen(policy: Policy, run: seq<Step>, step: Step)
    ensures After(policy, run + [step]) == Take(After(policy, run), policy, step)
  {
    assert (run + [step])[..|run|] == run;
  }

  /** Two pushers wait on a full inbox and it closes: one is woken and returns, and the other waits on. */
  lemma ClosedOnTwo(w: World)
    requires |w.box.items| == CAPACITY && !w.box.closed && !w.room && w.roomSignals == 0
    requires w.pushersAwake == 0 && w.pushersWaiting == 0
    ensures var both := Take(Take(w, WaitForRoom, Push(false)), WaitForRoom, Push(false));
            var closed := Take(Take(both, WaitForRoom, Close), WaitForRoom, SignalRoom);
            var after := Take(Take(closed, WaitForRoom, PusherWakes), WaitForRoom, PushAgain(false));
            Stranded(after) && after.box.closed
  {
  }

  /** Or two items are taken before either signal is sent: there is room for both pushers, one token, and the one it
      wakes leaves the other waiting. */
  lemma TakenFromTwo(w: World)
    requires |w.box.items| == CAPACITY && !w.box.closed && !w.room && w.roomSignals == 0 && w.awake >= 2
    requires w.pushersAwake == 0 && w.pushersWaiting == 2
    ensures var taken := Take(Take(w, WaitForRoom, LockNext), WaitForRoom, LockNext);
            var sent := Take(Take(taken, WaitForRoom, SignalRoom), WaitForRoom, SignalRoom);
            var after := Take(Take(sent, WaitForRoom, PusherWakes), WaitForRoom, PushAgain(false));
            Stranded(after) && !after.box.closed && |after.box.items| == CAPACITY - 1
  {
  }

  /** Such a close, in a run from an empty inbox that fills up. */
  lemma {:induction false} CloseStrands(full: nat, run: seq<Step>)
    requires full == CAPACITY
    requires run == Filling(full) + [Push(false)] + [Push(false)] + [Close] + [SignalRoom] + [PusherWakes]
                    + [PushAgain(false)]
    ensures Stranded(After(WaitForRoom, run)) && After(WaitForRoom, run).box.closed
  {
    Filled(full);
    ClosedOnTwo(After(WaitForRoom, Filling(full)));
    var one := Filling(full) + [Push(false)];
    AfterThen(WaitForRoom, Filling(full), Push(false));
    AfterThen(WaitForRoom, one, Push(false));
    AfterThen(WaitForRoom, one + [Push(false)], Close);
    AfterThen(WaitForRoom, one + [Push(false)] + [Close], SignalRoom);
    AfterThen(WaitForRoom, one + [Push(false)] + [Close] + [SignalRoom], PusherWakes);
    AfterThen(WaitForRoom, one + [Push(false)] + [Close] + [SignalRoom] + [PusherWakes], PushAgain(false));
  }

  // --------------------------------------------------------- what a policy loses

  ghost predicate NothingLost(w: World) {
    && w.evicted == 0
    && var line := w.taken + w.box.items;
       |line| == w.accepted && forall i :: 0 <= i < |line| ==> line[i].number == i
  }

  lemma {:induction false} NothingLostPush(w: World, policy: Policy, notice: bool)
    requires NothingLost(w) && !Evicts(w.box, policy, notice)
    ensures NothingLost(Pushes(w, policy, notice))
  {
    var v := Pushes(w, policy, notice);
    if PushOutcome(w.box, policy, notice) == Took {
      assert v.taken + v.box.items == w.taken + w.box.items + [Item(w.accepted, notice)];
    }
  }

  lemma {:induction false} NothingLostStep(w: World, policy: Policy, step: Step)
    requires NothingLost(w) && PushersWaitFor(w, policy)
    requires policy == WaitForRoom || (policy == DropNewest && !(step.Push? && step.notice))
    ensures NothingLost(Take(w, policy, step))
  {
    if step.Push? {
      NothingLostPush(w, policy, step.notice);
    } else if step.PushAgain? && w.pushersAwake > 0 {
      NothingLostPush(w.(pushersAwake := w.pushersAwake - 1), policy, step.notice);
    } else {
      assert Take(w, policy, step).taken + Take(w, policy, step).box.items == w.taken + w.box.items;
    }
  }

  /** Where pushers wait for room, and where the newest is dropped and no notice is pushed, every item an inbox took is
      handed over or still held, in order and without a hole. */
  lemma {:induction false} NoItemLost(policy: Policy, run: seq<Step>)
    requires policy == WaitForRoom || (policy == DropNewest && Push(true) !in run)
    ensures NothingLost(After(policy, run))
  {
    if run != [] {
      var n := |run| - 1;
      assert run[n] in run;
      assert forall s :: s in run[..n] ==> s in run;
      NoItemLost(policy, run[..n]);
      Reached(policy, run[..n]);
      NothingLostStep(After(policy, run[..n]), policy, run[n]);
    }
  }
}
