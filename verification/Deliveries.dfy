/** A subscription's bounded queues: events dropped and counted when one is full, notices that make their own room.
    What holds the subscription's lock is one step; a notice being pushed is several, with the consumer and the
    opener taking from the channels between them. */
module Deliveries {
  import opened Options

  const BUFFER := 256

  /** An event, or a notice that some may have been missed, by the order it entered the subscription. */
  datatype Delivery = Delivery(number: nat, notice: bool)

  /** Which channel a notice goes to: a group's deliveries pass through `Opening` first. */
  datatype Stage = Opening | Events

  /** A notice being pushed under the lock, and whether its channel was just found full. */
  datatype Pushing = Pushing(stage: Stage, d: Delivery, full: bool)

  /** `inHand` is what the opener took and has not passed on; `taken` what the consumer received; `lost` the notices
      evicted; `entered` numbers all deliveries, and `forwarded` counts the events among them. */
  datatype Sub = Sub(
    grouped: bool, opening: seq<Delivery>, inHand: Option<Delivery>, events: seq<Delivery>, pushing: Option<Pushing>,
    dropped: nat, refused: nat, taken: seq<Delivery>, lost: seq<Delivery>, entered: nat, forwarded: nat,
    newest: Option<nat>)

  function Fresh(grouped: bool): Sub { Sub(grouped, [], None, [], None, 0, 0, [], [], 0, 0, None) }

  datatype Step =
    | Hears(kept: bool)      // an event from a link: queued for the opener, or opened and delivered
    | Notifies               // a notice begins to be pushed
    | Sends                  // its push tries to send
    | Evicts                 // and gives up the oldest delivery when its channel was full
    | OpenerTakes            // the opener receives
    | OpenerSettles(kept: bool)   // and delivers the event it opened, or begins to push the notice on
    | ConsumerTakes          // the consumer receives

  function QueueEvent(s: Sub, d: Delivery): Sub {
    if |s.events| < BUFFER then s.(events := s.events + [d]) else s.(dropped := s.dropped + 1)
  }

  /** queue and deliver, of an event that enters now. */
  function Heard(s: Sub, kept: bool): Sub {
    var d := Delivery(s.entered, false);
    var t := s.(entered := s.entered + 1, forwarded := s.forwarded + 1);
    if s.grouped then
      if |s.opening| < BUFFER then t.(opening := s.opening + [d]) else t.(dropped := s.dropped + 1)
    else if kept then QueueEvent(t, d)
    else t.(refused := s.refused + 1)
  }

  function Settled(s: Sub, kept: bool): Sub
    requires s.inHand.Some?
  {
    var d, t := s.inHand.value, s.(inHand := None);
    if d.notice then t.(pushing := Some(Pushing(Events, d, false)))
    else if kept then QueueEvent(t, d)
    else t.(refused := s.refused + 1)
  }

  function Channel(s: Sub, stage: Stage): seq<Delivery> { if stage == Opening then s.opening else s.events }

  function WithChannel(s: Sub, stage: Stage, ch: seq<Delivery>): Sub {
    if stage == Opening then s.(opening := ch) else s.(events := ch)
  }

  /** push's first select. */
  function Sent(s: Sub): Sub
    requires s.pushing.Some?
  {
    var p := s.pushing.value;
    var ch := Channel(s, p.stage);
    if |ch| < BUFFER then WithChannel(s, p.stage, ch + [p.d]).(pushing := None)
    else s.(pushing := Some(p.(full := true)))
  }

  /** push's second select: a channel emptied meanwhile gives nothing up. */
  function Evicted(s: Sub): Sub
    requires s.pushing.Some?
  {
    var p := s.pushing.value;
    var ch := Channel(s, p.stage);
    var t := s.(pushing := Some(p.(full := false)));
    if ch == [] then t
    else if ch[0].notice then WithChannel(t, p.stage, ch[1..]).(lost := s.lost + [ch[0]])
    else WithChannel(t, p.stage, ch[1..]).(dropped := s.dropped + 1)
  }

  /** The opener waits to receive: it holds nothing and is not pushing a notice on. */
  predicate OpenerFree(s: Sub) { s.inHand.None? && !(s.grouped && s.pushing.Some? && s.pushing.value.stage == Events) }

  /** One step; what needs the lock waits while a push holds it. */
  function Next(s: Sub, step: Step): Sub {
    match step
    case Hears(kept) => if s.pushing.Some? then s else Heard(s, kept)
    case Notifies =>
      if s.pushing.Some? then s
      else
        s.(pushing := Some(Pushing(if s.grouped then Opening else Events, Delivery(s.entered, true), false)),
           entered := s.entered + 1, newest := Some(s.entered))
    case Sends => if s.pushing.Some? && !s.pushing.value.full then Sent(s) else s
    case Evicts => if s.pushing.Some? && s.pushing.value.full then Evicted(s) else s
    case OpenerTakes =>
      if OpenerFree(s) && s.opening != [] then s.(inHand := Some(s.opening[0]), opening := s.opening[1..]) else s
    case OpenerSettles(kept) => if s.pushing.Some? || s.inHand.None? then s else Settled(s, kept)
    case ConsumerTakes => if s.events != [] then s.(taken := s.taken + [s.events[0]], events := s.events[1..]) else s
  }

  function After(grouped: bool, run: seq<Step>): Sub {
    if run == [] then Fresh(grouped) else Next(After(grouped, run[..|run| - 1]), run[|run| - 1])
  }

  // ---------------------------------------------------------------- where everything is

  function InHand(s: Sub): seq<Delivery> { if s.inHand.Some? then [s.inHand.value] else [] }

  function Pushed(s: Sub, stage: Stage): seq<Delivery> {
    if s.pushing.Some? && s.pushing.value.stage == stage then [s.pushing.value.d] else []
  }

  /** Everything that entered and is neither dropped, refused nor lost, in the order it will be received. */
  function Line(s: Sub): seq<Delivery> {
    s.taken + s.events + Pushed(s, Events) + InHand(s) + s.opening + Pushed(s, Opening)
  }

  function EventsIn(ds: seq<Delivery>): nat {
    if ds == [] then 0 else (if ds[0].notice then 0 else 1) + EventsIn(ds[1..])
  }

  lemma {:induction false} EventsConcat(a: seq<Delivery>, b: seq<Delivery>)
    ensures EventsIn(a + b) == EventsIn(a) + EventsIn(b)
  {
    if a == [] {
      assert a + b == b;
    } else {
      EventsConcat(a[1..], b);
      assert (a + b)[1..] == a[1..] + b;
    }
  }

  /** Every event is in exactly one place: received, on its way, counted dropped or counted refused. */
  ghost predicate Conserved(s: Sub) { s.forwarded == EventsIn(Line(s)) + s.dropped + s.refused }

  ghost predicate Ascending(ds: seq<Delivery>) { forall i, j :: 0 <= i < j < |ds| ==> ds[i].number < ds[j].number }

  /** Along the line numbers rise; the newest notice is on its way or received, and every notice lost is older. */
  ghost predicate GoodLine(line: seq<Delivery>, entered: nat, newest: Option<nat>, lost: seq<Delivery>) {
    && Ascending(line) && (forall d :: d in line ==> d.number < entered)
    && (newest.Some? ==> newest.value < entered && Delivery(newest.value, true) in line)
    && (forall d :: d in lost ==> newest.Some? && d.number < newest.value)
    && (forall d :: d in line && d.notice ==> newest.Some? && d.number <= newest.value)
  }

  ghost predicate Shaped(s: Sub) {
    && |s.opening| <= BUFFER && |s.events| <= BUFFER
    && (!s.grouped ==> s.opening == [] && s.inHand.None?)
    && (s.pushing.Some? ==> s.pushing.value.d.notice)
    && (s.pushing.Some? && s.pushing.value.stage == Opening ==> s.grouped)
    && (s.pushing.Some? && s.pushing.value.stage == Events ==> s.inHand.None?)
  }

  ghost predicate Inv(s: Sub) { Shaped(s) && Conserved(s) && GoodLine(Line(s), s.entered, s.newest, s.lost) }

  lemma ShapedStep(s: Sub, step: Step)
    requires Shaped(s)
    ensures Shaped(Next(s, step))
  {
  }

  // ------------------------------------------------------- what a step does to the line

  /** Deliveries only join the line at its end, leave it where they stand, or stay. */
  datatype Effect = Same | Joins(d: Delivery) | Leaves(at: nat)

  /** Where a channel's oldest delivery stands in the line. */
  function OldestAt(s: Sub, stage: Stage): nat {
    if stage == Opening then |s.taken| + |s.events| + |InHand(s)| else |s.taken|
  }

  function EffectOf(s: Sub, step: Step): Effect {
    match step
    case Hears(kept) =>
      if s.pushing.Some? || |if s.grouped then s.opening else s.events| >= BUFFER || (!s.grouped && !kept) then Same
      else Joins(Delivery(s.entered, false))
    case Notifies => if s.pushing.Some? then Same else Joins(Delivery(s.entered, true))
    case Evicts =>
      if s.pushing.None? || !s.pushing.value.full || Channel(s, s.pushing.value.stage) == [] then Same
      else Leaves(OldestAt(s, s.pushing.value.stage))
    case OpenerSettles(kept) =>
      if s.pushing.Some? || s.inHand.None? || s.inHand.value.notice || (kept && |s.events| < BUFFER) then Same
      else Leaves(|s.taken| + |s.events|)
    case _ => Same
  }

  function Applied(line: seq<Delivery>, e: Effect): seq<Delivery>
    requires e.Leaves? ==> e.at < |line|
  {
    match e
    case Same => line
    case Joins(d) => line + [d]
    case Leaves(at) => line[..at] + line[at + 1..]
  }

  lemma {:induction false} LineOnHear(s: Sub, kept: bool)
    requires Shaped(s) && s.pushing.None?
    ensures Line(Heard(s, kept)) == Applied(Line(s), EffectOf(s, Hears(kept)))
  {
    var d := Delivery(s.entered, false);
    LineAtRest(s);
    LineAtRest(Heard(s, kept));
    if s.grouped {
      var front := s.taken + s.events + InHand(s);
      assert front + (s.opening + [d]) == front + s.opening + [d];
    } else {
      assert s.taken + (s.events + [d]) + [] + [] == s.taken + s.events + [] + [] + [d];
    }
  }

  lemma {:induction false} LineOnNotify(s: Sub)
    requires Shaped(s) && s.pushing.None?
    ensures Line(Next(s, Notifies)) == Line(s) + [Delivery(s.entered, true)]
  {
    LineAtRest(s);
    if s.grouped {
      LineWhenOpening(Next(s, Notifies));
    } else {
      LineWhenEvents(Next(s, Notifies));
    }
  }

  lemma DropMiddle(a: seq<Delivery>, b: seq<Delivery>, c: seq<Delivery>)
    requires b != []
    ensures a + b[1..] + c == (a + b + c)[..|a|] + (a + b + c)[|a| + 1..]
  {
  }

  lemma MoveOver(a: seq<Delivery>, b: seq<Delivery>, c: seq<Delivery>)
    requires b != []
    ensures a + [b[0]] + b[1..] + c == a + b + c
  {
    assert b == [b[0]] + b[1..];
  }

  lemma {:induction false} LineOnSend(s: Sub)
    requires Shaped(s) && s.pushing.Some?
    ensures Line(Sent(s)) == Line(s)
  {
    var p, t := s.pushing.value, Sent(s);
    if |Channel(s, p.stage)| < BUFFER {
      if p.stage == Events {
        assert s.taken + (s.events + [p.d]) + [] + InHand(s) == s.taken + s.events + [p.d] + InHand(s);
      } else {
        var front := s.taken + s.events + [] + InHand(s);
        assert front + (s.opening + [p.d]) + [] == front + s.opening + [p.d];
      }
    }
  }

  lemma {:induction false} LineOnEvictEvents(s: Sub)
    requires Shaped(s) && s.pushing.Some? && s.pushing.value.stage == Events && s.events != []
    ensures |s.taken| < |Line(s)| && Line(Evicted(s)) == Line(s)[..|s.taken|] + Line(s)[|s.taken| + 1..]
  {
    var d := s.pushing.value.d;
    DropMiddle(s.taken, s.events, [d] + s.opening);
    LineWhenEvents(s);
    LineWhenEvents(Evicted(s));
  }

  lemma LineWhenEvents(s: Sub)
    requires Shaped(s) && s.pushing.Some? && s.pushing.value.stage == Events
    ensures Line(s) == s.taken + s.events + ([s.pushing.value.d] + s.opening)
  {
  }

  lemma LineWhenOpening(s: Sub)
    requires Shaped(s) && s.pushing.Some? && s.pushing.value.stage == Opening
    ensures Line(s) == s.taken + s.events + InHand(s) + s.opening + [s.pushing.value.d]
  {
    assert s.taken + s.events + [] == s.taken + s.events;
  }

  lemma {:induction false} LineOnEvictOpening(s: Sub)
    requires Shaped(s) && s.pushing.Some? && s.pushing.value.stage == Opening && s.opening != []
    ensures var at := |s.taken| + |s.events| + |InHand(s)|;
            at < |Line(s)| && Line(Evicted(s)) == Line(s)[..at] + Line(s)[at + 1..]
  {
    DropMiddle(s.taken + s.events + InHand(s), s.opening, [s.pushing.value.d]);
    LineWhenOpening(s);
    LineWhenOpening(Evicted(s));
  }

  lemma {:induction false} LineOnEvict(s: Sub)
    requires Shaped(s) && s.pushing.Some? && s.pushing.value.full
    ensures EffectOf(s, Evicts).Leaves? ==> EffectOf(s, Evicts).at < |Line(s)|
    ensures Line(Evicted(s)) == Applied(Line(s), EffectOf(s, Evicts))
  {
    if s.pushing.value.stage == Events && s.events != [] {
      LineOnEvictEvents(s);
      assert EffectOf(s, Evicts) == Leaves(|s.taken|);
    } else if s.pushing.value.stage == Opening && s.opening != [] {
      LineOnEvictOpening(s);
      assert EffectOf(s, Evicts) == Leaves(|s.taken| + |s.events| + |InHand(s)|);
    } else {
      assert EffectOf(s, Evicts) == Same;
      StillSameLine(s);
    }
  }

  lemma StillSameLine(s: Sub)
    requires s.pushing.Some? && Channel(s, s.pushing.value.stage) == []
    ensures Line(Evicted(s)) == Line(s)
  {
  }

  lemma {:induction false} LineOnOpenerTake(s: Sub)
    requires Shaped(s)
    ensures Line(Next(s, OpenerTakes)) == Line(s)
  {
    var t := Next(s, OpenerTakes);
    if t != s {
      var front := s.taken + s.events + Pushed(s, Events);
      MoveOver(front, s.opening, Pushed(s, Opening));
      assert front + [] == front;
    }
  }

  lemma {:induction false} LineOnConsumerTake(s: Sub)
    requires Shaped(s)
    ensures Line(Next(s, ConsumerTakes)) == Line(s)
  {
    if s.events != [] {
      MoveOver(s.taken, s.events, []);
      assert s.taken + s.events == s.taken + [s.events[0]] + s.events[1..];
    }
  }

  lemma {:induction false} LineOnSettle(s: Sub, kept: bool)
    requires Shaped(s) && s.pushing.None? && s.inHand.Some?
    ensures EffectOf(s, OpenerSettles(kept)).Leaves? ==> EffectOf(s, OpenerSettles(kept)).at < |Line(s)|
    ensures Line(Settled(s, kept)) == Applied(Line(s), EffectOf(s, OpenerSettles(kept)))
  {
    var d := s.inHand.value;
    LineAtRest(s);
    if d.notice {
      LineWhenEvents(Settled(s, kept));
      assert s.taken + s.events + [d] + s.opening == s.taken + s.events + ([d] + s.opening);
    } else if kept && |s.events| < BUFFER {
      LineAtRest(Settled(s, kept));
      assert s.taken + (s.events + [d]) + [] == s.taken + s.events + [d];
    } else {
      LineAtRest(Settled(s, kept));
      DropMiddle(s.taken + s.events, [d], s.opening);
    }
  }

  lemma LineAtRest(s: Sub)
    requires s.pushing.None?
    ensures Line(s) == s.taken + s.events + InHand(s) + s.opening
  {
    assert s.taken + s.events + [] == s.taken + s.events;
  }

  lemma {:induction false} LineStep(s: Sub, step: Step)
    requires Shaped(s)
    ensures EffectOf(s, step).Leaves? ==> EffectOf(s, step).at < |Line(s)|
    ensures Line(Next(s, step)) == Applied(Line(s), EffectOf(s, step))
  {
    if step.Hears? && s.pushing.None? {
      LineOnHear(s, step.kept);
    } else if step.Notifies? && s.pushing.None? {
      LineOnNotify(s);
    } else if step.Sends? && s.pushing.Some? {
      LineOnSend(s);
    } else if step.Evicts? && s.pushing.Some? && s.pushing.value.full {
      LineOnEvict(s);
    } else if step.OpenerTakes? {
      LineOnOpenerTake(s);
    } else if step.ConsumerTakes? {
      LineOnConsumerTake(s);
    } else if step.OpenerSettles? && s.pushing.None? && s.inHand.Some? {
      LineOnSettle(s, step.kept);
    }
  }

  // ---------------------------------------------------------------- every step, every run

  lemma {:induction false} EventsWithout(line: seq<Delivery>, at: nat)
    requires at < |line|
    ensures EventsIn(line[..at] + line[at + 1..]) + (if line[at].notice then 0 else 1) == EventsIn(line)
  {
    EventsConcat(line[..at], line[at + 1..]);
    EventsConcat(line[..at], line[at..]);
    assert line[..at] + line[at..] == line;
    assert line[at..][1..] == line[at + 1..];
  }

  lemma WithoutAscends(line: seq<Delivery>, at: nat)
    requires Ascending(line) && at < |line|
    ensures Ascending(line[..at] + line[at + 1..])
    ensures forall d :: d in line[..at] + line[at + 1..] <==> d in line && d != line[at]
  {
    var rest := line[..at] + line[at + 1..];
    assert forall i :: 0 <= i < |rest| ==> rest[i] == line[if i < at then i else i + 1];
    forall d | d in line && d != line[at]
      ensures d in rest
    {
      var k :| 0 <= k < |line| && line[k] == d;
      assert d == rest[if k < at then k else k - 1];
    }
  }

  /** What leaves the line: an event, counted as it goes, or a notice evicted by one that entered after it. */
  lemma {:induction false} WhatLeaves(s: Sub, step: Step)
    requires Shaped(s) && Ascending(Line(s)) && EffectOf(s, step).Leaves? && EffectOf(s, step).at < |Line(s)|
    ensures var d, t := Line(s)[EffectOf(s, step).at], Next(s, step);
            && (!d.notice ==> t.dropped + t.refused == s.dropped + s.refused + 1 && t.lost == s.lost)
            && (d.notice ==>
                  && t.dropped + t.refused == s.dropped + s.refused && t.lost == s.lost + [d]
                  && s.pushing.Some? && s.pushing.value.d in Line(s) && d.number < s.pushing.value.d.number)
  {
    var line := Line(s);
    var at := EffectOf(s, step).at;
    if step.OpenerSettles? {
      assert line[at] == s.inHand.value;
    } else {
      var p := s.pushing.value;
      assert line[at] == Channel(s, p.stage)[0];
      var after := at + |Channel(s, p.stage)|;
      assert line[after] == p.d;
    }
  }

  function EventIn(d: Delivery): nat { if d.notice then 0 else 1 }

  /** How a step's effect changes the events on the line. */
  function Gained(line: seq<Delivery>, e: Effect): int
    requires e.Leaves? ==> e.at < |line|
  {
    match e case Same => 0 case Joins(d) => EventIn(d) case Leaves(at) => 0 - EventIn(line[at])
  }

  lemma {:induction false} EventsApplied(line: seq<Delivery>, e: Effect)
    requires e.Leaves? ==> e.at < |line|
    ensures EventsIn(Applied(line, e)) == EventsIn(line) + Gained(line, e)
  {
    match e
    case Same =>
    case Joins(d) => EventsConcat(line, [d]);
    case Leaves(at) => EventsWithout(line, at);
  }

  lemma {:induction false} CountersStep(s: Sub, step: Step)
    requires Shaped(s) && Ascending(Line(s)) && (EffectOf(s, step).Leaves? ==> EffectOf(s, step).at < |Line(s)|)
    ensures var t := Next(s, step);
            t.forwarded - t.dropped - t.refused ==
                s.forwarded - s.dropped - s.refused + Gained(Line(s), EffectOf(s, step))
  {
    if EffectOf(s, step).Leaves? {
      WhatLeaves(s, step);
    }
  }

  lemma {:induction false} ConservedStep(s: Sub, step: Step)
    requires Inv(s)
    ensures Conserved(Next(s, step))
  {
    LineStep(s, step);
    CountersStep(s, step);
    EventsApplied(Line(s), EffectOf(s, step));
  }

  /** How the numbers go with an effect. */
  ghost predicate Goes(s: Sub, e: Effect, t: Sub, line: seq<Delivery>)
    requires e.Leaves? ==> e.at < |line|
  {
    match e
    case Same => s.entered <= t.entered && t.newest == s.newest && t.lost == s.lost
    case Joins(d) =>
      && d.number == s.entered && t.entered == s.entered + 1 && t.lost == s.lost
      && t.newest == if d.notice then Some(d.number) else s.newest
    case Leaves(at) =>
      && t.entered == s.entered && t.newest == s.newest
      && t.lost == (if line[at].notice then s.lost + [line[at]] else s.lost)
      && (line[at].notice ==> exists p :: p in line && p.notice && line[at].number < p.number)
  }

  lemma {:induction false} GoesOn(s: Sub, step: Step)
    requires Shaped(s) && Ascending(Line(s)) && (EffectOf(s, step).Leaves? ==> EffectOf(s, step).at < |Line(s)|)
    ensures Goes(s, EffectOf(s, step), Next(s, step), Line(s))
  {
    if EffectOf(s, step).Leaves? {
      WhatLeaves(s, step);
    }
  }

  lemma {:induction false} GoodLineJoins(line: seq<Delivery>, d: Delivery, entered: nat, newest: Option<nat>,
                                         lost: seq<Delivery>)
    requires GoodLine(line, entered, newest, lost) && d.number == entered
    ensures GoodLine(line + [d], entered + 1, if d.notice then Some(d.number) else newest, lost)
  {
    var more := line + [d];
    assert more[|line|] == d;
    assert forall x :: x in more <==> x in line || x == d;
  }

  lemma {:induction false} GoodLineLeaves(line: seq<Delivery>, at: nat, p: Delivery, entered: nat, newest: Option<nat>,
                                          lost: seq<Delivery>)
    requires GoodLine(line, entered, newest, lost) && at < |line|
    requires line[at].notice ==> p in line && p.notice && line[at].number < p.number
    ensures GoodLine(line[..at] + line[at + 1..], entered, newest, if line[at].notice then lost + [line[at]] else lost)
  {
    WithoutAscends(line, at);
  }

  lemma {:induction false} GoodLineGoes(s: Sub, e: Effect, t: Sub, line: seq<Delivery>)
    requires e.Leaves? ==> e.at < |line|
    requires GoodLine(line, s.entered, s.newest, s.lost) && Goes(s, e, t, line)
    ensures GoodLine(Applied(line, e), t.entered, t.newest, t.lost)
  {
    match e
    case Same =>
    case Joins(d) => GoodLineJoins(line, d, s.entered, s.newest, s.lost);
    case Leaves(at) =>
      if line[at].notice {
        var p :| p in line && p.notice && line[at].number < p.number;
        GoodLineLeaves(line, at, p, s.entered, s.newest, s.lost);
      } else {
        GoodLineLeaves(line, at, line[at], s.entered, s.newest, s.lost);
      }
  }

  lemma {:induction false} GoodLineStep(s: Sub, step: Step)
    requires Inv(s)
    ensures var t := Next(s, step); GoodLine(Line(t), t.entered, t.newest, t.lost)
  {
    LineStep(s, step);
    GoesOn(s, step);
    GoodLineGoes(s, EffectOf(s, step), Next(s, step), Line(s));
  }

  lemma {:induction false} Reached(grouped: bool, run: seq<Step>)
    ensures Inv(After(grouped, run))
  {
    if run != [] {
      var n := |run| - 1;
      Reached(grouped, run[..n]);
      ShapedStep(After(grouped, run[..n]), run[n]);
      ConservedStep(After(grouped, run[..n]), run[n]);
      GoodLineStep(After(grouped, run[..n]), run[n]);
    }
  }

  lemma TakenFirst(s: Sub)
    ensures |s.taken| <= |Line(s)| && Line(s) == s.taken + Line(s)[|s.taken|..]
  {
  }

  lemma {:induction false} FrontAscends(line: seq<Delivery>, front: seq<Delivery>, back: seq<Delivery>)
    requires Ascending(line) && line == front + back
    ensures Ascending(front)
  {
    assert forall i :: 0 <= i < |front| ==> line[i] == front[i];
  }

  /** At every moment of every run until the subscription ends: each event forwarded is received, on its way, counted
      dropped or counted refused, and one of these only; what is received comes in the order it entered; the newest
      notice is received or on its way, so a notice is lost only to a newer one; and no channel overflows. */
  lemma {:induction false} SubscriptionHolds(grouped: bool, run: seq<Step>)
    ensures var s := After(grouped, run);
            && |s.taken| <= |Line(s)|
            && s.forwarded == EventsIn(s.taken) + EventsIn(Line(s)[|s.taken|..]) + s.dropped + s.refused
            && Ascending(s.taken)
            && (s.newest.Some? ==> Delivery(s.newest.value, true) in Line(s))
            && (forall d :: d in s.lost ==> s.newest.Some? && d.number < s.newest.value)
            && |s.events| <= BUFFER && |s.opening| <= BUFFER
  {
    Reached(grouped, run);
    InvSays(After(grouped, run));
  }

  lemma {:induction false} InvSays(s: Sub)
    requires Inv(s)
    ensures |s.taken| <= |Line(s)| && Ascending(s.taken)
    ensures s.forwarded == EventsIn(s.taken) + EventsIn(Line(s)[|s.taken|..]) + s.dropped + s.refused
  {
    TakenFirst(s);
    EventsConcat(s.taken, Line(s)[|s.taken|..]);
    FrontAscends(Line(s), s.taken, Line(s)[|s.taken|..]);
  }

  // ------------------------------------------------------------------- the methods

  /** A subscription with no group, as its methods update it when nothing comes between. */
  class Subscription {
    var events: seq<Delivery>
    var dropped: nat
    var refused: nat
    var ended: bool

    ghost predicate Valid()
      reads this
    {
      |events| <= BUFFER
    }

    constructor ()
      ensures Valid() && events == [] && dropped == 0 && refused == 0 && !ended
    {
      events, dropped, refused, ended := [], 0, 0, false;
    }

    method Queue(d: Delivery)
      requires Valid()
      modifies this`events, this`dropped
      ensures Valid()
      ensures events == if old(ended) || |old(events)| == BUFFER then old(events) else old(events) + [d]
      ensures dropped == old(dropped) + if !old(ended) && |old(events)| == BUFFER then 1 else 0
    {
      if ended {
        return;
      }
      if |events| < BUFFER {
        events := events + [d];
      } else {
        dropped := dropped + 1;
      }
    }

    method Deliver(d: Delivery, kept: bool)
      requires Valid()
      modifies this`events, this`dropped, this`refused
      ensures Valid()
      ensures events == if !kept || old(ended) || |old(events)| == BUFFER then old(events) else old(events) + [d]
      ensures dropped == old(dropped) + if kept && !old(ended) && |old(events)| == BUFFER then 1 else 0
      ensures refused == old(refused) + if kept then 0 else 1
    {
      if !kept {
        refused := refused + 1;
        return;
      }
      Queue(d);
    }

    /** push's loop: the notice always gets in, at the cost of the oldest delivery alone. */
    method Push(d: Delivery)
      requires Valid()
      modifies this`events, this`dropped
      ensures Valid()
      ensures events == (if |old(events)| < BUFFER then old(events) else old(events)[1..]) + [d]
      ensures dropped == old(dropped) + if |old(events)| < BUFFER || old(events)[0].notice then 0 else 1
    {
      while true
        invariant Valid()
        invariant |events| == BUFFER || |old(events)| < BUFFER ==> events == old(events) && dropped == old(dropped)
        invariant |events| < BUFFER == |old(events)| ==>
            events == old(events)[1..] && dropped == old(dropped) + if old(events)[0].notice then 0 else 1
        decreases |events|
      {
        if |events| < BUFFER {
          events := events + [d];
          return;
        }
        var evicted := events[0];
        events := events[1..];
        if !evicted.notice {
          dropped := dropped + 1;
        }
      }
    }
  }

  /** Those methods are the steps of a run that nothing interrupts. */
  lemma {:induction false} PushIsSteps(s: Sub)
    requires Inv(s) && !s.grouped && s.pushing.None?
    ensures var d := Delivery(s.entered, true);
            var begun := Next(s, Notifies);
            var t := if |s.events| < BUFFER then Next(begun, Sends) else Next(Next(Next(begun, Sends), Evicts), Sends);
            && t.pushing.None?
            && t.events == (if |s.events| < BUFFER then s.events else s.events[1..]) + [d]
            && t.dropped == s.dropped + if |s.events| < BUFFER || s.events[0].notice then 0 else 1
  {
  }
}
