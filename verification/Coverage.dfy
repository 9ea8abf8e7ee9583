/** The links that carry a subscription, and the notices owed as that set empties and fills again. */
module Coverage {
  import opened Options

  type Link = nat

  /** A notice: interrupted, or a gap with when it ended. */
  datatype Notice = Interrupted(from: nat, reason: string) | Gap(from: nat, to: nat, reason: string)

  datatype Cover = Cover(links: set<Link>, heard: nat, interrupted: bool, from: nat, reason: string)

  const Empty := Cover({}, 0, false, 0, "")

  /** What happens to the set: a station accepts the subscription on a link, or a link ends. */
  datatype Change = Accepts(link: Link, now: nat) | Ends(link: Link, heard: nat, reason: string)

  function Later(a: nat, b: nat): nat { if a > b then a else b }

  function Next(c: Cover, change: Change): Cover {
    match change
    case Accepts(link, _) =>
      if c.interrupted then c.(links := c.links + {link}, interrupted := false, heard := 0)
      else c.(links := c.links + {link})
    case Ends(link, heard, reason) =>
      if link !in c.links then c
      else
        var left, latest := c.links - {link}, Later(c.heard, heard);
        if left != {} then c.(links := left, heard := latest) else Cover(left, latest, true, latest, reason)
  }

  function Owed(c: Cover, change: Change): Option<Notice> {
    match change
    case Accepts(_, now) => if c.interrupted then Some(Gap(c.from, now, c.reason)) else None
    case Ends(link, heard, reason) =>
      if c.links == {link} then Some(Interrupted(Later(c.heard, heard), reason)) else None
  }

  /** coverage, as its methods update it. */
  class Coverage {
    var links: set<Link>
    var heard: nat
    var interrupted: bool
    var from: nat
    var reason: string

    ghost function State(): Cover
      reads this
    {
      Cover(links, heard, interrupted, from, reason)
    }

    constructor ()
      ensures State() == Empty
    {
      links, heard, interrupted, from, reason := {}, 0, false, 0, "";
    }

    method Covers(link: Link, now: nat) returns (owed: Option<Notice>)
      modifies this
      ensures State() == Next(old(State()), Accepts(link, now)) && owed == Owed(old(State()), Accepts(link, now))
    {
      links := links + {link};
      if !interrupted {
        return None;
      }
      interrupted, heard := false, 0;
      return Some(Gap(from, now, reason));
    }

    method Ended(link: Link, heardMs: nat, why: string) returns (owed: Option<Notice>)
      modifies this
      ensures State() == Next(old(State()), Ends(link, heardMs, why))
      ensures owed == Owed(old(State()), Ends(link, heardMs, why))
    {
      if link !in links {
        return None;
      }
      links := links - {link};
      heard := Later(heard, heardMs);
      if links != {} {
        assert old(links) != {link};
        return None;
      }
      assert old(links) == {link};
      interrupted, from, reason := true, heard, why;
      return Some(Interrupted(from, why));
    }
  }

  // -------------------------------------------------------------------------- runs

  function After(run: seq<Change>): Cover {
    if run == [] then Empty else Next(After(run[..|run| - 1]), run[|run| - 1])
  }

  function Owing(o: Option<Notice>): seq<Notice> { if o.Some? then [o.value] else [] }

  /** The notices of a run, in order. */
  function Notices(run: seq<Change>): seq<Notice> {
    if run == [] then [] else Notices(run[..|run| - 1]) + Owing(Owed(After(run[..|run| - 1]), run[|run| - 1]))
  }

  /** Interrupted and Gap in turn, Interrupted first, each Gap repeating the start and reason of the one before. */
  ghost predicate Alternate(ns: seq<Notice>) {
    forall i :: 0 <= i < |ns| ==>
      && (ns[i].Interrupted? <==> i % 2 == 0)
      && (i % 2 == 1 ==> ns[i].from == ns[i - 1].from && ns[i].reason == ns[i - 1].reason)
  }

  predicate Covered(run: seq<Change>) { exists i :: 0 <= i < |run| && run[i].Accepts? }

  /** Where the set and its notices stand: interrupted means an Interrupted is out and no Gap after it, and the set is
      empty; and it is empty only then, or before any link was accepted. */
  ghost predicate Matches(c: Cover, ns: seq<Notice>, covered: bool) {
    && Alternate(ns)
    && (c.interrupted <==> |ns| % 2 == 1)
    && (c.interrupted ==> ns[|ns| - 1].from == c.from && ns[|ns| - 1].reason == c.reason)
    && (c.links == {} <==> c.interrupted || !covered)
    && (!covered ==> !c.interrupted)
  }

  lemma MatchesAccepts(c: Cover, ns: seq<Notice>, covered: bool, change: Change)
    requires Matches(c, ns, covered) && change.Accepts?
    ensures Matches(Next(c, change), ns + Owing(Owed(c, change)), true)
  {
    assert change.link in Next(c, change).links;
  }

  lemma MatchesEnds(c: Cover, ns: seq<Notice>, covered: bool, change: Change)
    requires Matches(c, ns, covered) && change.Ends?
    ensures Matches(Next(c, change), ns + Owing(Owed(c, change)), covered)
  {
    if change.link in c.links {
      assert c.links == {change.link} <==> c.links - {change.link} == {};
    }
  }

  lemma {:induction false} CoveredStep(run: seq<Change>, n: nat)
    requires |run| == n + 1
    ensures Covered(run) <==> Covered(run[..n]) || run[n].Accepts?
  {
    if Covered(run[..n]) {
      var i :| 0 <= i < |run[..n]| && run[..n][i].Accepts?;
      assert run[i].Accepts?;
    }
    if Covered(run) && !run[n].Accepts? {
      var i :| 0 <= i < |run| && run[i].Accepts?;
      assert run[..n][i].Accepts?;
    }
  }

  /** Over every run of links accepting and ending. */
  lemma {:induction false} NoticesAlternate(run: seq<Change>)
    ensures Matches(After(run), Notices(run), Covered(run))
  {
    if run != [] {
      var n := |run| - 1;
      NoticesAlternate(run[..n]);
      CoveredStep(run, n);
      if run[n].Accepts? {
        MatchesAccepts(After(run[..n]), Notices(run[..n]), Covered(run[..n]), run[n]);
      } else {
        MatchesEnds(After(run[..n]), Notices(run[..n]), Covered(run[..n]), run[n]);
      }
    }
  }

  /** So a notice comes exactly when the set empties or fills again: an Interrupted as the last link ends, a Gap as a
      link is accepted where an Interrupted was owed before, and neither while a link stays in the set. */
  lemma {:induction false} NoticeIffSetTurns(run: seq<Change>, change: Change)
    ensures var c := After(run);
            var d := Next(c, change);
            && (Owed(c, change).Some? && Owed(c, change).value.Interrupted? <==> c.links != {} && d.links == {})
            && (Owed(c, change).Some? && Owed(c, change).value.Gap? <==> c.links == {} && d.links != {} && Covered(run))
  {
    NoticesAlternate(run);
    var c := After(run);
    if change.Accepts? {
      assert change.link in Next(c, change).links;
    } else if change.link in c.links {
      assert c.links == {change.link} <==> c.links - {change.link} == {};
    }
  }

  // ------------------------------------------------------- what an Interrupted says

  /** Step `i` of the run removed a link from the set. */
  predicate Removes(run: seq<Change>, i: nat)
    requires i < |run|
  {
    run[i].Ends? && run[i].link in After(run[..i]).links
  }

  /** Nothing between `i` and `j` filled the set again after it had emptied. */
  predicate SameSpell(run: seq<Change>, i: nat, j: nat)
    requires j <= |run|
  {
    forall k :: i <= k < j ==> !(run[k].Accepts? && After(run[..k]).interrupted)
  }

  lemma AfterStep(run: seq<Change>, t: nat)
    requires t < |run|
    ensures After(run[..t + 1]) == Next(After(run[..t]), run[t])
  {
    assert run[..t + 1][..t] == run[..t];
  }

  /** Every link that left the set since it last filled again was last heard no later than `heard` says. */
  lemma {:induction false} HeardIsLatest(run: seq<Change>, i: nat, j: nat)
    requires i < j <= |run| && Removes(run, i) && SameSpell(run, i, j)
    ensures After(run[..j]).heard >= run[i].heard
    decreases j
  {
    AfterStep(run, j - 1);
    if j > i + 1 {
      HeardIsLatest(run, i, j - 1);
    }
  }

  /** And one of them was last heard exactly then. */
  lemma {:induction false} HeardFrom(run: seq<Change>, j: nat) returns (i: nat)
    requires 0 < j <= |run| && After(run[..j]).heard > 0
    ensures i < j && Removes(run, i) && SameSpell(run, i, j) && run[i].heard == After(run[..j]).heard
    decreases j
  {
    AfterStep(run, j - 1);
    if Removes(run, j - 1) && run[j - 1].heard == After(run[..j]).heard {
      i := j - 1;
    } else {
      assert After(run[..j - 1]).heard == After(run[..j]).heard;
      i := HeardFrom(run, j - 1);
    }
  }

  /** An Interrupted starts at the latest moment any link that left the set, since it last filled, heard from its
      station: no link heard later, and when it is not zero one heard just then. */
  lemma {:induction false} InterruptedFromLatest(run: seq<Change>, n: nat)
    requires n < |run| && Owed(After(run[..n]), run[n]).Some? && run[n].Ends?
    ensures var from := Owed(After(run[..n]), run[n]).value.from;
            && (forall i :: 0 <= i <= n && Removes(run, i) && SameSpell(run, i, n + 1) ==> run[i].heard <= from)
            && (from > 0 ==>
                  exists i :: 0 <= i <= n && Removes(run, i) && SameSpell(run, i, n + 1) && run[i].heard == from)
  {
    AfterStep(run, n);
    forall i | 0 <= i <= n && Removes(run, i) && SameSpell(run, i, n + 1)
      ensures run[i].heard <= After(run[..n + 1]).heard
    {
      HeardIsLatest(run, i, n + 1);
    }
    if After(run[..n + 1]).heard > 0 {
      var i := HeardFrom(run, n + 1);
    }
  }
}
