/** One pool call: which provider it goes to, what is sent there and how sealed, and what is reported. The network's
    answers, the lookups and the clocks are an environment that may answer anything. */
module PoolCall {
  import opened Options
  import opened Bytes

  datatype Confidentiality = Preferred | Required | Off

  /** A trusted advertisement: its provider, serving station, expiry, and the KEM key it names. */
  datatype Candidate = Candidate(node: bytes, station: bytes, expiresAt: int, kemKey: Option<bytes>, kemKeyId: bytes)

  /** A CALL that went out: to whom, and the key it was sealed to, none for the clear. */
  datatype Send = Send(node: bytes, sealTo: Option<bytes>)

  datatype Code = SealedRequired | SealedRefusedCode | ClosedSet | OtherCode

  /** A sealed answer: the key id it names, whether this node knows its scheme, and whether it opens under that key
      to a well-formed answer; the code inside an opened error. */
  datatype Body = Body(keyId: bytes, knownScheme: bool, opens: bool, code: Code)

  /** A reply that verified for its request: a result or an error, clear or sealed, the key id a sealed_refused
      names, and the KEM key its signed extensions carry. */
  datatype Reply = Reply(isResult: bool, code: Code, named: Option<bytes>, carried: Option<bytes>, sealed: Option<Body>)

  /** What becomes of a CALL: refused before it is written, no verified reply in time, a relay error, or a reply. */
  datatype Answer = NotWritten | NoReply | Relayed | Answered(reply: Reply)

  datatype Reason = NoKemKey | KeyMismatch | ReplyNotOpened | NoSignedState

  datatype Outcome =
    | Result
    | ProviderError(code: Code, carried: Option<bytes>)
    | SealedRefused(named: Option<bytes>)
    | NotConfidential(why: Reason)
    | ClearAnswerToSealed
    | SealedAndClear
    | Failed

  /** Everything outside the call: the answer to the n-th CALL, the key sizes and ids, a fresh lookup's candidates,
      and whether the deadline has passed when it is looked at. */
  datatype Env = Env(answer: nat -> Answer, carriedSize: nat, keyId: bytes -> bytes, lookup: seq<Candidate>,
                     expiredFirst: bool, expiredAgain: bool)

  // ---------------------------------------------------------------- one CALL

  /** sealedOutcome and openReply: what a verified reply means to a sealed call. */
  function SealedOutcome(sentUnder: bytes, reply: Reply): Outcome {
    match reply.sealed
    case Some(body) =>
      if body.keyId != sentUnder || !body.knownScheme || !body.opens then NotConfidential(ReplyNotOpened)
      else if reply.isResult then Result
      else ProviderError(body.code, None)
    case None =>
      if !reply.isResult && reply.code == SealedRefusedCode then SealedRefused(reply.named)
      else if !reply.isResult && reply.code == ClosedSet then ProviderError(ClosedSet, reply.carried)
      else ClearAnswerToSealed
  }

  /** verifiedReply: the same for a clear call, which a sealed answer answers as a refusal. */
  function ReplyOutcome(env: Env, sealTo: Option<bytes>, reply: Reply): Outcome {
    if sealTo.Some? then SealedOutcome(env.keyId(sealTo.value), reply)
    else if reply.sealed.Some? then ProviderError(SealedRefusedCode, reply.carried)
    else if reply.isResult then Result
    else ProviderError(reply.code, reply.carried)
  }

  /** What was sent, in order, and how it ended. */
  datatype Run = Run(sends: seq<Send>, outcome: Outcome)

  /** callOnce, when `n` CALLs went out before it: a key not of this profile's size seals nothing, and nothing is
      sent. */
  function Once(env: Env, n: nat, node: bytes, sealTo: Option<bytes>): Run {
    if sealTo.Some? && |sealTo.value| != env.carriedSize then Run([], NotConfidential(NoKemKey))
    else
      match env.answer(n)
      case NotWritten => Run([], Failed)
      case NoReply => Run([Send(node, sealTo)], Failed)
      case Relayed => Run([Send(node, sealTo)], Failed)
      case Answered(reply) => Run([Send(node, sealTo)], ReplyOutcome(env, sealTo, reply))
  }

  /** adoptedKey: the key a clear call's sealed_required refusal carried, when it is one of this profile's. */
  function Adopted(env: Env, sealTo: Option<bytes>, outcome: Outcome): Option<bytes> {
    if sealTo.None? && outcome.ProviderError? && outcome.code == SealedRequired
       && outcome.carried.Some? && |outcome.carried.value| == env.carriedSize
    then outcome.carried else None
  }

  /** Link.Call: what it stated, one CALL, and one more sealed to an adopted key. `sealedTo` is the key of the call
      as the pool sees it afterwards. */
  datatype Linked = Linked(run: Run, sealedTo: Option<bytes>)

  function LinkCall(env: Env, n: nat, node: bytes, sealTo: Option<bytes>, clear: bool): Linked {
    if sealTo.Some? && clear then Linked(Run([], SealedAndClear), sealTo)
    else if sealTo.None? && !clear then Linked(Run([], NotConfidential(NoSignedState)), sealTo)
    else
      var first := Once(env, n, node, sealTo);
      match Adopted(env, sealTo, first.outcome)
      case None => Linked(first, sealTo)
      case Some(key) =>
        var second := Once(env, n + |first.sends|, node, Some(key));
        Linked(Run(first.sends + second.sends, second.outcome), Some(key))
  }

  // ------------------------------------------------------------- the pool's call

  datatype Resealed = Key(key: bytes) | NoKey(why: Reason)

  /** resealKey: the key a refused call is sealed to again, from node's fresh advertisements: the one the refusal
      named when any names it, and the first when it named none; never the clear. */
  function ResealKey(node: bytes, named: Option<bytes>, found: seq<Candidate>, first: Option<bytes>): Resealed {
    if found == [] then
      if first.None? then NoKey(NoKemKey) else if named.Some? then NoKey(KeyMismatch) else Key(first.value)
    else
      var c := found[0];
      if c.node != node || c.kemKey.None? then ResealKey(node, named, found[1..], first)
      else if named.Some? && c.kemKeyId == named.value then Key(c.kemKey.value)
      else ResealKey(node, named, found[1..], if first.None? then c.kemKey else first)
  }

  /** resealKey, the loop. */
  method PickResealKey(node: bytes, named: Option<bytes>, found: seq<Candidate>) returns (r: Resealed)
    ensures r == ResealKey(node, named, found, None)
  {
    var first: Option<bytes> := None;
    assert found[0..] == found;
    for i := 0 to |found|
      invariant ResealKey(node, named, found[i..], first) == ResealKey(node, named, found, None)
    {
      var c := found[i];
      assert found[i..][1..] == found[i + 1..];
      if c.node != node || c.kemKey.None? {
        continue;
      } else if named.Some? && c.kemKeyId == named.value {
        return Key(c.kemKey.value);
      } else if first.None? {
        first := c.kemKey;
      }
    }
    if first.None? {
      return NoKey(NoKemKey);
    }
    return if named.Some? then NoKey(KeyMismatch) else Key(first.value);
  }

  /** The report of a call's result: the provider, and the id of the key its request was sealed to. */
  datatype Report = Report(provider: bytes, sealKeyId: Option<bytes>)

  datatype Call = Call(run: Run, report: Option<Report>)

  function Reported(env: Env, node: bytes, sends: seq<Send>, outcome: Outcome, sealedTo: Option<bytes>): Call {
    if outcome != Result then Call(Run(sends, outcome), None)
    else Call(Run(sends, outcome), Some(Report(node, if sealedTo.None? then None else Some(env.keyId(sealedTo.value)))))
  }

  /** callAt: the call to a reached candidate, and one reseal when a sealed request was refused sealed_refused. */
  function CallAt(env: Env, node: bytes, sealTo: Option<bytes>): Call {
    if env.expiredFirst then Call(Run([], Failed), None)
    else
      var first := LinkCall(env, 0, node, sealTo, sealTo.None?);
      if !first.run.outcome.SealedRefused? then Reported(env, node, first.run.sends, first.run.outcome, first.sealedTo)
      else
        match ResealKey(node, first.run.outcome.named, env.lookup, None)
        case NoKey(why) => Call(Run(first.run.sends, NotConfidential(why)), None)
        case Key(key) =>
          if env.expiredAgain then Call(Run(first.run.sends, Failed), None)
          else
            var again := LinkCall(env, |first.run.sends|, node, Some(key), false);
            Reported(env, node, first.run.sends + again.run.sends, again.run.outcome, Some(key))
  }

  datatype SealChoice = SealWith(key: Option<bytes>) | Refuse(why: Reason)

  /** sealTo: the key the advertisement names; none when it names none, unless one is required. */
  function ChooseSeal(env: Env, cand: Candidate, conf: Confidentiality): SealChoice {
    if cand.kemKey.None? then if conf == Required then Refuse(NoKemKey) else SealWith(None)
    else if |cand.kemKey.value| != env.carriedSize then Refuse(NoKemKey)
    else SealWith(cand.kemKey)
  }

  /** How reaching a candidate's station ends: up, not reached, or not reached with the call over. */
  datatype Reach = Up | Down | Over

  /** CallReport: the candidates in order, the next one only while nothing was sent. */
  function From(env: Env, conf: Confidentiality, cands: seq<Candidate>, reach: nat -> Reach, i: nat): Call
    decreases |cands| - i
  {
    if i >= |cands| then Call(Run([], Failed), None)
    else
      match ChooseSeal(env, cands[i], conf)
      case Refuse(why) => Call(Run([], NotConfidential(why)), None)
      case SealWith(key) =>
        match reach(i)
        case Up => CallAt(env, cands[i].node, key)
        case Down => From(env, conf, cands, reach, i + 1)
        case Over => Call(Run([], Failed), None)
  }

  function CallReport(env: Env, conf: Confidentiality, cands: seq<Candidate>, reach: nat -> Reach): Call {
    if conf == Off then Call(Run([], Failed), None) else From(env, conf, cands, reach, 0)
  }

  // -------------------------------------------------------------- the theorems

  /** The n-th CALL was refused by its provider: sealed_required to a clear one, sealed_refused to a sealed one. */
  ghost predicate Refusal(env: Env, n: nat, send: Send) {
    env.answer(n).Answered? &&
    var outcome := ReplyOutcome(env, send.sealTo, env.answer(n).reply);
    if send.sealTo.None? then outcome.ProviderError? && outcome.code == SealedRequired else outcome.SealedRefused?
  }

  /** A resend never follows anything but the provider's own refusal of the CALL before it. So no CALL goes out
      after one that may have been handled. */
  ghost predicate RefusedBefore(env: Env, sends: seq<Send>, k: nat)
    requires k < |sends|
  {
    Refusal(env, k, sends[k])
  }

  /** What holds of every run of a call to one node. */
  ghost predicate Disciplined(env: Env, node: bytes, c: Call) {
    var sends := c.run.sends;
    && |sends| <= 3
    && (forall k :: 0 <= k < |sends| ==> sends[k].node == node)
    && (forall k :: 1 <= k < |sends| ==> sends[k].sealTo.Some?)
    && (forall k :: 0 <= k < |sends| - 1 ==> RefusedBefore(env, sends, k))
    && (c.report.Some? <==> c.run.outcome == Result)
    && (c.report.Some? ==> Truthful(env, node, sends, c.report.value))
  }

  /** A report says what happened: the last CALL was answered with a result; if that CALL was sealed, the report
      names its key and the answer was sealed under that key and opened; if it was clear, the report names none. */
  ghost predicate Truthful(env: Env, node: bytes, sends: seq<Send>, r: Report) {
    && sends != [] && r.provider == node
    && var last := |sends| - 1;
    && env.answer(last).Answered? && env.answer(last).reply.isResult
    && match sends[last].sealTo
       case None => r.sealKeyId.None? && env.answer(last).reply.sealed.None?
       case Some(key) =>
         && r.sealKeyId == Some(env.keyId(key))
         && env.answer(last).reply.sealed.Some?
         && env.answer(last).reply.sealed.value.keyId == env.keyId(key)
         && env.answer(last).reply.sealed.value.opens
  }

  lemma OnceIsOne(env: Env, n: nat, node: bytes, sealTo: Option<bytes>)
    ensures var run := Once(env, n, node, sealTo);
            && |run.sends| <= 1
            && (run.sends != [] ==> run.sends[0] == Send(node, sealTo))
            && (!run.outcome.Failed? && !run.outcome.NotConfidential? ==>
                  run.sends != [] && env.answer(n).Answered?
                      && run.outcome == ReplyOutcome(env, sealTo, env.answer(n).reply))
            && (sealTo.None? ==> !run.outcome.SealedRefused?)
  {
  }

  /** What the link does from the n-th CALL on: at most two CALLs, the second sealed and answering sealed_required;
      the key it ends with is the last CALL's. */
  ghost predicate LinkDisciplined(env: Env, n: nat, node: bytes, sealTo: Option<bytes>, l: Linked) {
    var sends := l.run.sends;
    && |sends| <= 2 && (sealTo.Some? ==> |sends| <= 1)
    && (forall k :: 0 <= k < |sends| ==> sends[k].node == node)
    && (forall k :: 0 <= k < |sends| && (k > 0 || sealTo.Some?) ==> sends[k].sealTo.Some?)
    && (|sends| == 2 ==> Refusal(env, n, sends[0]))
    && (l.run.outcome == Result || l.run.outcome.SealedRefused? ==>
          var last := |sends| - 1;
          && sends != [] && sends[last].sealTo == l.sealedTo && env.answer(n + last).Answered?
          && l.run.outcome == ReplyOutcome(env, l.sealedTo, env.answer(n + last).reply))
    && (l.run.outcome.SealedRefused? ==> l.sealedTo.Some?)
  }

  lemma LinkCallDisciplined(env: Env, n: nat, node: bytes, sealTo: Option<bytes>, clear: bool)
    ensures LinkDisciplined(env, n, node, sealTo, LinkCall(env, n, node, sealTo, clear))
  {
    OnceIsOne(env, n, node, sealTo);
    var first := Once(env, n, node, sealTo);
    var adopted := Adopted(env, sealTo, first.outcome);
    if adopted.Some? {
      OnceIsOne(env, n + |first.sends|, node, adopted);
    }
  }

  lemma FirstDisciplined(env: Env, node: bytes, sealTo: Option<bytes>, first: Linked)
    requires LinkDisciplined(env, 0, node, sealTo, first) && !first.run.outcome.SealedRefused?
    ensures Disciplined(env, node, Reported(env, node, first.run.sends, first.run.outcome, first.sealedTo))
  {
  }

  lemma ResealDisciplined(env: Env, node: bytes, sealTo: Option<bytes>, first: Linked, key: bytes, again: Linked)
    requires LinkDisciplined(env, 0, node, sealTo, first) && first.run.outcome.SealedRefused?
    requires LinkDisciplined(env, |first.run.sends|, node, Some(key), again) && again.sealedTo == Some(key)
    ensures Disciplined(env, node, Reported(env, node, first.run.sends + again.run.sends, again.run.outcome, Some(key)))
  {
    var n := |first.run.sends|;
    var sends := first.run.sends + again.run.sends;
    forall k | 0 <= k < |sends| - 1
      ensures RefusedBefore(env, sends, k)
    {
      assert sends[k] == first.run.sends[k];
    }
  }

  lemma {:induction false} CallAtDisciplined(env: Env, node: bytes, sealTo: Option<bytes>)
    ensures var c := CallAt(env, node, sealTo);
            Disciplined(env, node, c)
                && (sealTo.Some? ==> forall k :: 0 <= k < |c.run.sends| ==> c.run.sends[k].sealTo.Some?)
  {
    if !env.expiredFirst {
      var first := LinkCall(env, 0, node, sealTo, sealTo.None?);
      LinkCallDisciplined(env, 0, node, sealTo, sealTo.None?);
      if !first.run.outcome.SealedRefused? {
        FirstDisciplined(env, node, sealTo, first);
      } else {
        var picked := ResealKey(node, first.run.outcome.named, env.lookup, None);
        if picked.Key? && !env.expiredAgain {
          var again := LinkCall(env, |first.run.sends|, node, Some(picked.key), false);
          LinkCallDisciplined(env, |first.run.sends|, node, Some(picked.key), false);
          ResealDisciplined(env, node, sealTo, first, picked.key, again);
        }
      }
    }
  }

  /** Every run of one pool call, under any answers, lookups and failures to reach a station: all CALLs go to one
      candidate's provider, at most three of them; only the first can be clear, none under Required and none when
      that candidate named a key; each resend answers a refusal; and a report is truthful about the CALL that
      produced the result. */
  lemma {:induction false} CallDisciplined(env: Env, conf: Confidentiality, cands: seq<Candidate>, reach: nat -> Reach,
                                           i: nat)
    ensures var c := From(env, conf, cands, reach, i);
            c.run.sends == [] ||
            exists j :: i <= j < |cands| && Disciplined(env, cands[j].node, c) &&
                        (conf == Required || cands[j].kemKey.Some? ==>
                           forall k :: 0 <= k < |c.run.sends| ==> c.run.sends[k].sealTo.Some?)
    ensures var c := From(env, conf, cands, reach, i);
            c.report.Some? ==> c.run.sends != []
    decreases |cands| - i
  {
    if i < |cands| {
      var choice := ChooseSeal(env, cands[i], conf);
      if choice.SealWith? {
        if reach(i).Up? {
          CallAtDisciplined(env, cands[i].node, choice.key);
        } else if reach(i).Down? {
          CallDisciplined(env, conf, cands, reach, i + 1);
        }
      }
    }
  }

  /** resealKey gives only a key some fresh advertisement of that very node names: the one the refusal named, when
      it named one. */
  lemma {:induction false} ResealKeyIsAdvertised(node: bytes, named: Option<bytes>, found: seq<Candidate>,
                                                 first: Option<bytes>)
    ensures var r := ResealKey(node, named, found, first);
            r.Key? ==> (named.None? && first == Some(r.key)) ||
                       exists c :: c in found && c.node == node && c.kemKey == Some(r.key)
                           && (named.Some? ==> c.kemKeyId == named.value)
    ensures named.Some? && (exists c :: c in found && c.node == node && c.kemKey.Some? && c.kemKeyId == named.value) ==>
              ResealKey(node, named, found, first).Key?
  {
    if found != [] {
      var c := found[0];
      assert found == [c] + found[1..];
      if c.node != node || c.kemKey.None? {
        ResealKeyIsAdvertised(node, named, found[1..], first);
      } else if named.Some? && c.kemKeyId == named.value {
      } else {
        ResealKeyIsAdvertised(node, named, found[1..], if first.None? then c.kemKey else first);
      }
    }
  }

  // --------------------------------------------------------- the call, as it runs

  /** A key a provider's signed refusal named, until the advertisement it beats expires. */
  datatype Learnt = Learnt(key: bytes, expiresAt: int)

  /** withLearnt: a keyless candidate with the key its provider's refusal taught, while that lives. */
  function WithLearnt(learnt: map<bytes, Learnt>, cand: Candidate, now: int, keyId: bytes -> bytes): Candidate {
    if cand.kemKey.Some? || cand.node !in learnt || now >= learnt[cand.node].expiresAt then cand
    else cand.(kemKey := Some(learnt[cand.node].key), kemKeyId := keyId(learnt[cand.node].key))
  }

  /** A provider that taught the pool its key is never called in the clear again while the advertisement that key
      beat lives, whatever keyless advertisement a lookup still finds. */
  lemma LearntIsNeverClear(env: Env, learnt: map<bytes, Learnt>, cand: Candidate, now: int, conf: Confidentiality)
    requires cand.node in learnt && now < learnt[cand.node].expiresAt
    ensures ChooseSeal(env, WithLearnt(learnt, cand, now, env.keyId), conf) != SealWith(None)
    ensures var choice := ChooseSeal(env, WithLearnt(learnt, cand, now, env.keyId), conf);
            choice.SealWith? ==> forall k :: 0 <= k < |CallAt(env, cand.node, choice.key).run.sends| ==>
                                   CallAt(env, cand.node, choice.key).run.sends[k].sealTo.Some?
  {
    var choice := ChooseSeal(env, WithLearnt(learnt, cand, now, env.keyId), conf);
    if choice.SealWith? {
      CallAtDisciplined(env, cand.node, choice.key);
    }
  }

  class PoolCaller {
    const env: Env
    /** The CALLs written so far in this call. */
    var sends: seq<Send>
    var learnt: map<bytes, Learnt>

    constructor (env: Env, learnt: map<bytes, Learnt>)
      ensures this.env == env && sends == [] && this.learnt == learnt
    {
      this.env, sends, this.learnt := env, [], learnt;
    }

    method CallOnce(node: bytes, sealTo: Option<bytes>) returns (outcome: Outcome)
      modifies this`sends
      ensures var run := Once(env, |old(sends)|, node, sealTo);
              sends == old(sends) + run.sends && outcome == run.outcome
    {
      if sealTo.Some? && |sealTo.value| != env.carriedSize {
        return NotConfidential(NoKemKey);
      }
      var answer := env.answer(|sends|);
      if answer.NotWritten? {
        return Failed;
      }
      sends := sends + [Send(node, sealTo)];
      return if answer.Answered? then ReplyOutcome(env, sealTo, answer.reply) else Failed;
    }

    /** Link.Call with the pool's Adopted callback: the key is learnt before the resealed CALL goes out. */
    method LinkedCall(cand: Candidate, sealTo: Option<bytes>, clear: bool,
                      now: int) returns (outcome: Outcome, sealedTo: Option<bytes>)
      modifies this
      ensures var l := LinkCall(env, |old(sends)|, cand.node, sealTo, clear);
              sends == old(sends) + l.run.sends && outcome == l.run.outcome && sealedTo == l.sealedTo
      ensures sealTo.Some? || sealedTo.None? ==> learnt == old(learnt)
      ensures sealTo.None? && sealedTo.Some? ==>
                cand.node in learnt && learnt[cand.node] == Learnt(sealedTo.value, cand.expiresAt)
    {
      sealedTo := sealTo;
      if sealTo.Some? && clear {
        outcome := SealedAndClear;
        return;
      }
      if sealTo.None? && !clear {
        outcome := NotConfidential(NoSignedState);
        return;
      }
      outcome := CallOnce(cand.node, sealTo);
      var adopted := Adopted(env, sealTo, outcome);
      if adopted.Some? {
        learnt := map n | n in learnt && now < learnt[n].expiresAt :: learnt[n];
        learnt := learnt[cand.node := Learnt(adopted.value, cand.expiresAt)];
        sealedTo := adopted;
        outcome := CallOnce(cand.node, adopted);
      }
    }

    method CallCandidate(cand: Candidate, sealTo: Option<bytes>,
                         now: int) returns (outcome: Outcome, report: Option<Report>)
      requires sends == []
      modifies this
      ensures CallAt(env, cand.node, sealTo) == Call(Run(sends, outcome), report)
    {
      if env.expiredFirst {
        return Failed, None;
      }
      var sealedTo: Option<bytes>;
      outcome, sealedTo := LinkedCall(cand, sealTo, sealTo.None?, now);
      if outcome.SealedRefused? {
        learnt := learnt - {cand.node};
        var picked := PickResealKey(cand.node, outcome.named, env.lookup);
        if picked.NoKey? {
          return NotConfidential(picked.why), None;
        }
        if env.expiredAgain {
          return Failed, None;
        }
        outcome, sealedTo := LinkedCall(cand, Some(picked.key), false, now);
      }
      if outcome != Result {
        report := None;
      } else {
        report := Some(Report(cand.node, if sealedTo.None? then None else Some(env.keyId(sealedTo.value))));
      }
    }

    /** CallReport's loop over the candidates. */
    method RunCall(conf: Confidentiality, cands: seq<Candidate>, reach: nat -> Reach, now: int)
      returns (outcome: Outcome, report: Option<Report>)
      requires sends == []
      modifies this
      ensures CallReport(env, conf, cands, reach) == Call(Run(sends, outcome), report)
    {
      if conf == Off {
        return Failed, None;
      }
      for i := 0 to |cands|
        invariant sends == []
        invariant From(env, conf, cands, reach, i) == From(env, conf, cands, reach, 0)
      {
        var choice := ChooseSeal(env, cands[i], conf);
        if choice.Refuse? {
          return NotConfidential(choice.why), None;
        }
        if reach(i).Up? {
          outcome, report := CallCandidate(cands[i], choice.key, now);
          return;
        }
        if reach(i).Over? {
          return Failed, None;
        }
      }
      return Failed, None;
    }
  }
}
