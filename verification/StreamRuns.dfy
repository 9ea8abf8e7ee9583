/** Every sequence of stream frames its senders sign in turn is accepted. */
module StreamRuns {
  import opened Options
  import opened Bytes
  import opened Cbor
  import opened CborCanon
  import opened Fields
  import opened TextMaps
  import opened Streams
  import opened StreamsSigned
  import Identity

  function SignerId(c: Suite, key: bytes): Identity.Id32 { c.scheme.nodeId(c.scheme.public(key)) }

  function Tag(w: Vocabulary, byCaller: bool): bytes { if byCaller then w.caller else w.provider }

  /** An object its own key signed checks out. */
  lemma {:induction false} SignedChecks(w: Vocabulary, c: Suite, key: bytes, f: StreamFields, open: Open,
                                        byCaller: bool)
    requires Identity.Lawful(c.scheme) && Decodable(w, f, open, byCaller)
    ensures CheckObject(w, c, Tag(w, byCaller), c.scheme.public(key), Sign(w, c, key, f, open, byCaller).signed) ==
              Pass(Arrived(w, f, open, SignerId(c, key)))
  {
    var v := Arrived(w, f, open, SignerId(c, key));
    BuiltTable(w, f, open, SignerId(c, key), byCaller);
    ArrivedDecodes(w, f, open, SignerId(c, key));
    BuiltField(w, f, open, SignerId(c, key), Alg);
    ChecksWith(w, c, Tag(w, byCaller), c.scheme.public(key), Sign(w, c, key, f, open, byCaller).signed, v);
  }

  lemma ArrivedDecodes(w: Vocabulary, f: StreamFields, open: Open, signer: Identity.Id32)
    requires Table(EntriesOf(w, f, open, signer))
    ensures Decode(Encode(Map(EntriesOf(w, f, open, signer)))) == Accepted(Arrived(w, f, open, signer))
    ensures Arrived(w, f, open, signer).Map?
  {
    TableDecodes(EntriesOf(w, f, open, signer));
  }

  lemma ChecksWith(w: Vocabulary, c: Suite, tag: bytes, key: bytes, o: Object, v: Value)
    requires Decode(o.tbs) == Accepted(v) && v.Map? && Get(v, w.name(Alg)) == Some(Text(w.sigAlg))
    requires c.scheme.verify(SignedBytes(c, tag, key, o.tbs), o.signature, key)
    ensures CheckObject(w, c, tag, key, o) == Pass(v)
  {
  }

  /** What the verifiers read of it. */
  lemma {:induction false} ArrivedSays(w: Vocabulary, f: StreamFields, open: Open, signer: Identity.Id32,
                                       byCaller: bool)
    requires Decodable(w, f, open, byCaller)
    ensures var v := Arrived(w, f, open, signer);
            NamesRequest(w, v, open) && SignerOf(w, v) == signer && SeqOf(w, v) == f.seqNo
  {
    BuiltTable(w, f, open, signer, byCaller);
    forall n
      ensures Get(Arrived(w, f, open, signer), w.name(n)) == FieldArrived(w, f, open, signer, n)
    {
      BuiltField(w, f, open, signer, n);
    }
    RequestFrom(w, f, open, signer, Arrived(w, f, open, signer));
  }

  lemma RequestFrom(w: Vocabulary, f: StreamFields, open: Open, signer: Identity.Id32, v: Value)
    requires forall n :: Get(v, w.name(n)) == FieldArrived(w, f, open, signer, n)
    ensures NamesRequest(w, v, open) && SignerOf(w, v) == signer && SeqOf(w, v) == f.seqNo
  {
    assert Get(v, w.name(RequestId)) == FieldArrived(w, f, open, signer, RequestId);
    assert Get(v, w.name(RequestHash)) == FieldArrived(w, f, open, signer, RequestHash);
    assert Get(v, w.name(Signer)) == FieldArrived(w, f, open, signer, Signer);
    assert Get(v, w.name(Seq)) == FieldArrived(w, f, open, signer, Seq);
  }

  /** Whose turn it is: the sender is the side's, the frame its next, the side has not ended, and the verifier holds
      no key but this one. */
  predicate InTurn(c: Suite, key: bytes, f: StreamFields, byCaller: bool, st: State) {
    if byCaller then
      && SignerId(c, key) == st.open.caller && st.open.key == c.scheme.public(key)
      && !st.caller.ended && f.seqNo == st.caller.next
    else
      && SignerId(c, key) == st.open.target && c.wellFormed(c.scheme.public(key))
      && !st.provider.ended && f.seqNo == st.provider.next
      && (if f.seqNo == 0 then st.held.None? else st.held == Some(c.scheme.public(key)) && st.signer == st.open.target)
  }

  function Delivered(w: Vocabulary, c: Suite, key: bytes, f: StreamFields, open: Open, byCaller: bool): Received {
    if byCaller then FromCaller(Sign(w, c, key, f, open, true)) else FromProvider(Sign(w, c, key, f, open, false))
  }

  /** What follows an accepted frame. */
  ghost predicate Follows(w: Vocabulary, c: Suite, key: bytes, f: StreamFields, byCaller: bool, st: State,
                          out: Outcome) {
    && out.frame == Pass(Verified(KindOf(f), f.seqNo, SignerId(c, key), c.scheme.public(key),
        Arrived(w, f, st.open, SignerId(c, key))))
    && out.next == if byCaller then st.(caller := Side(f.seqNo + 1, f.EndFields?))
                   else st.(provider := Side(f.seqNo + 1, f.EndFields?), held := Some(c.scheme.public(key)),
                       signer := SignerId(c, key))
  }

  lemma {:induction false} CallerSignedVerifies(w: Vocabulary, c: Suite, key: bytes, f: StreamFields, st: State)
    requires Identity.Lawful(c.scheme) && Decodable(w, f, st.open, true) && InTurn(c, key, f, true, st)
    ensures var out := VerifyCaller(w, c, Sign(w, c, key, f, st.open, true), st);
            if Readable(f) then Follows(w, c, key, f, true, st, out) else out == Refuse(st, MalformedFrame)
  {
    SignedChecks(w, c, key, f, st.open, true);
    ArrivedSays(w, f, st.open, SignerId(c, key), true);
    StreamsSigned.BuiltReads(w, f, st.open, SignerId(c, key), true);
    CallerTakes(w, c, key, f, Sign(w, c, key, f, st.open, true), Arrived(w, f, st.open, SignerId(c, key)), st);
  }

  lemma CallerTakes(w: Vocabulary, c: Suite, key: bytes, f: StreamFields, frame: Frame, v: Value, st: State)
    requires InTurn(c, key, f, true, st) && frame.kind == KindOf(f) != Reply && frame.signed.key.None?
    requires frame.kind == Data ==> !st.open.serverStream
    requires CheckObject(w, c, w.caller, st.open.key, frame.signed) == Pass(v)
    requires NamesRequest(w, v, st.open) && SignerOf(w, v) == st.open.caller && SeqOf(w, v) == f.seqNo
    ensures var bad := StreamRead(w, frame.kind, true, v);
            VerifyCaller(w, c, frame, st) ==
              if bad.Some? then Refuse(st, bad.value)
              else Outcome(Pass(Verified(frame.kind, f.seqNo, st.open.caller, st.open.key, v)),
                  st.(caller := Side(f.seqNo + 1, frame.kind == End)))
  {
  }

  lemma FirstTakes(w: Vocabulary, c: Suite, key: bytes, f: StreamFields, frame: Frame, v: Value, st: State)
    requires InTurn(c, key, f, false, st) && f.seqNo == 0 && frame.signed.key == Some(c.scheme.public(key))
    requires CheckObject(w, c, w.provider, c.scheme.public(key), frame.signed) == Pass(v)
    requires NamesRequest(w, v, st.open) && SignerOf(w, v) == SignerId(c, key) && SeqOf(w, v) == 0
    ensures var bad := StreamRead(w, frame.kind, false, v);
            VerifyProvider(w, c, frame, st) ==
              if bad.Some? then Refuse(st, bad.value)
              else Outcome(Pass(Verified(frame.kind, 0, SignerId(c, key), c.scheme.public(key), v)),
                           st.(provider := Side(1, frame.kind == End), held := Some(c.scheme.public(key)),
                               signer := SignerId(c, key)))
  {
  }

  lemma LaterTakes(w: Vocabulary, c: Suite, key: bytes, f: StreamFields, frame: Frame, v: Value, st: State)
    requires InTurn(c, key, f, false, st) && f.seqNo > 0 && frame.signed.key.None?
    requires CheckObject(w, c, w.provider, c.scheme.public(key), frame.signed) == Pass(v)
    requires NamesRequest(w, v, st.open) && SignerOf(w, v) == SignerId(c, key) && SeqOf(w, v) == f.seqNo
    ensures var bad := StreamRead(w, frame.kind, false, v);
            VerifyProvider(w, c, frame, st) ==
              if bad.Some? then Refuse(st, bad.value)
              else Outcome(Pass(Verified(frame.kind, f.seqNo, SignerId(c, key), c.scheme.public(key), v)),
                           st.(provider := Side(f.seqNo + 1, frame.kind == End)))
  {
  }

  lemma {:induction false} ProviderSignedVerifies(w: Vocabulary, c: Suite, key: bytes, f: StreamFields, st: State)
    requires Identity.Lawful(c.scheme) && Decodable(w, f, st.open, false) && InTurn(c, key, f, false, st)
    ensures var out := VerifyProvider(w, c, Sign(w, c, key, f, st.open, false), st);
            if Readable(f) then Follows(w, c, key, f, false, st, out) else out == Refuse(st, MalformedFrame)
  {
    var frame, v := Sign(w, c, key, f, st.open, false), Arrived(w, f, st.open, SignerId(c, key));
    SignedChecks(w, c, key, f, st.open, false);
    ArrivedSays(w, f, st.open, SignerId(c, key), false);
    StreamsSigned.BuiltReads(w, f, st.open, SignerId(c, key), false);
    if f.seqNo == 0 {
      FirstTakes(w, c, key, f, frame, v, st);
    } else {
      LaterTakes(w, c, key, f, frame, v, st);
    }
  }

  // ---------------------------------------------------------------- a scheme past int64

  lemma {:induction false} HugeSealedRefused(w: Vocabulary, s: SealedMap)
    requires s.scheme >= TWO63
    ensures !Admissible(Map(SealedEntries(w, s)), 1, MAX_NESTING)
  {
    var es := SealedEntries(w, s);
    assert !AdmissibleEntry(es[0], 2, MAX_NESTING);
  }

  lemma {:induction false} OneBadEntry(es: seq<Entry>, i: nat)
    requires i < |es| && !AdmissibleEntry(es[i], 1, MAX_NESTING)
    ensures !AdmissibleEntries(es, 1, MAX_NESTING)
  {
    if i > 0 {
      OneBadEntry(es[1..], i - 1);
    }
  }

  lemma {:induction false} GoodFitAll(es: seq<Entry>)
    requires forall i :: 0 <= i < |es| ==> Fits(es[i].key) && Fits(es[i].val)
    ensures FitsEntries(es)
  {
    if es != [] {
      assert FitsEntry(es[0]);
      GoodFitAll(es[1..]);
    }
  }

  /** Names and texts short enough for Go to hold. */
  ghost predicate Short(w: Vocabulary) {
    && (forall n :: |w.name(n)| < TWO63) && (forall n :: |w.sealed(n)| < TWO63) && (forall k :: |w.kind(k)| < TWO63)
    && |w.raw| < TWO63 && |w.msgpack| < TWO63 && |w.send| < TWO63 && |w.both| < TWO63 && |w.sigAlg| < TWO63
  }

  lemma WellChosenShort(w: Vocabulary)
    requires WellChosen(w)
    ensures Short(w)
  {
    var texts := [w.raw, w.msgpack, w.send, w.both];
    assert texts[0] in texts && texts[1] in texts && texts[2] in texts && texts[3] in texts;
    assert forall n :: Good(Text(w.name(n)));
    assert forall n :: Good(Text(w.sealed(n)));
    assert forall k :: Good(Text(w.kind(k)));
  }

  ghost predicate Small(f: StreamFields, byCaller: bool) {
    && Held(f) && (f.ErrorFields? && f.sealed.None? ==> |f.code| < TWO63 && |f.message| < TWO63)
    && (SealedIn(f).Some? ==> StreamsSigned.Shaped(SealedIn(f).value, byCaller))
  }

  lemma {:induction false} SealedFits(w: Vocabulary, s: SealedMap, byCaller: bool)
    requires Short(w) && StreamsSigned.Shaped(s, byCaller) && |s.ct| < TWO63
    ensures Fits(Map(SealedEntries(w, s)))
  {
    var es := ShapedEntries(w, s, byCaller);
    ShapedIsSealed(w, s, byCaller);
    forall i | 0 <= i < |es|
      ensures Fits(es[i].key) && Fits(es[i].val)
    {
    }
    GoodFitAll(es);
  }

  /** Whatever its builder signs, a Go program can hold: its encoding is its own. */
  lemma {:induction false} SignedFits(w: Vocabulary, f: StreamFields, open: Open, signer: Identity.Id32, byCaller: bool)
    requires Short(w) && Small(f, byCaller)
    ensures FitsEntries(EntriesOf(w, f, open, signer))
  {
    var es := EntriesOf(w, f, open, signer);
    forall i | 0 <= i < |es|
      ensures Fits(es[i].key) && Fits(es[i].val)
    {
      NamesAre(f, NamesOf(f)[i]);
      FieldFits(w, f, open, signer, byCaller, NamesOf(f)[i]);
    }
    GoodFitAll(es);
  }

  lemma {:induction false} FieldFits(w: Vocabulary, f: StreamFields, open: Open, signer: Identity.Id32, byCaller: bool,
                                     n: Name)
    requires Short(w) && Small(f, byCaller) && HasName(f, n)
    ensures Fits(Text(w.name(n))) && Fits(ValueOf(w, f, open, signer, n))
  {
    if n == Sealed {
      SealedFits(w, SealedIn(f).value, byCaller);
    }
  }

  lemma {:induction false} HugeUndecodable(w: Vocabulary, f: StreamFields, open: Open, signer: Identity.Id32)
    requires FitsEntries(EntriesOf(w, f, open, signer)) && SealedIn(f).Some? && SealedIn(f).value.scheme >= TWO63
    ensures Decode(Encode(Map(EntriesOf(w, f, open, signer)))).Rejected?
  {
    var es := EntriesOf(w, f, open, signer);
    NamesAre(f, Sealed);
    NamesDistinct(f);
    var i :| 0 <= i < |NamesOf(f)| && NamesOf(f)[i] == Sealed;
    HugeSealedRefused(w, SealedIn(f).value);
    assert es[i].val == Map(SealedEntries(w, SealedIn(f).value));
    OneBadEntry(es, i);
    RuleIffDecodes(Map(es));
  }

  /** A scheme past int64 is signed like any other, and what is signed does not even decode. */
  lemma {:induction false} HugeSchemeRefused(w: Vocabulary, c: Suite, key: bytes, f: StreamFields, open: Open,
                                             byCaller: bool)
    requires Signable(w, f, open, byCaller) && SealedIn(f).Some? && SealedIn(f).value.scheme >= TWO63
    ensures CheckObject(w, c, Tag(w, byCaller), c.scheme.public(key), Sign(w, c, key, f, open, byCaller).signed) ==
              Fail(MalformedFrame)
  {
    WellChosenShort(w);
    SignedFits(w, f, open, SignerId(c, key), byCaller);
    HugeUndecodable(w, f, open, SignerId(c, key));
  }

  lemma HugeNotTaken(w: Vocabulary, c: Suite, key: bytes, f: StreamFields, byCaller: bool, st: State)
    requires InTurn(c, key, f, byCaller, st) && Buildable(f, st.open, byCaller)
    requires CheckObject(w, c, Tag(w, byCaller), c.scheme.public(key), Sign(w, c, key, f, st.open, byCaller).signed) ==
               Fail(MalformedFrame)
    ensures Verify(w, c, Delivered(w, c, key, f, st.open, byCaller), st) == Refuse(st, MalformedFrame)
  {
  }

  // ------------------------------------------------------------------------ the theorem

  /** A frame signed in its turn is accepted, and the next is then in turn, exactly when it is readable. A frame its
      builder signs and no verifier takes, for a clear body holding null or a scheme of 2^53 or more, is refused as
      malformed and changes nothing. */
  lemma {:induction false} SignedVerifies(w: Vocabulary, c: Suite, key: bytes, f: StreamFields, byCaller: bool,
                                          st: State)
    requires Identity.Lawful(c.scheme) && Signable(w, f, st.open, byCaller) && InTurn(c, key, f, byCaller, st)
    ensures var out := Verify(w, c, Delivered(w, c, key, f, st.open, byCaller), st);
            if Readable(f) then Follows(w, c, key, f, byCaller, st, out) else out == Refuse(st, MalformedFrame)
  {
    if SealedIn(f).Some? && SealedIn(f).value.scheme >= TWO63 {
      HugeSchemeRefused(w, c, key, f, st.open, byCaller);
      HugeNotTaken(w, c, key, f, byCaller, st);
    } else if byCaller {
      CallerSignedVerifies(w, c, key, f, st);
    } else {
      ProviderSignedVerifies(w, c, key, f, st);
    }
  }

  /** A provider's first frame with a null for its body: signed, and refused. */
  lemma {:induction false} NullBodyRefused(w: Vocabulary, c: Suite, key: bytes, open: Open)
    requires Identity.Lawful(c.scheme) && WellChosen(w) && InTurn(c, key, NullBody(), false, OpenStream(open))
    ensures Signable(w, NullBody(), open, false) && !Readable(NullBody())
    ensures Verify(w, c, Delivered(w, c, key, NullBody(), open, false), OpenStream(open)) ==
              Refuse(OpenStream(open), MalformedFrame)
  {
    assert Encode(Null) == [0xF6];
    SignedVerifies(w, c, key, NullBody(), false, OpenStream(open));
  }

  function NullBody(): StreamFields { DataFields(0, false, Null, None) }

  /** An error sealed under any scheme from 2^53 on: signed, and refused. */
  function OddScheme(scheme: u64, id: KeyId8): StreamFields {
    ErrorFields(0, [], [], Some(SealedMap(scheme, id, None, Some(seq(12, _ => 0)), [])))
  }

  lemma {:induction false} OddSchemeRefused(w: Vocabulary, c: Suite, key: bytes, open: Open, scheme: u64, id: KeyId8)
    requires Identity.Lawful(c.scheme) && WellChosen(w) && scheme >= MAX_PROTOCOL_INT
    requires InTurn(c, key, OddScheme(scheme, id), false, OpenStream(open))
    ensures var f := OddScheme(scheme, id);
            && Signable(w, f, open, false) && !Readable(f)
            && Verify(w, c, Delivered(w, c, key, f, open, false), OpenStream(open)) ==
                Refuse(OpenStream(open), MalformedFrame)
  {
    SignedVerifies(w, c, key, OddScheme(scheme, id), false, OpenStream(open));
  }

  // -------------------------------------------------------------------------- sequences

  /** A frame one side sends. */
  datatype Sent = Sent(byCaller: bool, fields: StreamFields)

  function CountOf(sent: seq<Sent>, byCaller: bool): nat {
    if sent == [] then 0
    else CountOf(sent[..|sent| - 1], byCaller) + if sent[|sent| - 1].byCaller == byCaller then 1 else 0
  }

  predicate EndedBy(sent: seq<Sent>, byCaller: bool) {
    exists i :: 0 <= i < |sent| && sent[i].byCaller == byCaller && sent[i].fields.EndFields?
  }

  /** Each side numbers its own frames 0, 1, 2, ... and sends none after its END. */
  ghost predicate InSequence(w: Vocabulary, open: Open, sent: seq<Sent>) {
    forall i :: 0 <= i < |sent| ==>
      && sent[i].fields.seqNo == CountOf(sent[..i], sent[i].byCaller) && !EndedBy(sent[..i], sent[i].byCaller)
      && Signable(w, sent[i].fields, open, sent[i].byCaller) && Readable(sent[i].fields)
  }

  function AllDelivered(w: Vocabulary, c: Suite, provider: bytes, caller: bytes, open: Open,
                        sent: seq<Sent>): (run: seq<Received>)
    ensures |run| == |sent|
    ensures forall i :: 0 <= i < |sent| ==>
              var key := if sent[i].byCaller then caller else provider;
              run[i] == Delivered(w, c, key, sent[i].fields, open, sent[i].byCaller)
  {
    seq(|sent|, i requires 0 <= i < |sent| =>
      Delivered(w, c, if sent[i].byCaller then caller else provider, sent[i].fields, open, sent[i].byCaller))
  }

  /** The two ends' keys are those the STREAM_OPEN names. */
  ghost predicate Parties(c: Suite, open: Open, provider: bytes, caller: bytes) {
    && Identity.Lawful(c.scheme) && c.wellFormed(c.scheme.public(provider)) && SignerId(c, provider) == open.target
    && SignerId(c, caller) == open.caller && open.key == c.scheme.public(caller)
  }

  /** Where a verifier is after frames sent in sequence. */
  ghost predicate Reached(c: Suite, open: Open, provider: bytes, sent: seq<Sent>, st: State) {
    && st.open == open
    && st.provider == Side(CountOf(sent, false), EndedBy(sent, false))
    && st.caller == Side(CountOf(sent, true), EndedBy(sent, true))
    && (st.provider.next == 0 ==> st.held.None?)
    && (st.provider.next > 0 ==> st.held == Some(c.scheme.public(provider)) && st.signer == open.target)
  }

  lemma {:induction false} EndedStep(sent: seq<Sent>, i: nat, byCaller: bool)
    requires i < |sent|
    ensures EndedBy(sent[..i + 1], byCaller) <==>
              EndedBy(sent[..i], byCaller) || (sent[i].byCaller == byCaller && sent[i].fields.EndFields?)
    ensures CountOf(sent[..i + 1], byCaller) ==
              CountOf(sent[..i], byCaller) + if sent[i].byCaller == byCaller then 1 else 0
  {
    var more := sent[..i + 1];
    assert more[..i] == sent[..i] && more[i] == sent[i];
    if EndedBy(sent[..i], byCaller) {
      var k :| 0 <= k < |sent[..i]| && sent[..i][k].byCaller == byCaller && sent[..i][k].fields.EndFields?;
      assert more[k] == sent[..i][k];
    }
    if EndedBy(more, byCaller) && !(sent[i].byCaller == byCaller && sent[i].fields.EndFields?) {
      var k :| 0 <= k < |more| && more[k].byCaller == byCaller && more[k].fields.EndFields?;
      assert sent[..i][k] == more[k];
    }
  }

  lemma {:induction false} TurnComes(c: Suite, provider: bytes, caller: bytes, open: Open, before: seq<Sent>, one: Sent,
                                     st: State)
    requires Parties(c, open, provider, caller) && Reached(c, open, provider, before, st)
    requires one.fields.seqNo == CountOf(before, one.byCaller) && !EndedBy(before, one.byCaller)
    ensures InTurn(c, if one.byCaller then caller else provider, one.fields, one.byCaller, st)
  {
  }

  lemma {:induction false} TurnPasses(w: Vocabulary, c: Suite, provider: bytes, caller: bytes, open: Open,
                                      sent: seq<Sent>, i: nat, st: State, out: Outcome)
    requires i < |sent| && Reached(c, open, provider, sent[..i], st) && SignerId(c, provider) == open.target
    requires sent[i].fields.seqNo == CountOf(sent[..i], sent[i].byCaller) && !EndedBy(sent[..i], sent[i].byCaller)
    requires Follows(w, c, if sent[i].byCaller then caller else provider, sent[i].fields, sent[i].byCaller, st, out)
    ensures Reached(c, open, provider, sent[..i + 1], out.next)
  {
    EndedStep(sent, i, true);
    EndedStep(sent, i, false);
  }

  lemma {:induction false} ReachedStep(w: Vocabulary, c: Suite, provider: bytes, caller: bytes, open: Open,
                                       sent: seq<Sent>, i: nat, st: State)
    requires Parties(c, open, provider, caller) && InSequence(w, open, sent) && i < |sent|
    requires Reached(c, open, provider, sent[..i], st)
    ensures var key := if sent[i].byCaller then caller else provider;
            var out := Verify(w, c, Delivered(w, c, key, sent[i].fields, open, sent[i].byCaller), st);
            && Follows(w, c, key, sent[i].fields, sent[i].byCaller, st, out)
            && Reached(c, open, provider, sent[..i + 1], out.next)
  {
    var key := if sent[i].byCaller then caller else provider;
    TurnComes(c, provider, caller, open, sent[..i], sent[i], st);
    SignedVerifies(w, c, key, sent[i].fields, sent[i].byCaller, st);
    TurnPasses(w, c, provider, caller, open, sent, i, st,
               Verify(w, c, Delivered(w, c, key, sent[i].fields, open, sent[i].byCaller), st));
  }

  ghost predicate Leads(c: Suite, open: Open, provider: bytes, sent: seq<Sent>, states: seq<State>, k: nat)
    requires k < |sent| && |states| == |sent| + 1
  {
    Reached(c, open, provider, sent[..k], states[k]) ==> Reached(c, open, provider, sent[..k + 1], states[k + 1])
  }

  lemma {:induction false} LeadsOn(w: Vocabulary, c: Suite, provider: bytes, caller: bytes, open: Open, sent: seq<Sent>,
                                   states: seq<State>, outs: seq<Outcome>, k: nat)
    requires Parties(c, open, provider, caller) && InSequence(w, open, sent) && k < |sent|
    requires IsRun(w, c, open, AllDelivered(w, c, provider, caller, open, sent), states, outs)
    ensures Leads(c, open, provider, sent, states, k)
  {
    if Reached(c, open, provider, sent[..k], states[k]) {
      ReachedStep(w, c, provider, caller, open, sent, k, states[k]);
    }
  }

  lemma {:induction false} ReachedChain(c: Suite, open: Open, provider: bytes, sent: seq<Sent>, states: seq<State>,
                                        i: nat)
    requires i <= |sent| && |states| == |sent| + 1 && states[0] == OpenStream(open)
    requires forall k :: 0 <= k < |sent| ==> Leads(c, open, provider, sent, states, k)
    ensures Reached(c, open, provider, sent[..i], states[i])
  {
    if i > 0 {
      ReachedChain(c, open, provider, sent, states, i - 1);
      assert Leads(c, open, provider, sent, states, i - 1);
    }
  }

  lemma {:induction false} ReachedAlong(w: Vocabulary, c: Suite, provider: bytes, caller: bytes, open: Open,
                                        sent: seq<Sent>,
                                        states: seq<State>, outs: seq<Outcome>, i: nat)
    requires Parties(c, open, provider, caller) && InSequence(w, open, sent) && i <= |sent|
    requires IsRun(w, c, open, AllDelivered(w, c, provider, caller, open, sent), states, outs)
    ensures Reached(c, open, provider, sent[..i], states[i])
  {
    forall k | 0 <= k < |sent|
      ensures Leads(c, open, provider, sent, states, k)
    {
      LeadsOn(w, c, provider, caller, open, sent, states, outs, k);
    }
    ReachedChain(c, open, provider, sent, states, i);
  }

  /** Whatever the two sides sign in sequence, interleaved in any way, every frame is accepted, with its own fields. */
  lemma {:induction false} SequenceAccepted(w: Vocabulary, c: Suite, provider: bytes, caller: bytes, open: Open,
                                            sent: seq<Sent>,
                                            states: seq<State>, outs: seq<Outcome>, i: nat)
    requires Parties(c, open, provider, caller) && InSequence(w, open, sent) && i < |sent|
    requires IsRun(w, c, open, AllDelivered(w, c, provider, caller, open, sent), states, outs)
    ensures var key := if sent[i].byCaller then caller else provider;
            outs[i].frame ==
              Pass(Verified(KindOf(sent[i].fields), sent[i].fields.seqNo, SignerId(c, key), c.scheme.public(key),
                            Arrived(w, sent[i].fields, open, SignerId(c, key))))
  {
    ReachedAlong(w, c, provider, caller, open, sent, states, outs, i);
    ReachedStep(w, c, provider, caller, open, sent, i, states[i]);
  }
}
