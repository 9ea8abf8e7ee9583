/** Stream frames as a verifier takes them: each side's next seq, whether it ended, and the provider's key, threaded
    from frame to frame by value. */
module Streams {
  import opened Options
  import opened Bytes
  import opened Cbor
  import opened Fields
  import Identity

  const MAX_PROTOCOL_INT := 0x20_0000_0000_0000
  const MAX_CODE_BYTES := 64
  const MAX_TEXT_BYTES := 256
  const MAX_ENUM_BYTES := 64

  datatype Kind = Data | End | Error | Reply

  datatype Name =
    | Alg | FrameType | RequestId | RequestHash | Signer | Seq | Encoding | Body | Role | Code | Message | Payload
    | Sealed | Ext

  datatype SealedName = Scheme | KeyId | KemCt | Nonce | Ct

  /** The names and fixed texts of stream frames, and the reading of an extension map, which is not modelled. */
  datatype Vocabulary = Vocabulary(
    name: Name -> bytes, sealed: SealedName -> bytes, kind: Kind -> bytes, raw: bytes, msgpack: bytes, send: bytes,
    both: bytes,
    sigAlg: bytes, otherAlg: bytes, provider: bytes, caller: bytes, extShaped: Value -> bool,
    extCritical: Value -> bool)

  /** The cryptography: a scheme, and whether a carried key has its form. */
  datatype Suite = Suite(scheme: Identity.Scheme, wellFormed: bytes -> bool)

  /** A signed object, with its key where it carries one. */
  datatype Object = Object(key: Option<bytes>, tbs: bytes, signature: bytes)

  /** A received frame whose envelope read: its type and its object. */
  datatype Frame = Frame(kind: Kind, signed: Object)

  datatype Refusal =
    | MalformedFrame | StreamEnded | SignatureInvalid | AlgUnsupported | KeyIdMismatch | RequestMismatch | NotTheTarget
    | SeqMismatch | EnumUnknown | ExtensionUnsupported

  datatype Result<+T> = Pass(value: T) | Fail(why: Refusal)

  // ------------------------------------------------------------------- field rules

  predicate HoldsNull(v: Value)
    decreases v, 0
  {
    match v
    case Null => true
    case List(items) => HoldsNullAll(items)
    case Map(entries) => HoldsNullEntries(entries)
    case _ => false
  }

  predicate HoldsNullAll(items: seq<Value>)
    decreases items, 1
  {
    items != [] && (HoldsNull(items[0]) || HoldsNullAll(items[1..]))
  }

  predicate HoldsNullEntries(entries: seq<Entry>)
    decreases entries, 2
  {
    entries != [] && (HoldsNullEntry(entries[0]) || HoldsNullEntries(entries[1..]))
  }

  predicate HoldsNullEntry(e: Entry)
    decreases e, 1
  {
    HoldsNull(e.key) || HoldsNull(e.val)
  }

  predicate IsUint(v: Value) { v.UInt? && v.u < MAX_PROTOCOL_INT }

  predicate IsSized(v: Value, n: nat) { v.Bytes? && |v.b| == n }

  predicate IsEnum(v: Value) { v.Text? && 0 < |v.t| <= MAX_ENUM_BYTES }

  ghost predicate SealedRule(n: SealedName, v: Value) {
    match n
    case Scheme => IsUint(v)
    case KeyId => IsSized(v, 8)
    case Nonce => IsSized(v, 12)
    case _ => v.Bytes?
  }

  ghost predicate SealedNamed(w: Vocabulary, e: Entry) {
    exists n :: e.key == Text(w.sealed(n)) && SealedRule(n, e.val)
  }

  /** readSealed: its fields alone, and for scheme 1 the shape of its side: a provider's nonce, a caller's none. */
  ghost predicate SealedReads(w: Vocabulary, v: Value, byCaller: bool) {
    && v.Map? && (forall i :: 0 <= i < |v.entries| ==> SealedNamed(w, v.entries[i]))
    && Get(v, w.sealed(Scheme)).Some? && Get(v, w.sealed(KeyId)).Some? && Get(v, w.sealed(Ct)).Some?
    && (Field(v, w.sealed(Scheme)) == UInt(0) || Field(v, w.sealed(Scheme)) == UInt(1) ==>
          Get(v, w.sealed(KemCt)).None? && (Get(v, w.sealed(Nonce)).None? <==> byCaller))
  }

  /** streamTable's rule for one field. */
  ghost predicate Rule(w: Vocabulary, kind: Kind, byCaller: bool, n: Name, v: Value) {
    match n
    case FrameType => v == Text(w.kind(kind))
    case RequestId => IsSized(v, 16)
    case RequestHash => IsSized(v, 48)
    case Signer => IsSized(v, 32)
    case Seq => IsUint(v)
    case Encoding => IsEnum(v)
    case Role => IsEnum(v)
    case Code => v.Text? && |v.t| <= MAX_CODE_BYTES
    case Message => v.Text? && |v.t| <= MAX_TEXT_BYTES
    case Sealed => SealedReads(w, v, byCaller)
    case Ext => w.extShaped(v)
    case _ => true
  }

  ghost predicate FieldOk(w: Vocabulary, kind: Kind, byCaller: bool, n: Name, v: Value) {
    Rule(w, kind, byCaller, n, v) && (n == Payload || n == Ext || !HoldsNull(v))
  }

  ghost predicate NamedOk(w: Vocabulary, kind: Kind, byCaller: bool, e: Entry) {
    exists n :: e.key == Text(w.name(n)) && FieldOk(w, kind, byCaller, n, e.val)
  }

  /** The fields a type carries besides those every stream frame does. */
  function TypeNames(kind: Kind, sealed: bool): Option<seq<Name>> {
    match kind
    case Data => Some(if sealed then [Encoding, Sealed] else [Encoding, Body])
    case End => if sealed then None else Some([Role])
    case Error => Some(if sealed then [Sealed] else [Code, Message])
    case Reply => Some(if sealed then [Sealed] else [Payload])
  }

  predicate Has(w: Vocabulary, v: Value, n: Name) { Get(v, w.name(n)).Some? }

  function At(w: Vocabulary, v: Value, n: Name): Value { Field(v, w.name(n)) }

  function One(b: bool): nat { if b then 1 else 0 }

  /** The fields a frame of this type holds, each once and no other. */
  predicate Exact(w: Vocabulary, kind: Kind, v: Value) {
    var names := TypeNames(kind, Has(w, v, Sealed));
    && v.Map? && names.Some?
    && Has(w, v, FrameType) && Has(w, v, RequestId) && Has(w, v, RequestHash) && Has(w, v, Signer) && Has(w, v, Seq)
    && (forall i :: 0 <= i < |names.value| ==> Has(w, v, names.value[i]))
    && |v.entries| == 5 + |names.value| + One(Has(w, v, Alg)) + One(Has(w, v, Ext))
  }

  /** streamRead: what is wrong with a frame's signed fields, if anything. */
  ghost function StreamRead(w: Vocabulary, kind: Kind, byCaller: bool, v: Value): Option<Refusal> {
    if !v.Map? || (exists i :: 0 <= i < |v.entries| && !NamedOk(w, kind, byCaller, v.entries[i]))
    then Some(MalformedFrame)
    else if !Exact(w, kind, v) then Some(MalformedFrame)
    else if Has(w, v, Encoding) && At(w, v, Encoding) != Text(w.raw) && At(w, v, Encoding) != Text(w.msgpack)
    then Some(EnumUnknown)
    else if Has(w, v, Role) && At(w, v, Role) != Text(w.send) && At(w, v, Role) != Text(w.both) then Some(EnumUnknown)
    else if kind == Data && !Has(w, v, Sealed) && At(w, v, Encoding) == Text(w.raw) && !At(w, v, Body).Bytes?
    then Some(MalformedFrame)
    else if Has(w, v, Ext) && w.extCritical(At(w, v, Ext)) then Some(ExtensionUnsupported)
    else None
  }

  // ---------------------------------------------------------------- signed objects

  function SignedBytes(c: Suite, tag: bytes, key: bytes, tbs: bytes): bytes { tag + [0] + c.scheme.hash(key) + tbs }

  /** verifiedObject: the tbs under the decoding rule, its alg, and only then its signature. */
  function CheckObject(w: Vocabulary, c: Suite, tag: bytes, key: bytes, o: Object): Result<Value> {
    match Decode(o.tbs)
    case Rejected(_) => Fail(MalformedFrame)
    case Accepted(v) =>
      if !v.Map? || !Has(w, v, Alg) || !At(w, v, Alg).Text? then Fail(MalformedFrame)
      else if At(w, v, Alg).t != w.sigAlg && At(w, v, Alg).t != w.otherAlg then Fail(AlgUnsupported)
      else if At(w, v, Alg).t != w.sigAlg then Fail(MalformedFrame)
      else if !c.scheme.verify(SignedBytes(c, tag, key, o.tbs), o.signature, key) then Fail(SignatureInvalid)
      else Pass(v)
  }

  /** VerifyObject: the same with the carried key, which must have its form. */
  function CheckCarried(w: Vocabulary, c: Suite, tag: bytes, key: bytes, o: Object): Result<Value> {
    if !c.wellFormed(key) then Fail(MalformedFrame) else CheckObject(w, c, tag, key, o)
  }

  // ------------------------------------------------------------------- the verifiers

  type Id16 = b: bytes | |b| == 16 witness seq(16, _ => 0)

  /** The verified STREAM_OPEN. */
  datatype Open = Open(
    caller: Identity.Id32, target: Identity.Id32, key: bytes, requestId: Id16, requestHash: Identity.Hash48,
    serverStream: bool)

  datatype Side = Side(next: nat, ended: bool)

  /** The provider's key and signer are its first frame's. */
  datatype State = State(open: Open, provider: Side, caller: Side, held: Option<bytes>, signer: bytes)

  function OpenStream(open: Open): State { State(open, Side(0, false), Side(0, false), None, []) }

  /** A frame that verified, the key it verified with, and its signed fields. */
  datatype Verified = Verified(kind: Kind, number: nat, signer: bytes, key: bytes, fields: Value)

  datatype Outcome = Outcome(frame: Result<Verified>, next: State)

  function Refuse(st: State, why: Refusal): Outcome { Outcome(Fail(why), st) }

  predicate NamesRequest(w: Vocabulary, v: Value, open: Open) {
    At(w, v, RequestId) == Value.Bytes(open.requestId) && At(w, v, RequestHash) == Value.Bytes(open.requestHash)
  }

  function SeqOf(w: Vocabulary, v: Value): nat { if At(w, v, Seq).UInt? then At(w, v, Seq).u else 0 }

  function SignerOf(w: Vocabulary, v: Value): bytes { if At(w, v, Signer).Bytes? then At(w, v, Signer).b else [] }

  ghost function VerifyProvider(w: Vocabulary, c: Suite, f: Frame, st: State): Outcome {
    if st.provider.ended then Refuse(st, StreamEnded)
    else if st.held.None? then ProviderFirst(w, c, f, st)
    else ProviderLater(w, c, f, st)
  }

  ghost function ProviderFirst(w: Vocabulary, c: Suite, f: Frame, st: State): Outcome {
    if f.signed.key.None? then Refuse(st, SeqMismatch)
    else
      var key := f.signed.key.value;
      match CheckCarried(w, c, w.provider, key, f.signed)
      case Fail(why) => Refuse(st, why)
      case Pass(v) =>
        var bad := StreamRead(w, f.kind, false, v);
        if bad.Some? then Refuse(st, bad.value)
        else if SignerOf(w, v) != c.scheme.nodeId(key) then Refuse(st, KeyIdMismatch)
        else if !NamesRequest(w, v, st.open) then Refuse(st, RequestMismatch)
        else if SignerOf(w, v) != st.open.target then Refuse(st, NotTheTarget)
        else if SeqOf(w, v) != 0 then Refuse(st, SeqMismatch)
        else
          Outcome(Pass(Verified(f.kind, 0, SignerOf(w, v), key, v)),
                  st.(provider := Side(1, f.kind == End), held := Some(key), signer := SignerOf(w, v)))
  }

  ghost function ProviderLater(w: Vocabulary, c: Suite, f: Frame, st: State): Outcome
    requires st.held.Some?
  {
    var checked :=
      if f.signed.key.Some? then CheckCarried(w, c, w.provider, f.signed.key.value, f.signed)
      else CheckObject(w, c, w.provider, st.held.value, f.signed);
    match checked
    case Fail(why) => Refuse(st, why)
    case Pass(v) =>
      var bad := StreamRead(w, f.kind, false, v);
      if f.signed.key.Some? && f.signed.key.value != st.held.value then Refuse(st, KeyIdMismatch)
      else if bad.Some? then Refuse(st, bad.value)
      else if SignerOf(w, v) != st.signer then Refuse(st, KeyIdMismatch)
      else if !NamesRequest(w, v, st.open) then Refuse(st, RequestMismatch)
      else if SeqOf(w, v) != st.provider.next then Refuse(st, SeqMismatch)
      else if f.signed.key.Some? then Refuse(st, MalformedFrame)
      else
        Outcome(Pass(Verified(f.kind, SeqOf(w, v), SignerOf(w, v), st.held.value, v)),
                st.(provider := Side(SeqOf(w, v) + 1, f.kind == End)))
  }

  ghost function VerifyCaller(w: Vocabulary, c: Suite, f: Frame, st: State): Outcome {
    if f.kind == Reply || f.signed.key.Some? then Refuse(st, MalformedFrame)
    else if st.caller.ended then Refuse(st, StreamEnded)
    else
      match CheckObject(w, c, w.caller, st.open.key, f.signed)
      case Fail(why) => Refuse(st, why)
      case Pass(v) =>
        var bad := StreamRead(w, f.kind, true, v);
        if bad.Some? then Refuse(st, bad.value)
        else if f.kind == Data && st.open.serverStream then Refuse(st, MalformedFrame)
        else if SignerOf(w, v) != st.open.caller then Refuse(st, KeyIdMismatch)
        else if !NamesRequest(w, v, st.open) then Refuse(st, RequestMismatch)
        else if SeqOf(w, v) != st.caller.next then Refuse(st, SeqMismatch)
        else
          Outcome(Pass(Verified(f.kind, SeqOf(w, v), SignerOf(w, v), st.open.key, v)),
                  st.(caller := Side(SeqOf(w, v) + 1, f.kind == End)))
  }

  // --------------------------------------------------------------------- threaded runs

  /** A received frame, from the side it came from. */
  datatype Received = FromProvider(frame: Frame) | FromCaller(frame: Frame)

  ghost function Verify(w: Vocabulary, c: Suite, r: Received, st: State): Outcome {
    match r case FromProvider(f) => VerifyProvider(w, c, f, st) case FromCaller(f) => VerifyCaller(w, c, f, st)
  }

  /** A threaded run: the frames received, and the states a verifier held before, between and after them. */
  ghost predicate IsRun(w: Vocabulary, c: Suite, open: Open, run: seq<Received>, states: seq<State>,
                        outs: seq<Outcome>) {
    && |states| == |run| + 1 && |outs| == |run| && states[0] == OpenStream(open)
    && forall t :: 0 <= t < |run| ==> outs[t] == Verify(w, c, run[t], states[t]) && states[t + 1] == outs[t].next
  }

  /** The frames of one side accepted among the first `t`, in order. */
  ghost function AcceptedBy(run: seq<Received>, outs: seq<Outcome>, t: nat, provider: bool): seq<Verified>
    requires t <= |run| == |outs|
  {
    if t == 0 then []
    else
      var before := AcceptedBy(run, outs, t - 1, provider);
      var taken := run[t - 1].FromProvider? == provider && outs[t - 1].frame.Pass?;
      if taken then before + [outs[t - 1].frame.value] else before
  }

  /** What a side has accepted: frames numbered 0, 1, 2, ..., an END only as the last, and then no more. */
  ghost predicate Numbered(accepted: seq<Verified>, side: Side) {
    && |accepted| == side.next
    && (forall i :: 0 <= i < |accepted| ==> accepted[i].number == i)
    && (forall i :: 0 <= i < |accepted| - 1 ==> accepted[i].kind != End)
    && (side.ended <==> accepted != [] && accepted[|accepted| - 1].kind == End)
  }

  ghost predicate OneKey(c: Suite, accepted: seq<Verified>, st: State) {
    && (st.held.None? <==> accepted == [])
    && (st.held.Some? ==> c.scheme.nodeId(st.held.value) == st.open.target && st.signer == st.open.target)
    && (forall i :: 0 <= i < |accepted| ==> Some(accepted[i].key) == st.held && accepted[i].signer == st.open.target)
  }

  /** One frame: an accepted one is its side's next and leaves the other side alone; a refused one leaves everything. */
  ghost predicate GoesOn(c: Suite, byProvider: bool, st: State, out: Outcome) {
    match out.frame
    case Fail(_) => out.next == st
    case Pass(f) =>
      if byProvider then
        && !st.provider.ended && f.number == (if st.held.None? then 0 else st.provider.next)
        && out.next == st.(provider := Side(f.number + 1, f.kind == End), held := Some(f.key), signer := f.signer)
        && (st.held.None? ==> f.signer == st.open.target == c.scheme.nodeId(f.key))
        && (st.held.Some? ==> f.key == st.held.value && f.signer == st.signer)
      else
        && !st.caller.ended && f.number == st.caller.next && f.key == st.open.key && f.signer == st.open.caller
        && out.next == st.(caller := Side(f.number + 1, f.kind == End))
  }

  lemma FirstGoesOn(w: Vocabulary, c: Suite, f: Frame, st: State)
    requires !st.provider.ended && st.held.None?
    ensures GoesOn(c, true, st, ProviderFirst(w, c, f, st))
  {
  }

  lemma LaterGoesOn(w: Vocabulary, c: Suite, f: Frame, st: State)
    requires !st.provider.ended && st.held.Some?
    ensures GoesOn(c, true, st, ProviderLater(w, c, f, st))
  {
  }

  lemma {:induction false} ProviderGoesOn(w: Vocabulary, c: Suite, f: Frame, st: State)
    ensures GoesOn(c, true, st, VerifyProvider(w, c, f, st))
  {
    if !st.provider.ended && st.held.None? {
      FirstGoesOn(w, c, f, st);
    } else if !st.provider.ended {
      LaterGoesOn(w, c, f, st);
    }
  }

  lemma CallerGoesOn(w: Vocabulary, c: Suite, f: Frame, st: State)
    ensures GoesOn(c, false, st, VerifyCaller(w, c, f, st))
  {
  }

  lemma {:induction false} VerifyGoesOn(w: Vocabulary, c: Suite, r: Received, st: State)
    ensures GoesOn(c, r.FromProvider?, st, Verify(w, c, r, st))
  {
    match r
    case FromProvider(f) => ProviderGoesOn(w, c, f, st);
    case FromCaller(f) => CallerGoesOn(w, c, f, st);
  }

  /** What holds of a stream's state and the frames it has accepted. */
  ghost predicate InOrder(c: Suite, open: Open, st: State, provider: seq<Verified>, caller: seq<Verified>) {
    && st.open == open
    && Numbered(provider, st.provider) && Numbered(caller, st.caller)
    && OneKey(c, provider, st)
    && forall i :: 0 <= i < |caller| ==> caller[i].key == open.key && caller[i].signer == open.caller
  }

  lemma {:induction false} ProviderInOrder(c: Suite, open: Open, st: State, out: Outcome, ps: seq<Verified>,
                                           cs: seq<Verified>)
    requires InOrder(c, open, st, ps, cs) && GoesOn(c, true, st, out) && out.frame.Pass?
    ensures InOrder(c, open, out.next, ps + [out.frame.value], cs)
  {
  }

  lemma {:induction false} CallerInOrder(c: Suite, open: Open, st: State, out: Outcome, ps: seq<Verified>,
                                         cs: seq<Verified>)
    requires InOrder(c, open, st, ps, cs) && GoesOn(c, false, st, out) && out.frame.Pass?
    ensures InOrder(c, open, out.next, ps, cs + [out.frame.value])
  {
  }

  /** Over every threaded run: each side's accepted frames are numbered 0, 1, 2, ..., nothing follows a side's END,
      every provider frame verified with the key its first carried, whose id is the STREAM_OPEN's target, and every
      caller frame with the STREAM_OPEN's key. */
  lemma {:induction false} RunsInOrder(w: Vocabulary, c: Suite, open: Open, run: seq<Received>, states: seq<State>,
                                       outs: seq<Outcome>, t: nat)
    requires IsRun(w, c, open, run, states, outs) && t <= |run|
    ensures InOrder(c, open, states[t], AcceptedBy(run, outs, t, true), AcceptedBy(run, outs, t, false))
  {
    if t > 0 {
      RunsInOrder(w, c, open, run, states, outs, t - 1);
      VerifyGoesOn(w, c, run[t - 1], states[t - 1]);
      InOrderOn(c, open, run[t - 1], states[t - 1], outs[t - 1], AcceptedBy(run, outs, t - 1, true),
                AcceptedBy(run, outs, t - 1, false));
    }
  }

  lemma {:induction false} InOrderOn(c: Suite, open: Open, r: Received, st: State, out: Outcome, ps: seq<Verified>,
                                     cs: seq<Verified>)
    requires InOrder(c, open, st, ps, cs) && GoesOn(c, r.FromProvider?, st, out)
    ensures InOrder(c, open, out.next,
              if r.FromProvider? && out.frame.Pass? then ps + [out.frame.value] else ps,
              if !r.FromProvider? && out.frame.Pass? then cs + [out.frame.value] else cs)
  {
    if out.frame.Pass? && r.FromProvider? {
      ProviderInOrder(c, open, st, out, ps, cs);
    } else if out.frame.Pass? {
      CallerInOrder(c, open, st, out, ps, cs);
    }
  }

  /** What a verifier accepted was signed: under its side's label, with the key it names, over the bytes received. */
  lemma {:induction false} AcceptedIsSigned(w: Vocabulary, c: Suite, r: Received, st: State)
    requires Verify(w, c, r, st).frame.Pass?
    ensures var f := Verify(w, c, r, st).frame.value;
            var tag := if r.FromProvider? then w.provider else w.caller;
            && c.scheme.verify(SignedBytes(c, tag, f.key, r.frame.signed.tbs),
                               r.frame.signed.signature, f.key)
            && Decode(r.frame.signed.tbs) == Accepted(f.fields)
            && NamesRequest(w, f.fields, st.open) && StreamRead(w, r.frame.kind, r.FromCaller?, f.fields).None?
  {
  }
}
