/** Bindings and status statements: how they are signed as deterministic CBOR and what a verifier checks of them. */
module Identity {
  import opened Options
  import opened Bytes
  import opened Cbor
  import opened Fields

  const TOLERANCE_MS := 5 * 60 * 1000
  const MAX_BINDING_MS := 7 * 24 * 60 * 60 * 1000
  const MAX_STATUS_MS := 60 * 60 * 1000
  const MAX_PROTOCOL_INT: int := 0x20_0000_0000_0000

  type Id32 = b: bytes | |b| == 32 witness seq(32, _ => 0)
  type Hash48 = b: bytes | |b| == 48 witness seq(48, _ => 0)

  /** The cryptography, as functions: signing with a private key, checking under a carried public key, the node id
      a public key derives, and SHA-384. */
  datatype Scheme = Scheme(
    public: bytes -> bytes, sign: (bytes, bytes) -> bytes, verify: (bytes, bytes, bytes) -> bool,
    nodeId: bytes -> Id32, hash: bytes -> Hash48)

  /** A key's own signature checks under its public key. */
  ghost predicate Lawful(s: Scheme) {
    forall key: bytes, message: bytes :: s.verify(message, s.sign(key, message), s.public(key))
  }

  datatype Signed = Signed(tbs: bytes, signature: bytes)

  /** What a signature covers: the structure's label, a zero byte and the tbs. */
  function Labelled(tag: bytes, tbs: bytes): bytes { tag + [0] + tbs }

  predicate WithinWindow(from: int, to: int, max: int) {
    from >= 0 && from <= to && to < MAX_PROTOCOL_INT && to - from <= max
  }

  function SignTBS(s: Scheme, key: bytes, tag: bytes, names: seq<bytes>, vals: seq<Value>): Signed
    requires |names| == |vals|
  {
    var tbs := Encode(Map(Zip(names, vals)));
    Signed(tbs, s.sign(key, Labelled(tag, tbs)))
  }

  /** The labels and fixed texts of the signed structures, and their field names in the order the source lists them. */
  datatype Vocabulary = Vocabulary(
    bindingLabel: bytes, statusLabel: bytes, connect: bytes, sha384: bytes, sigAlg: bytes,
    bindingNames: seq<bytes>, statusNames: seq<bytes>)

  function BindingNames(): seq<bytes> {
    [Ascii("label"), Ascii("node_id"), Ascii("use"), Ascii("subject_hash"), Ascii("binding_id"),
     Ascii("not_before"), Ascii("not_after"), Ascii("hash_alg"), Ascii("sig_alg")]
  }

  function StatusNames(): seq<bytes> {
    [Ascii("label"), Ascii("node_id"), Ascii("binding_hash"), Ascii("issued_at"), Ascii("expires_at"), Ascii("sig_alg")]
  }

  function Macula(): Vocabulary {
    Vocabulary(
      Ascii("MACULA-PQ-BINDING-CONNECT-V1"), Ascii("MACULA-PQ-STATUS-V1"), Ascii("connect"), Ascii("SHA-384"),
      Ascii("ML-DSA-87"),
      BindingNames(), StatusNames())
  }

  /** What the checks need of a vocabulary: valid text, and names that tell fields apart. */
  ghost predicate WellChosen(w: Vocabulary) {
    && Good(Text(w.bindingLabel)) && Good(Text(w.statusLabel)) && Good(Text(w.connect))
    && Good(Text(w.sha384)) && Good(Text(w.sigAlg))
    && |w.bindingNames| == 9 && GoodNames(w.bindingNames)
    && |w.statusNames| == 6 && GoodNames(w.statusNames)
  }

  function BindingNamesTail(): seq<bytes> {
    [Ascii("binding_id"), Ascii("not_before"), Ascii("not_after"), Ascii("hash_alg"), Ascii("sig_alg")]
  }

  lemma {:induction false} BindingNamesTailGood()
    ensures GoodNames(BindingNamesTail())
  {
    var n0: seq<bytes> := [];
    GoodNamesPush("sig_alg", n0);
    var n1 := [Ascii("sig_alg")] + n0;
    GoodNamesPush("hash_alg", n1);
    var n2 := [Ascii("hash_alg")] + n1;
    GoodNamesPush("not_after", n2);
    var n3 := [Ascii("not_after")] + n2;
    GoodNamesPush("not_before", n3);
    var n4 := [Ascii("not_before")] + n3;
    assert Ascii("binding_id")[0] == 98 && Ascii("not_before")[0] == 110;
    GoodNamesPush("binding_id", n4);
    assert BindingNamesTail() == [Ascii("binding_id")] + n4;
  }

  lemma {:induction false} BindingNamesGood()
    ensures |BindingNames()| == 9 && GoodNames(BindingNames())
  {
    BindingNamesTailGood();
    var n5 := BindingNamesTail();
    GoodNamesPush("subject_hash", n5);
    var n6 := [Ascii("subject_hash")] + n5;
    GoodNamesPush("use", n6);
    var n7 := [Ascii("use")] + n6;
    assert Ascii("node_id")[0] == 110 && Ascii("sig_alg")[0] == 115;
    GoodNamesPush("node_id", n7);
    var n8 := [Ascii("node_id")] + n7;
    GoodNamesPush("label", n8);
    assert BindingNames() == [Ascii("label")] + n8;
  }

  lemma {:induction false} StatusNamesGood()
    ensures |StatusNames()| == 6 && GoodNames(StatusNames())
  {
    var n0: seq<bytes> := [];
    GoodNamesPush("sig_alg", n0);
    var n1 := [Ascii("sig_alg")] + n0;
    GoodNamesPush("expires_at", n1);
    var n2 := [Ascii("expires_at")] + n1;
    GoodNamesPush("issued_at", n2);
    var n3 := [Ascii("issued_at")] + n2;
    GoodNamesPush("binding_hash", n3);
    var n4 := [Ascii("binding_hash")] + n3;
    assert Ascii("node_id")[0] == 110 && Ascii("sig_alg")[0] == 115;
    GoodNamesPush("node_id", n4);
    var n5 := [Ascii("node_id")] + n4;
    GoodNamesPush("label", n5);
    assert StatusNames() == [Ascii("label")] + n5;
  }

  lemma {:induction false} MaculaIsWellChosen()
    ensures WellChosen(Macula())
  {
    BindingNamesGood();
    StatusNamesGood();
    GoodAscii("MACULA-PQ-BINDING-CONNECT-V1"); GoodAscii("MACULA-PQ-STATUS-V1"); GoodAscii("connect");
    GoodAscii("SHA-384"); GoodAscii("ML-DSA-87");
  }

  /** ConnectBinding: label, node_id, use, subject_hash, binding_id, not_before, not_after, hash_alg and sig_alg,
      refused outside what a verifier accepts. */
  function ConnectBinding(s: Scheme, w: Vocabulary, key: bytes, connectKey: bytes, bindingId: bytes, notBefore: int,
                          notAfter: int): Option<Signed>
    requires |w.bindingNames| == 9
  {
    if !WithinWindow(notBefore, notAfter, MAX_BINDING_MS) then None
    else Some(SignTBS(s, key, w.bindingLabel, w.bindingNames,
      [Text(w.bindingLabel), Value.Bytes(s.nodeId(s.public(key))), Text(w.connect), Value.Bytes(s.hash(connectKey)),
       Value.Bytes(bindingId), UInt(notBefore), UInt(notAfter), Text(w.sha384), Text(w.sigAlg)]))
  }

  /** StatusStatement: label, node_id, binding_hash, issued_at, expires_at and sig_alg. */
  function StatusStatement(s: Scheme, w: Vocabulary, key: bytes, binding: Signed, issuedAt: int,
                           expiresAt: int): Option<Signed>
    requires |w.statusNames| == 6
  {
    if !WithinWindow(issuedAt, expiresAt, MAX_STATUS_MS) then None
    else Some(SignTBS(s, key, w.statusLabel, w.statusNames,
      [Text(w.statusLabel), Value.Bytes(s.nodeId(s.public(key))), Value.Bytes(s.hash(binding.tbs)),
       UInt(issuedAt), UInt(expiresAt), Text(w.sigAlg)]))
  }

  // ---------------------------------------------------------------- verifying

  datatype Refusal =
    | SignatureInvalid | MalformedFrame | WrongUse | NodeIdMismatch | KeyMismatch | NotYetValid | Expired
    | StatusBindingMismatch | FutureDated

  datatype Verdict = Verified(until: int) | Denied(why: Refusal)

  predicate IsSized(v: Value, n: nat) { v.Bytes? && |v.b| == n }

  /** protocolInt: an integer in the signed 64-bit range. */
  predicate IsInt(v: Value) { (v.UInt? || v.NegInt?) && v.u < TWO63 }

  function IntOf(v: Value): int
    requires IsInt(v)
  {
    if v.UInt? then v.u else -1 - v.u
  }

  predicate BindingWellFormed(w: Vocabulary, f: nat -> Value) {
    && f(0).Text? && f(2).Text? && IsSized(f(1), 32) && IsSized(f(3), 48) && IsSized(f(4), 16)
    && IsInt(f(5)) && IsInt(f(6)) && WithinWindow(IntOf(f(5)), IntOf(f(6)), MAX_BINDING_MS)
    && f(7) == Text(w.sha384) && f(8) == Text(w.sigAlg)
  }

  /** verifyBinding for a CONNECT key: the signature over the bytes received, then the fields, in order. */
  function VerifyConnectBinding(s: Scheme, w: Vocabulary, b: Signed, identityKey: bytes, connectKey: bytes,
                                now: int): Verdict
    requires |w.bindingNames| == 9
  {
    if !s.verify(Labelled(w.bindingLabel, b.tbs), b.signature, identityKey) then Denied(SignatureInvalid)
    else
      var d := Decode(b.tbs);
      if !Shaped(d, w.bindingNames) then Denied(MalformedFrame)
      else
        var f := (i: nat) => if i < 9 then Field(d.value, w.bindingNames[i]) else Null;
        BindingFields(s, w, f, identityKey, connectKey, now)
  }

  function BindingFields(s: Scheme, w: Vocabulary, f: nat -> Value, identityKey: bytes, connectKey: bytes,
                         now: int): Verdict {
    if !BindingWellFormed(w, f) then Denied(MalformedFrame)
    else if f(0).t != w.bindingLabel || f(2).t != w.connect then Denied(WrongUse)
    else if f(1).b != s.nodeId(identityKey) then Denied(NodeIdMismatch)
    else if f(3).b != s.hash(connectKey) then Denied(KeyMismatch)
    else if now + TOLERANCE_MS < IntOf(f(5)) then Denied(NotYetValid)
    else if now - TOLERANCE_MS > IntOf(f(6)) then Denied(Expired)
    else Verified(IntOf(f(6)))
  }

  predicate StatusWellFormed(w: Vocabulary, f: nat -> Value) {
    && f(0) == Text(w.statusLabel) && IsSized(f(1), 32) && IsSized(f(2), 48)
    && IsInt(f(3)) && IsInt(f(4)) && WithinWindow(IntOf(f(3)), IntOf(f(4)), MAX_STATUS_MS) && f(5) == Text(w.sigAlg)
  }

  function VerifyStatus(s: Scheme, w: Vocabulary, statement: Signed, binding: Signed, identityKey: bytes,
                        now: int): Verdict
    requires |w.statusNames| == 6
  {
    if !s.verify(Labelled(w.statusLabel, statement.tbs), statement.signature, identityKey) then Denied(SignatureInvalid)
    else
      var d := Decode(statement.tbs);
      if !Shaped(d, w.statusNames) then Denied(MalformedFrame)
      else
        var f := (i: nat) => if i < 6 then Field(d.value, w.statusNames[i]) else Null;
        StatusFields(s, w, f, binding, identityKey, now)
  }

  function StatusFields(s: Scheme, w: Vocabulary, f: nat -> Value, binding: Signed, identityKey: bytes,
                        now: int): Verdict {
    if !StatusWellFormed(w, f) then Denied(MalformedFrame)
    else if f(1).b != s.nodeId(identityKey) then Denied(NodeIdMismatch)
    else if f(2).b != s.hash(binding.tbs) then Denied(StatusBindingMismatch)
    else if IntOf(f(3)) > now + TOLERANCE_MS then Denied(FutureDated)
    else if now - TOLERANCE_MS > IntOf(f(4)) then Denied(Expired)
    else Verified(IntOf(f(4)))
  }

  // ------------------------------------------------------- what was signed verifies

  /** A binding an identity key issued verifies exactly within five minutes of its period, and says when it ends. */
  lemma {:induction false} IssuedBindingVerifies(s: Scheme, w: Vocabulary, key: bytes, connectKey: bytes,
                                                 bindingId: bytes,
                                                 notBefore: int, notAfter: int, now: int)
    requires Lawful(s) && WellChosen(w) && |bindingId| == 16 && WithinWindow(notBefore, notAfter, MAX_BINDING_MS)
    ensures var b := ConnectBinding(s, w, key, connectKey, bindingId, notBefore, notAfter).value;
            VerifyConnectBinding(s, w, b, s.public(key), connectKey, now) ==
              if now + TOLERANCE_MS < notBefore then Denied(NotYetValid)
              else if now - TOLERANCE_MS > notAfter then Denied(Expired)
              else Verified(notAfter)
  {
    var vals := [Text(w.bindingLabel), Value.Bytes(s.nodeId(s.public(key))), Text(w.connect),
                 Value.Bytes(s.hash(connectKey)),
                 Value.Bytes(bindingId), UInt(notBefore), UInt(notAfter), Text(w.sha384), Text(w.sigAlg)];
    ZipDecodes(w.bindingNames, vals);
    var v := Decode(Encode(Map(Zip(w.bindingNames, vals)))).value;
    var f := (i: nat) => if i < 9 then Field(v, w.bindingNames[i]) else Null;
    assert f(0) == vals[0] && f(1) == vals[1] && f(2) == vals[2] && f(3) == vals[3] && f(4) == vals[4]
        && f(5) == vals[5] && f(6) == vals[6] && f(7) == vals[7] && f(8) == vals[8];
    BindingVerdict(s, w, f, key, connectKey, bindingId, notBefore, notAfter, now);
  }

  lemma BindingVerdict(s: Scheme, w: Vocabulary, f: nat -> Value, key: bytes, connectKey: bytes, bindingId: bytes,
                       notBefore: int, notAfter: int, now: int)
    requires |bindingId| == 16 && WithinWindow(notBefore, notAfter, MAX_BINDING_MS)
    requires f(0) == Text(w.bindingLabel) && f(1) == Value.Bytes(s.nodeId(s.public(key))) && f(2) == Text(w.connect)
    requires f(3) == Value.Bytes(s.hash(connectKey)) && f(4) == Value.Bytes(bindingId)
    requires f(5) == UInt(notBefore) && f(6) == UInt(notAfter) && f(7) == Text(w.sha384) && f(8) == Text(w.sigAlg)
    ensures BindingFields(s, w, f, s.public(key), connectKey, now) ==
              if now + TOLERANCE_MS < notBefore then Denied(NotYetValid)
              else if now - TOLERANCE_MS > notAfter then Denied(Expired)
              else Verified(notAfter)
  {
  }

  /** A statement an identity key issued for a binding verifies with it exactly within five minutes of its period. */
  lemma {:induction false} IssuedStatusVerifies(s: Scheme, w: Vocabulary, key: bytes, binding: Signed, issuedAt: int,
                                                expiresAt: int, now: int)
    requires Lawful(s) && WellChosen(w) && WithinWindow(issuedAt, expiresAt, MAX_STATUS_MS)
    ensures var t := StatusStatement(s, w, key, binding, issuedAt, expiresAt).value;
            VerifyStatus(s, w, t, binding, s.public(key), now) ==
              if issuedAt > now + TOLERANCE_MS then Denied(FutureDated)
              else if now - TOLERANCE_MS > expiresAt then Denied(Expired)
              else Verified(expiresAt)
  {
    var vals := [Text(w.statusLabel), Value.Bytes(s.nodeId(s.public(key))), Value.Bytes(s.hash(binding.tbs)),
                 UInt(issuedAt), UInt(expiresAt), Text(w.sigAlg)];
    ZipDecodes(w.statusNames, vals);
    var v := Decode(Encode(Map(Zip(w.statusNames, vals)))).value;
    var f := (i: nat) => if i < 6 then Field(v, w.statusNames[i]) else Null;
    assert f(0) == vals[0] && f(1) == vals[1] && f(2) == vals[2] && f(3) == vals[3] && f(4) == vals[4];
    assert f(5) == vals[5];
    StatusVerdict(s, w, f, key, binding, issuedAt, expiresAt, now);
  }

  lemma StatusVerdict(s: Scheme, w: Vocabulary, f: nat -> Value, key: bytes, binding: Signed, issuedAt: int,
                      expiresAt: int, now: int)
    requires WithinWindow(issuedAt, expiresAt, MAX_STATUS_MS)
    requires f(0) == Text(w.statusLabel) && f(1) == Value.Bytes(s.nodeId(s.public(key)))
    requires f(2) == Value.Bytes(s.hash(binding.tbs))
    requires f(3) == UInt(issuedAt) && f(4) == UInt(expiresAt) && f(5) == Text(w.sigAlg)
    ensures StatusFields(s, w, f, binding, s.public(key), now) ==
              if issuedAt > now + TOLERANCE_MS then Denied(FutureDated)
              else if now - TOLERANCE_MS > expiresAt then Denied(Expired)
              else Verified(expiresAt)
  {
  }
}
