/** ruleCheck, the send-side walk, as the Go type works: an item counter and a map of seen key bytes. It refuses
    exactly what the decoding rule refuses where the frame arrives. */
module FrameCheck {
  import opened Bytes
  import opened Cbor
  import opened CborRoundTrip
  import opened CborCanon

  const MAX_FRAME_BYTES := 0x00FF_FFFF
  const MAX_PAYLOAD_NESTING := MAX_NESTING - 1
  const FRAME_RESERVED := 64
  const MAX_PAYLOAD_ELEMENTS := MAX_ELEMENTS - FRAME_RESERVED

  /** Keys that reached `seen`: their bytes tell them apart as their values do. */
  ghost predicate SeenAs(keys: set<Value>, seen: set<bytes>) {
    && (forall k :: k in keys ==> IsKey(k) && Fits(k) && Admissible(k, 0, MAX_NESTING))
    && (forall k :: k in keys ==> Encode(k) in seen)
    && (forall b :: b in seen ==> exists k :: k in keys && Encode(k) == b)
  }

  lemma {:induction false} SeenByBytes(keys: set<Value>, seen: set<bytes>, k: Value)
    requires SeenAs(keys, seen) && IsKey(k) && Fits(k) && Admissible(k, 0, MAX_NESTING)
    ensures Encode(k) in seen <==> k in keys
    ensures SeenAs(keys + {k}, seen + {Encode(k)})
  {
    if Encode(k) in seen {
      var q :| q in keys && Encode(q) == Encode(k);
      SerializePrefixFree(q, k, [], []);
    }
  }

  /** The entries from `i` on are admissible, with keys distinct from each other and from `keys`. */
  ghost predicate MapTail(es: seq<Entry>, i: nat, keys: set<Value>, depth: nat, max: nat)
    requires i <= |es|
  {
    AdmissibleEntries(es[i..], depth, max) && DistinctKeys(es[i..]) && Keys(es[i..]) !! keys
  }

  lemma {:induction false} MapTailStep(es: seq<Entry>, i: nat, keys: set<Value>, depth: nat, max: nat)
    requires i < |es|
    ensures MapTail(es, i, keys, depth, max) <==>
              AdmissibleEntry(es[i], depth, max) && es[i].key !in keys
                  && MapTail(es, i + 1, keys + {es[i].key}, depth, max)
    ensures CountEntries(es[i..]) == CountEntry(es[i]) + CountEntries(es[i + 1..])
    ensures FitsEntries(es[i..]) <==> FitsEntry(es[i]) && FitsEntries(es[i + 1..])
  {
    assert es[i..][1..] == es[i + 1..];
  }

  class RuleCheck {
    const maxItems: nat
    const maxNesting: nat
    var items: nat

    constructor (items: nat, nesting: nat)
      ensures maxItems == items && maxNesting == nesting && this.items == 0
    {
      maxItems, maxNesting, this.items := items, nesting, 0;
    }

    method CheckValue(v: Value, depth: nat) returns (ok: bool)
      requires Fits(v)
      modifies this
      ensures ok <==> Admissible(v, depth, maxNesting) && old(items) + Count(v) <= maxItems
      ensures ok ==> items == old(items) + Count(v)
      decreases v, 1
    {
      items := items + 1;
      if items > maxItems {
        return false;
      }
      match v {
        case Float(bits) => return Finite(bits);
        case UInt(u) => return u < TWO63;
        case NegInt(u) => return u < TWO63;
        case Text(t) => return ValidUtf8(t);
        case List(_) => ok := CheckList(v, depth);
        case Map(_) => ok := CheckMap(v, depth);
        case _ => return true;
      }
    }

    method CheckList(v: Value, depth: nat) returns (ok: bool)
      requires v.List? && Fits(v) && items <= maxItems
      modifies this
      ensures ok <==> Admissible(v, depth, maxNesting) && old(items) + CountAll(v.items) <= maxItems
      ensures ok ==> items == old(items) + CountAll(v.items)
      decreases v, 0
    {
      if depth >= maxNesting {
        return false;
      }
      var xs := v.items;
      assert xs[0..] == xs;
      for i := 0 to |xs|
        invariant items <= maxItems && FitsAll(xs[i..])
        invariant items + CountAll(xs[i..]) == old(items) + CountAll(xs)
        invariant AdmissibleAll(xs[i..], depth + 1, maxNesting) == AdmissibleAll(xs, depth + 1, maxNesting)
      {
        assert xs[i..][1..] == xs[i + 1..];
        var item := CheckValue(xs[i], depth + 1);
        if !item {
          return false;
        }
      }
      return true;
    }

    method CheckMap(v: Value, depth: nat) returns (ok: bool)
      requires v.Map? && Fits(v) && items <= maxItems
      modifies this
      ensures ok <==> Admissible(v, depth, maxNesting) && old(items) + CountEntries(v.entries) <= maxItems
      ensures ok ==> items == old(items) + CountEntries(v.entries)
      decreases v, 0
    {
      if depth >= maxNesting {
        return false;
      }
      var es := v.entries;
      var seen: set<bytes> := {};
      ghost var keys: set<Value> := {};
      assert es[0..] == es;
      for i := 0 to |es|
        invariant items <= maxItems && FitsEntries(es[i..]) && SeenAs(keys, seen)
        invariant items + CountEntries(es[i..]) == old(items) + CountEntries(es)
        invariant MapTail(es, i, keys, depth + 1, maxNesting) == MapTail(es, 0, {}, depth + 1, maxNesting)
      {
        MapTailStep(es, i, keys, depth + 1, maxNesting);
        var e := es[i];
        EntryTermination(v, i);
        var keyOk := CheckKey(e.key, depth);
        if !keyOk {
          return false;
        }
        var keyBytes := Encode(e.key);
        SeenByBytes(keys, seen, e.key);
        if keyBytes in seen {
          return false;
        }
        seen := seen + {keyBytes};
        keys := keys + {e.key};
        var valOk := CheckValue(e.val, depth + 1);
        if !valOk {
          return false;
        }
      }
      return true;
    }

    method CheckKey(k: Value, depth: nat) returns (ok: bool)
      requires Fits(k)
      modifies this
      ensures ok <==> IsKey(k) && Admissible(k, depth + 1, maxNesting) && old(items) + Count(k) <= maxItems
      ensures ok ==> items == old(items) + Count(k)
      decreases k, 2
    {
      if k.Text? || k.UInt? || k.NegInt? {
        ok := CheckValue(k, depth);
        return;
      }
      return false;
    }
  }

  lemma EntryTermination(v: Value, i: nat)
    requires v.Map? && i < |v.entries|
    ensures v.entries[i].val < v && v.entries[i].key < v
  {
    var e := v.entries[i];
    assert e < v;
  }

  /** CheckFrame passes a value if and only if its encoding decodes where it arrives, and then it arrives as that
      value with its maps sorted: nesting, item budget, integer range, text, float and key rules all agree. */
  method CheckFrame(v: Value) returns (ok: bool)
    requires Fits(v)
    ensures ok <==> Decode(Encode(v)).Accepted?
    ensures ok ==> Decode(Encode(v)) == Accepted(Canon(v))
    ensures ok <==> Rule(v)
  {
    var check := new RuleCheck(MAX_ELEMENTS, MAX_NESTING);
    RuleIffDecodes(v);
    ok := check.CheckValue(v, 0);
  }

  ghost predicate PayloadRule(v: Value) {
    && Admissible(v, 0, MAX_PAYLOAD_NESTING)
    && Count(v) <= MAX_PAYLOAD_ELEMENTS
    && |Encode(v)| <= MAX_FRAME_BYTES
  }

  /** CheckPayload: the same walk one level and 64 items tighter, and the frame cap on the payload's own bytes. */
  method CheckPayload(v: Value) returns (ok: bool)
    requires Fits(v)
    ensures ok <==> PayloadRule(v)
  {
    var check := new RuleCheck(MAX_PAYLOAD_ELEMENTS, MAX_PAYLOAD_NESTING);
    ok := check.CheckValue(v, 0);
    if ok {
      return |Encode(v)| <= MAX_FRAME_BYTES;
    }
  }

  /** Nesting is relative: a value one level deeper under a limit one level higher. */
  lemma {:induction false} NestingShifts(v: Value, depth: nat, max: nat)
    ensures Admissible(v, depth, max) == Admissible(v, depth + 1, max + 1)
    decreases v, 0
  {
    match v
    case List(items) => NestingShiftsAll(items, depth + 1, max);
    case Map(entries) => NestingShiftsEntries(entries, depth + 1, max);
    case _ =>
  }

  lemma {:induction false} NestingShiftsAll(items: seq<Value>, depth: nat, max: nat)
    ensures AdmissibleAll(items, depth, max) == AdmissibleAll(items, depth + 1, max + 1)
    decreases items, 1
  {
    if items != [] {
      NestingShifts(items[0], depth, max);
      NestingShiftsAll(items[1..], depth, max);
    }
  }

  lemma {:induction false} NestingShiftsEntries(entries: seq<Entry>, depth: nat, max: nat)
    ensures AdmissibleEntries(entries, depth, max) == AdmissibleEntries(entries, depth + 1, max + 1)
    decreases entries, 2
  {
    if entries != [] {
      NestingShiftsEntry(entries[0], depth, max);
      NestingShiftsEntries(entries[1..], depth, max);
    }
  }

  lemma {:induction false} NestingShiftsEntry(e: Entry, depth: nat, max: nat)
    ensures AdmissibleEntry(e, depth, max) == AdmissibleEntry(e, depth + 1, max + 1)
    decreases e, 1
  {
    NestingShifts(e.key, depth, max);
    NestingShifts(e.val, depth, max);
  }

  /** The payload limits leave exactly the room a frame needs: a payload that passes CheckPayload, put under any
      distinct key of a frame whose other fields the rule admits and which holds at most 64 items besides it,
      makes a frame that passes CheckFrame and so decodes where it arrives. */
  lemma {:induction false} PayloadTravels(fields: seq<Entry>, name: Value, payload: Value)
    requires PayloadRule(payload) && Fits(payload) && Fits(name)
    requires FitsEntries(fields) && |fields| + 1 < TWO63
    requires AdmissibleEntries(fields, 1, MAX_NESTING) && DistinctKeys(fields)
    requires IsKey(name) && Admissible(name, 1, MAX_NESTING) && name !in Keys(fields)
    requires 2 + CountEntries(fields) <= FRAME_RESERVED
    ensures var frame := Map([Entry(name, payload)] + fields);
            Rule(frame) && Decode(Encode(frame)) == Accepted(Canon(frame))
  {
    var frame := Map([Entry(name, payload)] + fields);
    PayloadAdmitted(fields, name, payload);
    RuleIffDecodes(frame);
  }

  lemma {:induction false} PayloadAdmitted(fields: seq<Entry>, name: Value, payload: Value)
    requires PayloadRule(payload) && Fits(payload) && Fits(name)
    requires FitsEntries(fields) && |fields| + 1 < TWO63
    requires AdmissibleEntries(fields, 1, MAX_NESTING) && DistinctKeys(fields)
    requires IsKey(name) && Admissible(name, 1, MAX_NESTING) && name !in Keys(fields)
    requires 2 + CountEntries(fields) <= FRAME_RESERVED
    ensures var frame := Map([Entry(name, payload)] + fields); Fits(frame) && Rule(frame)
  {
    var es := [Entry(name, payload)] + fields;
    assert es[1..] == fields;
    NestingShifts(payload, 0, MAX_PAYLOAD_NESTING);
    assert CountEntry(es[0]) == 1 + Count(payload);
    assert FitsEntry(es[0]);
  }
}
