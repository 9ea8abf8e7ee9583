/** Length-prefixed frames: one frame, and a stream of them read in arbitrary pieces. */
module FrameCodec {
  import opened Bytes
  import opened Cbor
  import opened CborCanon
  import opened FrameCheck

  datatype Encoded = Wire(b: bytes) | TooLarge

  /** Encode: the payload after its length as four bytes, refused over the cap. */
  function EncodeFrame(v: Value): Encoded {
    var payload := Encode(v);
    if |payload| > MAX_FRAME_BYTES then TooLarge else Wire(BigEndian(|payload|, 4) + payload)
  }

  datatype Frame = Complete(value: Value, consumed: nat) | NeedMore(n: nat) | Broken

  /** Decode: the frame at the head of `buf`, how many more bytes to wait for, or a refusal. */
  function DecodeFrame(buf: bytes): (r: Frame)
    ensures r.Complete? ==> 4 <= r.consumed <= |buf|
    ensures r.NeedMore? ==> r.n > 0
  {
    if |buf| < 4 then NeedMore(4 - |buf|)
    else
      var claimed := FromBigEndian(buf[..4]);
      if claimed > MAX_FRAME_BYTES then Broken
      else if |buf| < 4 + claimed then NeedMore(4 + claimed - |buf|)
      else
        match Decode(buf[4..4 + claimed])
        case Rejected(_) => Broken
        case Accepted(v) => Complete(v, 4 + claimed)
  }

  /** The frames taken from a buffer one after another, what is left of it, and whether a frame was refused. */
  datatype Drained = Drained(frames: seq<Value>, rest: bytes, failed: bool)

  function Drain(buf: bytes): Drained
    decreases |buf|
  {
    match DecodeFrame(buf)
    case NeedMore(_) => Drained([], buf, false)
    case Broken => Drained([], buf, true)
    case Complete(v, n) => var d := Drain(buf[n..]); Drained([v] + d.frames, d.rest, d.failed)
  }

  /** A reader holding what it could not use yet, given one more read. */
  function Feed(state: Drained, read: bytes): Drained {
    if state.failed then state
    else var d := Drain(state.rest + read); Drained(state.frames + d.frames, d.rest, d.failed)
  }

  function FeedAll(state: Drained, pieces: seq<bytes>): Drained
    decreases pieces
  {
    if pieces == [] then state else FeedAll(Feed(state, pieces[0]), pieces[1..])
  }

  function Concat(parts: seq<bytes>): bytes {
    if parts == [] then [] else parts[0] + Concat(parts[1..])
  }

  /** Bytes after a frame, or after the point where one is refused, change nothing. */
  lemma DecodeFrameIgnoresTail(a: bytes, b: bytes)
    requires !DecodeFrame(a).NeedMore?
    ensures DecodeFrame(a + b) == DecodeFrame(a)
  {
    assert (a + b)[..4] == a[..4];
    var claimed := FromBigEndian(a[..4]);
    if claimed <= MAX_FRAME_BYTES {
      assert (a + b)[4..4 + claimed] == a[4..4 + claimed];
    }
  }

  /** `e` is what draining goes on to: `f`'s frames after `d`'s, unless `d` had already failed. */
  ghost predicate GoesOn(d: Drained, f: Drained, e: Drained) {
    if d.failed then e.failed && e.frames == d.frames else e == Drained(d.frames + f.frames, f.rest, f.failed)
  }

  lemma GoesOnAfter(v: Value, d: Drained, f: Drained, e: Drained)
    requires GoesOn(d, f, e)
    ensures GoesOn(Drained([v] + d.frames, d.rest, d.failed), f, Drained([v] + e.frames, e.rest, e.failed))
  {
    assert [v] + (d.frames + f.frames) == [v] + d.frames + f.frames;
  }

  lemma {:induction false} DrainAcross(a: bytes, b: bytes)
    ensures GoesOn(Drain(a), Drain(Drain(a).rest + b), Drain(a + b))
    decreases |a|
  {
    var r := DecodeFrame(a);
    if r.NeedMore? {
      assert [] + Drain(a + b).frames == Drain(a + b).frames;
    } else {
      DecodeFrameIgnoresTail(a, b);
      if r.Complete? {
        var tail := a[r.consumed..];
        DrainAcross(tail, b);
        assert (a + b)[r.consumed..] == tail + b;
        GoesOnAfter(r.value, Drain(tail), Drain(Drain(tail).rest + b), Drain(tail + b));
      }
    }
  }

  /** Where the reads are cut does not matter: a reader takes the same frames, refuses alike, and is left holding
      the same bytes as if the whole stream had come in one read. */
  lemma {:induction false} CutsDoNotMatter(start: bytes, pieces: seq<bytes>)
    ensures var whole, fed := Drain(start + Concat(pieces)), FeedAll(Drain(start), pieces);
            && fed.frames == whole.frames && fed.failed == whole.failed
            && (!fed.failed ==> fed.rest == whole.rest)
    decreases pieces
  {
    if pieces == [] {
      assert start + [] == start;
    } else {
      var next := start + pieces[0];
      assert start + Concat(pieces) == next + Concat(pieces[1..]);
      DrainAcross(start, pieces[0]);
      CutsDoNotMatter(next, pieces[1..]);
      if Drain(start).failed {
        DrainAcross(start, Concat(pieces));
        FailedStays(Drain(start), pieces);
      }
    }
  }

  lemma {:induction false} FailedStays(state: Drained, pieces: seq<bytes>)
    requires state.failed
    ensures FeedAll(state, pieces) == state
    decreases pieces
  {
    if pieces != [] {
      FailedStays(state, pieces[1..]);
    }
  }

  /** A value a sender may send: it passes CheckFrame and its encoding is within the cap. */
  ghost predicate Sendable(v: Value) { Fits(v) && Rule(v) && EncodeFrame(v).Wire? }

  lemma {:induction false} FrameReadsBack(v: Value, rest: bytes)
    requires Sendable(v)
    ensures DecodeFrame(EncodeFrame(v).b + rest) == Complete(Canon(v), |EncodeFrame(v).b|)
  {
    var payload := Encode(v);
    var buf := EncodeFrame(v).b + rest;
    Pow256Values();
    assert buf[..4] == BigEndian(|payload|, 4);
    BigEndianRoundTrip(|payload|, 4);
    assert buf[4..4 + |payload|] == payload;
    RuleIffDecodes(v);
  }

  ghost function Stream(vs: seq<Value>): bytes
    requires forall v :: v in vs ==> Sendable(v)
  {
    if vs == [] then [] else assert Sendable(vs[0]); EncodeFrame(vs[0]).b + Stream(vs[1..])
  }

  function CanonEach(vs: seq<Value>): seq<Value> {
    if vs == [] then [] else [Canon(vs[0])] + CanonEach(vs[1..])
  }

  lemma {:induction false} StreamDrains(vs: seq<Value>)
    requires forall v :: v in vs ==> Sendable(v)
    ensures Drain(Stream(vs)) == Drained(CanonEach(vs), [], false)
  {
    if vs != [] {
      StreamDrains(vs[1..]);
      FrameReadsBack(vs[0], Stream(vs[1..]));
      var first := EncodeFrame(vs[0]).b;
      assert (first + Stream(vs[1..]))[|first|..] == Stream(vs[1..]);
    }
  }

  /** The codec's promise end to end: frames sent one after another and read in pieces cut anywhere arrive as the
      same frames in the same order, with nothing left over and nothing refused. */
  lemma {:induction false} StreamArrives(vs: seq<Value>, pieces: seq<bytes>)
    requires forall v :: v in vs ==> Sendable(v)
    requires Concat(pieces) == Stream(vs)
    ensures FeedAll(Drained([], [], false), pieces) == Drained(CanonEach(vs), [], false)
  {
    StreamDrains(vs);
    FromNothing(pieces);
  }

  lemma {:induction false} FromNothing(pieces: seq<bytes>)
    ensures var whole, fed := Drain(Concat(pieces)), FeedAll(Drained([], [], false), pieces);
            fed.frames == whole.frames && fed.failed == whole.failed && (!fed.failed ==> fed.rest == whole.rest)
  {
    CutsDoNotMatter([], pieces);
    assert [] + Concat(pieces) == Concat(pieces);
    assert Drain([]) == Drained([], [], false);
  }

  /** What a partial frame asks for is something, and never more than is missing. */
  lemma {:induction false} NeedMoreIsMissing(v: Value, k: nat)
    requires Sendable(v) && k < |EncodeFrame(v).b|
    ensures var r := DecodeFrame(EncodeFrame(v).b[..k]);
            r.NeedMore? && 1 <= r.n <= |EncodeFrame(v).b| - k
  {
    var full := EncodeFrame(v).b;
    if k >= 4 {
      assert full[..k][..4] == BigEndian(|Encode(v)|, 4);
      Pow256Values();
      BigEndianRoundTrip(|Encode(v)|, 4);
    }
  }
}
