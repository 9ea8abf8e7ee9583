/** Content addressing: chunking, the Merkle fold that doubles an odd last hash, the content id over size, count
    and root, and the path on which fetched bytes are accepted. The hash is a parameter; what the theorems say of
    it is "equal, or two different strings that were hashed have one digest". */
module Manifest {
  import opened Options
  import opened Bytes
  import opened Cbor
  import opened CborCanon
  import opened Fields

  const HASH_SIZE := 48
  const MAX_BLOCK_BYTES := 262144

  type Digest = d: bytes | |d| == HASH_SIZE witness seq(HASH_SIZE, _ => 0)
  type Hash = bytes -> Digest

  datatype ChunkInfo = ChunkInfo(index: nat, offset: nat, size: nat, hash: Digest)

  datatype Manifest = Manifest(
    mcid: bytes, name: bytes, size: u64, chunkSize: u64, chunkCount: u64, rootHash: Digest, chunks: seq<ChunkInfo>)

  /** Two different strings of `s` with one digest. */
  ghost predicate CollisionIn(hash: Hash, s: set<bytes>) {
    exists x, y :: x in s && y in s && x != y && hash(x) == hash(y)
  }

  // ------------------------------------------------------------------ chunks

  function Chunks(data: bytes, size: nat): seq<bytes>
    requires size > 0
    decreases |data|
  {
    if data == [] then []
    else if |data| <= size then [data]
    else [data[..size]] + Chunks(data[size..], size)
  }

  function Join(parts: seq<bytes>): bytes {
    if parts == [] then [] else parts[0] + Join(parts[1..])
  }

  function HashEach(hash: Hash, parts: seq<bytes>): (hs: seq<Digest>)
    ensures |hs| == |parts|
    ensures forall i :: 0 <= i < |parts| ==> hs[i] == hash(parts[i])
  {
    if parts == [] then [] else [hash(parts[0])] + HashEach(hash, parts[1..])
  }

  /** chunksFor: how many chunks of `size` bytes `n` bytes make. */
  function ChunksFor(n: nat, size: nat): nat
    requires size > 0
  {
    n / size + (if n % size != 0 then 1 else 0)
  }

  lemma {:induction false} ChunkCount(data: bytes, size: nat)
    requires size > 0
    ensures |Chunks(data, size)| == ChunksFor(|data|, size)
    decreases |data|
  {
    if |data| > size {
      ChunkCount(data[size..], size);
      DivStep(|data|, size);
    } else if |data| == size {
      DivUnique(size, size, 1, 0);
    } else {
      DivUnique(|data|, size, 0, |data|);
    }
  }

  lemma DivStep(n: nat, d: nat)
    requires 0 < d <= n
    ensures n / d == (n - d) / d + 1 && n % d == (n - d) % d
  {
    var q, r := (n - d) / d, (n - d) % d;
    assert n == d * (q + 1) + r;
    DivUnique(n, d, q + 1, r);
  }

  lemma MulGap(d: nat, k: nat)
    requires k >= 1
    ensures d * k >= d
  {
  }

  lemma DivUnique(n: nat, d: nat, q: nat, r: nat)
    requires 0 < d && r < d && n == d * q + r
    ensures n / d == q && n % d == r
  {
    var a, b := n / d, n % d;
    assert n == d * a + b;
    if a < q {
      MulGap(d, q - a);
    } else if a > q {
      MulGap(d, a - q);
    }
  }

  /** Chunks concatenate back to the data. */
  lemma {:induction false} ChunksJoin(data: bytes, size: nat)
    requires size > 0
    ensures Join(Chunks(data, size)) == data
    decreases |data|
  {
    if |data| > size {
      ChunksJoin(data[size..], size);
    } else if data != [] {
      assert [data][1..] == [];
    }
  }

  method DoChunk(data: bytes, size: nat) returns (chunks: seq<bytes>)
    requires size > 0
    ensures chunks == Chunks(data, size)
  {
    chunks := [];
    var i := 0;
    assert data[0..] == data;
    while i < |data|
      invariant 0 <= i
      invariant chunks + Chunks(if i <= |data| then data[i..] else [], size) == Chunks(data, size)
    {
      var end := i + size;
      if end > |data| {
        end := |data|;
      }
      assert data[i..][..end - i] == data[i..end];
      if i + size < |data| {
        assert data[i..][size..] == data[i + size..];
      } else {
        assert data[i..end] == data[i..] && [data[i..]] + [] == [data[i..]];
      }
      ghost var more := Chunks(if i + size <= |data| then data[i + size..] else [], size);
      assert Chunks(data[i..], size) == [data[i..end]] + more;
      assert chunks + ([data[i..end]] + more) == chunks + [data[i..end]] + more;
      chunks := chunks + [data[i..end]];
      i := i + size;
    }
    assert chunks + [] == chunks;
  }

  // ------------------------------------------------------------ the Merkle fold

  /** combine: one pass over pairs from the front, an odd last hash paired with itself. */
  function Combine(hash: Hash, hs: seq<Digest>): (r: seq<Digest>)
    ensures |r| == (|hs| + 1) / 2
  {
    if hs == [] then []
    else if |hs| == 1 then [hash(Both(hs[0], hs[0]))]
    else [hash(Both(hs[0], hs[1]))] + Combine(hash, hs[2..])
  }

  function Both(left: Digest, right: Digest): bytes { var l: bytes, r: bytes := left, right; l + r }

  function Fold(hash: Hash, hs: seq<Digest>): Digest
    requires hs != []
    decreases |hs|
  {
    if |hs| == 1 then hs[0] else Fold(hash, Combine(hash, hs))
  }

  /** rootHashFor: the fold, and the hash of nothing for no chunks. */
  function RootHash(hash: Hash, hs: seq<Digest>): Digest {
    if hs == [] then hash([]) else Fold(hash, hs)
  }

  /** The strings one pass hashes, and a whole fold. */
  ghost function CombineInputs(hs: seq<Digest>): set<bytes> {
    if hs == [] then {}
    else if |hs| == 1 then {Both(hs[0], hs[0])}
    else {Both(hs[0], hs[1])} + CombineInputs(hs[2..])
  }

  ghost function FoldInputs(hash: Hash, hs: seq<Digest>): set<bytes>
    decreases |hs|
  {
    if |hs| <= 1 then {} else CombineInputs(hs) + FoldInputs(hash, Combine(hash, hs))
  }

  lemma SplitPair(a: Digest, b: Digest, c: Digest, d: Digest)
    requires Both(a, b) == Both(c, d)
    ensures a == c && b == d
  {
    assert Both(a, b)[..HASH_SIZE] == a && Both(c, d)[..HASH_SIZE] == c;
    assert Both(a, b)[HASH_SIZE..] == b && Both(c, d)[HASH_SIZE..] == d;
  }

  lemma {:induction false} CombineInjective(hash: Hash, hs: seq<Digest>, gs: seq<Digest>)
    requires |hs| == |gs| && Combine(hash, hs) == Combine(hash, gs)
    ensures hs == gs || CollisionIn(hash, CombineInputs(hs) + CombineInputs(gs))
  {
    if hs != [] {
      var x := Both(hs[0], if |hs| == 1 then hs[0] else hs[1]);
      var y := Both(gs[0], if |gs| == 1 then gs[0] else gs[1]);
      assert Combine(hash, hs)[0] == hash(x) && Combine(hash, gs)[0] == hash(y);
      assert x in CombineInputs(hs) && y in CombineInputs(gs);
      if x == y {
        SplitPair(hs[0], if |hs| == 1 then hs[0] else hs[1], gs[0], if |gs| == 1 then gs[0] else gs[1]);
        if |hs| > 1 {
          assert Combine(hash, hs)[1..] == Combine(hash, hs[2..]) && Combine(hash, gs)[1..] == Combine(hash, gs[2..]);
          CombineInjective(hash, hs[2..], gs[2..]);
          assert hs == [hs[0], hs[1]] + hs[2..] && gs == [gs[0], gs[1]] + gs[2..];
        }
      }
    }
  }

  /** At one chunk count, one root means one list of chunk hashes, or a collision among the strings the two folds
      hashed, the doubled odd leaves included. */
  lemma {:induction false} FoldInjective(hash: Hash, hs: seq<Digest>, gs: seq<Digest>)
    requires |hs| == |gs| && hs != [] && Fold(hash, hs) == Fold(hash, gs)
    ensures hs == gs || CollisionIn(hash, FoldInputs(hash, hs) + FoldInputs(hash, gs))
    decreases |hs|
  {
    if |hs| > 1 {
      var up, vp := Combine(hash, hs), Combine(hash, gs);
      FoldInjective(hash, up, vp);
      if up == vp {
        CombineInjective(hash, hs, gs);
      }
    }
  }

  /** Across counts it is not injective: an odd list and the same list with its last hash repeated fold alike, so
      the content id must carry the count. */
  lemma {:induction false} OddLastDoubled(hash: Hash, hs: seq<Digest>)
    requires |hs| % 2 == 1
    ensures Combine(hash, hs + [hs[|hs| - 1]]) == Combine(hash, hs)
    ensures |hs| > 1 ==> RootHash(hash, hs + [hs[|hs| - 1]]) == RootHash(hash, hs)
  {
    var doubled := hs + [hs[|hs| - 1]];
    if |hs| == 1 {
      assert doubled[2..] == [];
    } else {
      OddLastDoubled(hash, hs[2..]);
      assert doubled[2..] == hs[2..] + [hs[2..][|hs| - 3]];
    }
  }

  /** What is left to combine from `i` on. */
  ghost function CombineFrom(hash: Hash, hs: seq<Digest>, i: nat): seq<Digest> {
    Combine(hash, if i <= |hs| then hs[i..] else [])
  }

  lemma CombineStep(hash: Hash, hs: seq<Digest>, i: nat)
    requires i < |hs|
    ensures var right := if i + 1 < |hs| then hs[i + 1] else hs[i];
            CombineFrom(hash, hs, i) == [hash(Both(hs[i], right))] + CombineFrom(hash, hs, i + 2)
  {
    if i + 1 < |hs| {
      assert hs[i..][2..] == hs[i + 2..];
    }
  }

  lemma Regroup(done: seq<Digest>, x: Digest, more: seq<Digest>)
    ensures done + ([x] + more) == done + [x] + more
  {
  }

  method RunCombine(hash: Hash, hs: seq<Digest>) returns (out: seq<Digest>)
    ensures out == Combine(hash, hs)
  {
    out := [];
    var i := 0;
    assert hs[0..] == hs;
    while i < |hs|
      invariant 0 <= i <= |hs| + 1
      invariant out + CombineFrom(hash, hs, i) == Combine(hash, hs)
    {
      var left := hs[i];
      var right := left;
      if i + 1 < |hs| {
        right := hs[i + 1];
      }
      var both := hash(Both(left, right));
      CombineStep(hash, hs, i);
      Regroup(out, both, CombineFrom(hash, hs, i + 2));
      out := out + [both];
      i := i + 2;
    }
    assert CombineFrom(hash, hs, i) == [];
    assert out + [] == out;
  }

  method RootHashFor(hash: Hash, infos: seq<ChunkInfo>) returns (root: Digest)
    ensures root == RootHash(hash, HashesOf(infos))
  {
    if |infos| == 0 {
      return hash([]);
    }
    var hashes := HashesOf(infos);
    while |hashes| > 1
      invariant hashes != [] && Fold(hash, hashes) == Fold(hash, HashesOf(infos))
      decreases |hashes|
    {
      hashes := RunCombine(hash, hashes);
    }
    return hashes[0];
  }

  // ------------------------------------------------------------- the content id

  function HashesOf(infos: seq<ChunkInfo>): (hs: seq<Digest>)
    ensures |hs| == |infos|
    ensures forall i :: 0 <= i < |infos| ==> hs[i] == infos[i].hash
  {
    if infos == [] then [] else [infos[0].hash] + HashesOf(infos[1..])
  }

  function MakeMcid(codec: byte, h: Digest): bytes { [2, codec] + h }

  function BlockMcid(hash: Hash, data: bytes): bytes { MakeMcid(0x55, hash(data)) }

  /** The map a manifest's id hashes: name and algorithm as text, no timestamp, no chunks. */
  function Canonical(name: bytes, size: u64, chunkSize: u64, chunkCount: u64, root: Digest): Value {
    Map([Named(Ascii("name"), Text(name)),
         Named(Ascii("size"), UInt(size)),
         Named(Ascii("chunk_size"), UInt(chunkSize)),
         Named(Ascii("chunk_count"), UInt(chunkCount)),
         Named(Ascii("hash_algorithm"), Text(Ascii("sha384"))),
         Named(Ascii("root_hash"), Value.Bytes(root))])
  }

  function ComputeMcid(hash: Hash, name: bytes, size: u64, chunkSize: u64, chunkCount: u64, root: Digest): bytes {
    MakeMcid(0x56, hash(Encode(Canonical(name, size, chunkSize, chunkCount, root))))
  }

  function McidFor(hash: Hash, m: Manifest): bytes {
    ComputeMcid(hash, m.name, m.size, m.chunkSize, m.chunkCount, m.rootHash)
  }

  lemma CanonicalDistinct(name: bytes, size: u64, chunkSize: u64, chunkCount: u64, root: Digest)
    ensures DistinctAt(Canonical(name, size, chunkSize, chunkCount, root).entries)
  {
    assert Ascii("name")[0] == 110 && Ascii("size")[0] == 115;
  }

  lemma CanonicalShort(name: bytes, size: u64, chunkSize: u64, chunkCount: u64, root: Digest)
    requires |name| < TWO63
    ensures AllShort(Canonical(name, size, chunkSize, chunkCount, root).entries)
  {
  }

  lemma CanonicalKeys(n: bytes, s: u64, cs: u64, c: u64, r: Digest, n': bytes, s': u64, cs': u64, c': u64, r': Digest)
    ensures var es, fs := Canonical(n, s, cs, c, r).entries, Canonical(n', s', cs', c', r').entries;
            |es| == |fs| && forall i :: 0 <= i < |es| ==> es[i].key == fs[i].key
  {
  }

  lemma CanonicalFields(n: bytes, s: u64, cs: u64, c: u64, r: Digest, n': bytes, s': u64, cs': u64, c': u64, r': Digest)
    requires Canonical(n, s, cs, c, r).entries == Canonical(n', s', cs', c', r').entries
    ensures n == n' && s == s' && cs == cs' && c == c' && r == r'
  {
    var es := Canonical(n, s, cs, c, r).entries;
    assert es[0].val == Text(n') && es[1].val == UInt(s') && es[2].val == UInt(cs')
        && es[3].val == UInt(c') && es[5].val == Value.Bytes(r');
  }

  /** The id's preimage says every field: equal bytes, equal name, sizes, count and root. */
  lemma {:induction false} CanonicalInjective(n: bytes, s: u64, cs: u64, c: u64, r: Digest,
                                              n': bytes, s': u64, cs': u64, c': u64, r': Digest)
    requires |n| < TWO63 && |n'| < TWO63
    requires Encode(Canonical(n, s, cs, c, r)) == Encode(Canonical(n', s', cs', c', r'))
    ensures n == n' && s == s' && cs == cs' && c == c' && r == r'
  {
    CanonicalDistinct(n', s', cs', c', r');
    CanonicalShort(n, s, cs, c, r);
    CanonicalShort(n', s', cs', c', r');
    CanonicalKeys(n, s, cs, c, r, n', s', cs', c', r');
    FlatInjective(Canonical(n, s, cs, c, r).entries, Canonical(n', s', cs', c', r').entries);
    CanonicalFields(n, s, cs, c, r, n', s', cs', c', r');
  }

  // ---------------------------------------------------------------- manifests

  function InfosFrom(hash: Hash, chunks: seq<bytes>, index: nat, offset: nat): (infos: seq<ChunkInfo>)
    ensures |infos| == |chunks|
  {
    if chunks == [] then []
    else
      var info := ChunkInfo(index, offset, |chunks[0]|, hash(chunks[0]));
      [info] + InfosFrom(hash, chunks[1..], index + 1, offset + |chunks[0]|)
  }

  /** makeChunkInfos, the loop. */
  method MakeChunkInfos(hash: Hash, chunks: seq<bytes>) returns (infos: seq<ChunkInfo>)
    ensures infos == InfosFrom(hash, chunks, 0, 0)
  {
    infos := [];
    var offset := 0;
    assert chunks[0..] == chunks;
    for i := 0 to |chunks|
      invariant offset >= 0 && infos + InfosFrom(hash, chunks[i..], i, offset) == InfosFrom(hash, chunks, 0, 0)
    {
      assert chunks[i..][1..] == chunks[i + 1..];
      var info := ChunkInfo(i, offset, |chunks[i]|, hash(chunks[i]));
      ghost var more := InfosFrom(hash, chunks[i + 1..], i + 1, offset + |chunks[i]|);
      assert infos + ([info] + more) == infos + [info] + more;
      infos := infos + [info];
      offset := offset + |chunks[i]|;
    }
    assert infos + [] == infos;
  }

  lemma {:induction false} InfosHashes(hash: Hash, chunks: seq<bytes>, index: nat, offset: nat)
    ensures HashesOf(InfosFrom(hash, chunks, index, offset)) == HashEach(hash, chunks)
  {
    if chunks != [] {
      var infos := InfosFrom(hash, chunks, index, offset);
      InfosHashes(hash, chunks[1..], index + 1, offset + |chunks[0]|);
      assert infos[1..] == InfosFrom(hash, chunks[1..], index + 1, offset + |chunks[0]|);
    }
  }

  /** Create, apart from the timestamp, which no id covers. */
  function Create(hash: Hash, data: bytes, name: bytes, size: u64): (r: (Manifest, seq<bytes>))
    requires size > 0 && |data| < TWO63
  {
    var chunks := Chunks(data, size);
    var infos := InfosFrom(hash, chunks, 0, 0);
    var root := RootHash(hash, HashesOf(infos));
    ChunkCountFits(data, size);
    (Manifest(ComputeMcid(hash, name, |data|, size, |infos|, root), name, |data|, size, |infos|, root, infos), chunks)
  }

  lemma ChunkCountFits(data: bytes, size: nat)
    requires size > 0
    ensures |Chunks(data, size)| <= |data|
    decreases |data|
  {
    if |data| > size {
      ChunkCountFits(data[size..], size);
    }
  }

  /** Verify: the size, and a fresh root over the data chunked the same way. */
  predicate Verifies(hash: Hash, m: Manifest, data: bytes) {
    && m.chunkSize > 0
    && |data| == m.size
    && RootHash(hash, HashEach(hash, Chunks(data, m.chunkSize))) == m.rootHash
  }

  predicate VerifiesMcid(hash: Hash, m: Manifest, mcid: bytes) {
    ValidUtf8(m.name) && McidFor(hash, m) == mcid
  }

  /** cutAt: chunk `i` as Create cuts it. */
  predicate CutAt(c: ChunkInfo, i: nat, m: Manifest) {
    var offset := i * m.chunkSize;
    && c.index == i && c.offset == offset && c.size > 0
    && c.size == (if m.size - offset < m.chunkSize then m.size - offset else m.chunkSize)
  }

  ghost predicate Whole(m: Manifest) {
    && m.chunkSize > 0
    && m.chunkCount == |m.chunks| == ChunksFor(m.size, m.chunkSize)
    && forall i :: 0 <= i < |m.chunks| ==> CutAt(m.chunks[i], i, m)
  }

  method CheckWhole(m: Manifest) returns (ok: bool)
    ensures ok == Whole(m)
  {
    if m.chunkSize == 0 || m.chunkCount != |m.chunks| || m.chunkCount != ChunksFor(m.size, m.chunkSize) {
      return false;
    }
    var i := 0;
    while i < |m.chunks| && CutAt(m.chunks[i], i, m)
      invariant 0 <= i <= |m.chunks|
      invariant forall j :: 0 <= j < i ==> CutAt(m.chunks[j], j, m)
    {
      i := i + 1;
    }
    return i == |m.chunks|;
  }

  // -------------------------------------------------------------------- fetching

  /** What a sharer answers to a request for a root: nothing usable, a block, or a manifest as read from the wire. */
  datatype Reply = NoReply | Block(b: bytes) | Root(m: Manifest)

  datatype Limits = Limits(maxBytes: nat, maxChunks: nat)

  /** The whole acceptance path of a fetch, on any replies: the block under its own id; or the manifest whole,
      under the id asked for and within the limits, every chunk a block under its own id, and the concatenation
      verified against the manifest. */
  ghost function Fetched(hash: Hash, mcid: bytes, root: Reply, chunk: nat -> Reply, limits: Limits): Option<bytes> {
    match root
    case NoReply => None
    case Block(b) => if |b| <= MAX_BLOCK_BYTES && BlockMcid(hash, b) == mcid then Some(b) else None
    case Root(m) =>
      if !Whole(m) || !VerifiesMcid(hash, m, mcid) then None
      else if m.size > limits.maxBytes || m.chunkCount > limits.maxChunks then None
      else if !(forall i :: 0 <= i < m.chunkCount ==> ChunkOk(hash, m, i, chunk(i))) then None
      else
        var data := Join(seq(m.chunkCount, i requires 0 <= i < m.chunkCount => BytesOf(chunk(i))));
        if Verifies(hash, m, data) then Some(data) else None
  }

  function BytesOf(r: Reply): bytes { if r.Block? then r.b else [] }

  /** fetchChunk: a block of at most one chunk, under the id the manifest's hash gives it. */
  predicate ChunkOk(hash: Hash, m: Manifest, i: nat, r: Reply) {
    i < |m.chunks| && r.Block? && |r.b| <= MAX_BLOCK_BYTES && BlockMcid(hash, r.b) == MakeMcid(0x55, m.chunks[i].hash)
  }

  /** Every chunk is handed out: an order in which the workers finish them, whatever it is. */
  ghost predicate Complete(order: seq<nat>, count: nat) {
    (forall k :: 0 <= k < |order| ==> order[k] < count) && forall i :: 0 <= i < count ==> i in order
  }

  /** fetchParts: workers fill a shared array as their chunks come in, in any order, and one refusal fails them all. */
  method FetchParts(hash: Hash, m: Manifest, chunk: nat -> Reply, order: seq<nat>) returns (r: Option<seq<bytes>>)
    requires Complete(order, m.chunkCount)
    ensures r.Some? <==> forall i :: 0 <= i < m.chunkCount ==> ChunkOk(hash, m, i, chunk(i))
    ensures r.Some? ==> r.value == seq(m.chunkCount, i requires 0 <= i < m.chunkCount => BytesOf(chunk(i)))
  {
    var parts := new bytes[m.chunkCount](_ => []);
    var failed := false;
    for n := 0 to |order|
      invariant failed <==> exists k :: 0 <= k < n && !ChunkOk(hash, m, order[k], chunk(order[k]))
      invariant !failed ==> forall k :: 0 <= k < n ==> parts[order[k]] == BytesOf(chunk(order[k]))
    {
      var i := order[n];
      if ChunkOk(hash, m, i, chunk(i)) {
        parts[i] := BytesOf(chunk(i));
      } else {
        failed := true;
      }
    }
    if failed {
      return None;
    }
    forall i | 0 <= i < m.chunkCount
      ensures ChunkOk(hash, m, i, chunk(i)) && parts[i] == BytesOf(chunk(i))
    {
      assert i in order;
      var k :| 0 <= k < |order| && order[k] == i;
    }
    return Some(parts[..]);
  }

  method FetchFrom(hash: Hash, mcid: bytes, root: Reply, chunk: nat -> Reply, limits: Limits, order: seq<nat>)
    returns (r: Option<bytes>)
    requires root.Root? ==> Complete(order, root.m.chunkCount)
    ensures r == Fetched(hash, mcid, root, chunk, limits)
  {
    match root {
      case NoReply => return None;
      case Block(b) => return if |b| <= MAX_BLOCK_BYTES && BlockMcid(hash, b) == mcid then Some(b) else None;
      case Root(m) =>
        var whole := CheckWhole(m);
        if !whole || !VerifiesMcid(hash, m, mcid) || m.size > limits.maxBytes || m.chunkCount > limits.maxChunks {
          return None;
        }
        var parts := FetchParts(hash, m, chunk, order);
        if parts.None? {
          return None;
        }
        var data := JoinParts(parts.value);
        return if Verifies(hash, m, data) then Some(data) else None;
    }
  }

  /** fetchChunks' loop. */
  method JoinParts(parts: seq<bytes>) returns (whole: bytes)
    ensures whole == Join(parts)
  {
    whole := [];
    assert parts[0..] == parts;
    for i := 0 to |parts|
      invariant whole + Join(parts[i..]) == Join(parts)
    {
      assert parts[i..][1..] == parts[i + 1..];
      assert whole + (parts[i] + Join(parts[i + 1..])) == whole + parts[i] + Join(parts[i + 1..]);
      whole := whole + parts[i];
    }
    assert whole + [] == whole;
  }

  // ---------------------------------------------------------------- the theorems

  /** Every string Create hashes for `data`, or Verify and the id check for a manifest and its data. */
  ghost function Hashed(hash: Hash, data: bytes, size: nat, preimage: bytes): set<bytes>
    requires size > 0
  {
    var chunks := Chunks(data, size);
    (set i | 0 <= i < |chunks| :: chunks[i]) + FoldInputs(hash, HashEach(hash, chunks)) + {preimage, []}
  }

  lemma CollisionGrows(hash: Hash, s: set<bytes>, t: set<bytes>)
    requires CollisionIn(hash, s) && s <= t
    ensures CollisionIn(hash, t)
  {
  }

  lemma {:induction false} HashEachInjective(hash: Hash, xs: seq<bytes>, ys: seq<bytes>)
    requires |xs| == |ys| && HashEach(hash, xs) == HashEach(hash, ys)
    ensures xs == ys || CollisionIn(hash, (set i | 0 <= i < |xs| :: xs[i]) + (set i | 0 <= i < |ys| :: ys[i]))
  {
    if xs != ys {
      var i :| 0 <= i < |xs| && xs[i] != ys[i];
      assert hash(xs[i]) == HashEach(hash, xs)[i] == HashEach(hash, ys)[i] == hash(ys[i]);
    }
  }

  /** One size, one chunk size and one root mean one content, or a collision among the strings hashed for the two. */
  lemma {:induction false} RootDeterminesData(hash: Hash, data: bytes, other: bytes, size: nat, p: bytes, q: bytes)
    requires size > 0 && |data| == |other|
    requires RootHash(hash, HashEach(hash, Chunks(data, size))) == RootHash(hash, HashEach(hash, Chunks(other, size)))
    ensures data == other || CollisionIn(hash, Hashed(hash, data, size, p) + Hashed(hash, other, size, q))
  {
    var xs, ys := Chunks(data, size), Chunks(other, size);
    ChunkCount(data, size);
    ChunkCount(other, size);
    ChunksJoin(data, size);
    ChunksJoin(other, size);
    var hs, gs := HashEach(hash, xs), HashEach(hash, ys);
    if xs != [] {
      FoldInjective(hash, hs, gs);
      HashGoal(hash, data, other, size, p, q);
    }
  }

  lemma {:induction false} HashGoal(hash: Hash, data: bytes, other: bytes, size: nat, p: bytes, q: bytes)
    requires size > 0 && |Chunks(data, size)| == |Chunks(other, size)|
    requires var hs, gs := HashEach(hash, Chunks(data, size)), HashEach(hash, Chunks(other, size));
             hs == gs || CollisionIn(hash, FoldInputs(hash, hs) + FoldInputs(hash, gs))
    ensures Chunks(data, size) == Chunks(other, size)
         || CollisionIn(hash, Hashed(hash, data, size, p) + Hashed(hash, other, size, q))
  {
    var xs, ys := Chunks(data, size), Chunks(other, size);
    var all := Hashed(hash, data, size, p) + Hashed(hash, other, size, q);
    if HashEach(hash, xs) == HashEach(hash, ys) {
      HashEachInjective(hash, xs, ys);
      if xs != ys {
        CollisionGrows(hash, (set i | 0 <= i < |xs| :: xs[i]) + (set i | 0 <= i < |ys| :: ys[i]), all);
      }
    } else {
      CollisionGrows(hash, FoldInputs(hash, HashEach(hash, xs)) + FoldInputs(hash, HashEach(hash, ys)), all);
    }
  }

  /** A content id binds its content. Whatever any sharer answers, bytes the fetch path accepts for the id Create
      gave `data` are `data`, or two different strings hashed by Create and by the fetch have one digest. */
  lemma {:induction false} FetchedIsCreated(hash: Hash, data: bytes, name: bytes, size: u64,
                                            root: Reply, chunk: nat -> Reply, limits: Limits)
    requires 0 < size && |data| < TWO63 && |name| < TWO63
    requires root.Root? ==> |root.m.name| < TWO63
    requires Fetched(hash, Create(hash, data, name, size).0.mcid, root, chunk, limits).Some?
    ensures var mcid := Create(hash, data, name, size).0.mcid;
            var got := Fetched(hash, mcid, root, chunk, limits).value;
            && root.Root? && root.m.chunkSize > 0
            && (got == data ||
                CollisionIn(hash, Hashed(hash, data, size, PreimageOf(Create(hash, data, name, size).0))
                                + Hashed(hash, got, root.m.chunkSize, PreimageOf(root.m))))
  {
    var m := Create(hash, data, name, size).0;
    var got := Fetched(hash, m.mcid, root, chunk, limits).value;
    CodecsDiffer(hash, m, root);
    var p, q := PreimageOf(m), PreimageOf(root.m);
    assert hash(p) == hash(q) by { McidIsHash(hash, m, root.m); }
    if p == q {
      CanonicalInjective(m.name, m.size, m.chunkSize, m.chunkCount, m.rootHash,
                         root.m.name, root.m.size, root.m.chunkSize, root.m.chunkCount, root.m.rootHash);
      InfosHashes(hash, Chunks(data, size), 0, 0);
      RootDeterminesData(hash, data, got, size, p, q);
    }
  }

  /** What a manifest's own id hashes. */
  function PreimageOf(m: Manifest): bytes { Encode(Canonical(m.name, m.size, m.chunkSize, m.chunkCount, m.rootHash)) }

  lemma McidIsHash(hash: Hash, m: Manifest, other: Manifest)
    requires McidFor(hash, m) == McidFor(hash, other)
    ensures hash(PreimageOf(m)) == hash(PreimageOf(other))
  {
    assert McidFor(hash, m)[2..] == hash(PreimageOf(m));
    assert McidFor(hash, other)[2..] == hash(PreimageOf(other));
  }

  /** A block is never accepted under a manifest's id: the codec byte tells them apart. */
  lemma CodecsDiffer(hash: Hash, m: Manifest, root: Reply)
    ensures root.Block? ==> BlockMcid(hash, root.b) != McidFor(hash, m)
  {
    if root.Block? {
      assert BlockMcid(hash, root.b)[1] == 0x55 && McidFor(hash, m)[1] == 0x56;
    }
  }

  /** The same for content small enough to be one block. */
  lemma {:induction false} FetchedIsBlock(hash: Hash, data: bytes, root: Reply, chunk: nat -> Reply, limits: Limits)
    requires Fetched(hash, BlockMcid(hash, data), root, chunk, limits).Some?
    ensures var got := Fetched(hash, BlockMcid(hash, data), root, chunk, limits).value;
            root.Block? && (got == data || CollisionIn(hash, {data, got}))
  {
    if root.Root? {
      CodecsDiffer(hash, root.m, Block(data));
    } else {
      assert BlockMcid(hash, root.b)[2..] == hash(root.b) && BlockMcid(hash, data)[2..] == hash(data);
    }
  }

  lemma OneMore(i: nat, size: nat)
    requires i > 0
    ensures (i - 1) * size + size == i * size
  {
  }

  /** Where Create cuts: chunk `i` starts at i * size and holds `size` bytes, or what is left. */
  lemma {:induction false} InfosOfChunks(hash: Hash, data: bytes, size: nat, index: nat, offset: nat, i: nat)
    requires size > 0 && i < |Chunks(data, size)|
    ensures i * size < |data|
    ensures InfosFrom(hash, Chunks(data, size), index, offset)[i]
         == ChunkInfo(index + i, offset + i * size,
                      if |data| - i * size < size then |data| - i * size else size, hash(Chunks(data, size)[i]))
    decreases |data|
  {
    var chunks := Chunks(data, size);
    if i > 0 {
      var tail := data[size..];
      assert chunks[1..] == Chunks(tail, size);
      InfosOfChunks(hash, tail, size, index + 1, offset + size, i - 1);
      OneMore(i, size);
      assert chunks[i] == Chunks(tail, size)[i - 1];
    }
  }

  lemma {:induction false} CreateIsWhole(hash: Hash, data: bytes, name: bytes, size: u64)
    requires size > 0 && |data| < TWO63
    ensures var m := Create(hash, data, name, size).0;
            Whole(m) && Verifies(hash, m, data) && (VerifiesMcid(hash, m, m.mcid) <==> ValidUtf8(name))
  {
    var m := Create(hash, data, name, size).0;
    ChunkCount(data, size);
    InfosHashes(hash, Chunks(data, size), 0, 0);
    forall i | 0 <= i < |m.chunks|
      ensures CutAt(m.chunks[i], i, m)
    {
      InfosOfChunks(hash, data, size, 0, 0, i);
    }
  }

  lemma {:induction false} ChunksBounded(data: bytes, size: nat, i: nat)
    requires size > 0 && i < |Chunks(data, size)|
    ensures |Chunks(data, size)[i]| <= size
    decreases |data|
  {
    if i > 0 {
      ChunksBounded(data[size..], size, i - 1);
    }
  }

  /** What Create made is fetched back: its manifest and its chunks, served as they are, are accepted and give the
      data, for any name in UTF-8, any chunk size a block can hold and any content within the limits. */
  lemma {:induction false} CreatedIsFetched(hash: Hash, data: bytes, name: bytes, size: u64, limits: Limits)
    requires 0 < size <= MAX_BLOCK_BYTES && |data| < TWO63 && ValidUtf8(name)
    requires |data| <= limits.maxBytes && |Chunks(data, size)| <= limits.maxChunks
    ensures var (m, chunks) := Create(hash, data, name, size);
            Fetched(hash, m.mcid, Root(m), (i: nat) => if i < |chunks| then Block(chunks[i]) else NoReply, limits) ==
                Some(data)
  {
    var (m, chunks) := Create(hash, data, name, size);
    var chunk := (i: nat) => if i < |chunks| then Block(chunks[i]) else NoReply;
    CreateIsWhole(hash, data, name, size);
    forall i | 0 <= i < m.chunkCount
      ensures ChunkOk(hash, m, i, chunk(i))
    {
      ChunksBounded(data, size, i);
      InfosOfChunks(hash, data, size, 0, 0, i);
    }
    assert seq(m.chunkCount, i requires 0 <= i < m.chunkCount => BytesOf(chunk(i))) == chunks;
    ChunksJoin(data, size);
    InfosHashes(hash, chunks, 0, 0);
  }
}
