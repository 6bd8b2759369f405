/** Range reads of local content, cold, warm or without an index: all return the
    requested part of the one body with the fixed digest and size, or fail. */
module IndexRead {
  import opened Base
  import opened IndexScan
  import opened IndexCache

  const MAX_DIGEST_BYTES: nat := 8 * 1024 * 1024
  const MAX_BUFFERED_FILE_BYTES: nat := 64 * 1024 * 1024
  const INDEX_OVERHEAD: nat := 512

  /** The least power of two from `p` on that reaches `n`. */
  function PowerFrom(n: nat, p: nat): (r: nat)
    requires p > 0
    ensures n <= r && p <= r
    decreases if p < n then n - p else 0
  {
    if n <= p then p else PowerFrom(n, 2 * p)
  }

  /** The digests' allowance: what a doubling vector could take, within the cap. */
  function Payload(count: nat): nat {
    Min(PowerFrom(32 * count, 1), MAX_DIGEST_BYTES)
  }

  function ChargeOf(count: nat, domain: string): nat {
    Payload(count) + 2 * |domain| + INDEX_OVERHEAD
  }

  /** The charge covers the digests of every file that may be indexed. */
  lemma ChargeCovers(count: nat, domain: string)
    requires count <= MAX_DIGEST_BYTES / 32
    ensures ChargeOf(count, domain) >= 32 * count + |domain| + INDEX_OVERHEAD
  {
  }

  ghost predicate Trusted(sha: Bytes -> Digest, es: Slots) {
    forall f :: IndexCache.Holds(es, f) ==> FactOk(sha, f)
  }

  /** Nobody outside the cache holds more or less than before. */
  ghost predicate SameHandles(h: Handles, h': Handles) {
    forall id :: Handle(h, id) == Handle(h', id)
  }

  /** Two successful reads of the same range agree, however each was served. */
  lemma ExactUnique(sha: Bytes -> Digest, digest: Digest, size: nat, offset: nat, end: nat, a: Bytes, b: Bytes)
    requires CollisionFree(sha) && offset <= end && Exact(sha, digest, size, offset, end, a) && Exact(sha, digest, size, offset, end, b)
    ensures a == b
  {
    var x :| sha(x) == digest && |x| == size && a == Window(x, offset, end);
    var y :| sha(y) == digest && |y| == size && b == Window(y, offset, end);
    assert sha(x) == sha(y);
  }

  /** The whole-file contract, with or without collecting chunk digests. */
  method Scan(sha: Bytes -> Digest, digest: Digest, size: nat, offset: nat, end: nat, out: Sink, scratch: Option<nat>, index: bool)
    returns (r: Result<()>, chunks: seq<Digest>, ghost body: Bytes)
    requires offset <= end && out.bytes == []
    modifies out
    ensures r.Ok? ==> sha(body) == digest && |body| == size && out.bytes == Window(body, offset, end) && |out.bytes| == end - offset
    ensures r.Ok? ==> Exact(sha, digest, size, offset, end, out.bytes)
    ensures r.Ok? && index ==> chunks == ChunkDigests(sha, body)
  {
    r, chunks, body := ScanBody(sha, digest, size, offset, end, out, if scratch.Some? then scratch.value else SCAN_CAPACITY, index);
    if r.Ok? {
      var seen;
      r, seen := CheckMetadata(size);
    }
  }

  /** Serve from a cached fact. */
  method ReadWarm(sha: Bytes -> Digest, fact: Index, digest: Digest, size: nat, offset: nat, end: nat, out: Sink, scratch: Option<nat>)
    returns (r: Result<()>)
    requires CollisionFree(sha) && FactOk(sha, fact) && fact.digest == digest && fact.size == size
    requires InRange(size, offset, end) && out.bytes == []
    modifies out
    ensures r.Ok? ==> Exact(sha, digest, size, offset, end, out.bytes) && |out.bytes| == end - offset
  {
    ghost var body :| FactOf(sha, fact, body);
    var room := if scratch.Some? then scratch.value else if end > offset then CHUNK_SIZE else 0;
    r := ReadChunks(sha, fact, offset, end, out, room, body);
  }

  /** Read through the cache. Facts only ever come from a successful scan, and
      only a checked chunk or a checked whole file reaches the output. */
  method ReadInput(cache: Cache, sha: Bytes -> Digest, domain: Option<string>, digest: Digest, size: nat, offset: nat, end: nat,
                   out: Sink, scratch: Option<nat>)
    returns (r: Result<()>)
    requires cache.Valid() && Trusted(sha, cache.entries[..]) && CollisionFree(sha) && InRange(size, offset, end) && out.bytes == []
    modifies cache, cache.entries, out
    ensures cache.Valid() && Trusted(sha, cache.entries[..]) && SameHandles(old(cache.outside), cache.outside)
    ensures r.Ok? ==> Exact(sha, digest, size, offset, end, out.bytes) && |out.bytes| == end - offset
  {
    var count := Chunks(size);
    ghost var chunks, body;
    if domain.None? || !IsDigest(digest) || count > MAX_DIGEST_BYTES / 32 {
      r, chunks, body := Scan(sha, digest, size, offset, end, out, scratch, false);
      return;
    }
    var hit := cache.Get(domain.value, digest, size);
    if hit.Some? {
      r := ReadWarm(sha, hit.value.1, digest, size, offset, end, out, scratch);
      cache.Release(hit.value.0);
      return;
    }
    r := ReadCold(cache, sha, domain.value, digest, size, offset, end, out, scratch);
  }

  /** Build an index if its charge is granted, else fall back to the plain scan. */
  method ReadCold(cache: Cache, sha: Bytes -> Digest, domain: string, digest: Digest, size: nat, offset: nat, end: nat,
                  out: Sink, scratch: Option<nat>)
    returns (r: Result<()>)
    requires cache.Valid() && Trusted(sha, cache.entries[..]) && offset <= end && out.bytes == []
    modifies cache, cache.entries, out
    ensures cache.Valid() && Trusted(sha, cache.entries[..]) && SameHandles(old(cache.outside), cache.outside)
    ensures r.Ok? ==> Exact(sha, digest, size, offset, end, out.bytes) && |out.bytes| == end - offset
  {
    ghost var chunks, body;
    var reservation := cache.Reserve(ChargeOf(Chunks(size), domain));
    if reservation.None? {
      r, chunks, body := Scan(sha, digest, size, offset, end, out, scratch, false);
      return;
    }
    var roomy := *;
    if roomy {
      r := BuildIndex(cache, sha, domain, digest, size, offset, end, out, scratch, reservation.value);
    } else {
      cache.Release(reservation.value);
      r, chunks, body := Scan(sha, digest, size, offset, end, out, scratch, false);
    }
  }

  /** Scan with chunk digests under a granted reservation, and publish them. */
  method BuildIndex(cache: Cache, sha: Bytes -> Digest, domain: string, digest: Digest, size: nat, offset: nat, end: nat,
                    out: Sink, scratch: Option<nat>, id: nat)
    returns (r: Result<()>)
    requires cache.Valid() && Trusted(sha, cache.entries[..]) && offset <= end && out.bytes == []
    requires Handle(cache.outside, id) == 1 && !Cached(cache.entries[..], id)
    modifies cache, cache.entries, out
    ensures cache.Valid() && Trusted(sha, cache.entries[..]) && cache.outside == old(cache.outside)[id := 0]
    ensures r.Ok? ==> Exact(sha, digest, size, offset, end, out.bytes) && |out.bytes| == end - offset
  {
    var chunks;
    ghost var body;
    r, chunks, body := Scan(sha, digest, size, offset, end, out, scratch, true);
    if r.Err? {
      cache.Release(id);
      return;
    }
    assert |chunks| == Chunks(size);
    var fact := Index(domain, digest, size, INDEX_FORMAT, chunks);
    assert FactOf(sha, fact, body);
    cache.Publish(id, fact);
  }

  // ----------------------------------------------------------------- reads over time

  datatype Read = Read(domain: Option<string>, digest: Digest, size: nat, offset: nat, len: nat)

  function Wanted(q: Read): nat {
    Min(if q.offset < q.size then q.size - q.offset else 0, q.len)
  }

  /** The output allocation for a request, clamped to the end of the file. */
  method PrepareOutput(q: Read) returns (r: Result<Sink>)
    ensures r.Ok? <==> Wanted(q) <= MAX_BUFFERED_FILE_BYTES
    ensures r.Ok? ==> fresh(r.value) && r.value.bytes == [] && r.value.capacity == Wanted(q)
    ensures r.Err? ==> r.code == LimitExceeded
  {
    if Wanted(q) > MAX_BUFFERED_FILE_BYTES {
      return Err(LimitExceeded);
    }
    var sink := new Sink(Wanted(q));
    return Ok(sink);
  }

  ghost predicate Answers(sha: Bytes -> Digest, q: Read, r: Result<Option<Bytes>>) {
    r.Ok? && r.value.Some? ==> Exact(sha, q.digest, q.size, q.offset, q.offset + Wanted(q), r.value.value) && |r.value.value| == Wanted(q)
  }

  /** One read; `found` says whether the file could be opened with its size. */
  method ReadWithCache(cache: Cache, sha: Bytes -> Digest, q: Read, found: Result<bool>) returns (r: Result<Option<Bytes>>)
    requires cache.Valid() && Trusted(sha, cache.entries[..]) && CollisionFree(sha)
    modifies cache, cache.entries
    ensures cache.Valid() && Trusted(sha, cache.entries[..]) && SameHandles(old(cache.outside), cache.outside)
    ensures Answers(sha, q, r)
  {
    if found.Err? {
      return Err(found.code);
    }
    if !found.value {
      return Ok(None);
    }
    var out := PrepareOutput(q);
    if out.Err? {
      return Err(out.code);
    }
    var read := ReadInput(cache, sha, q.domain, q.digest, q.size, q.offset, q.offset + Wanted(q), out.value, None);
    return if read.Ok? then Ok(Some(out.value.bytes)) else Err(read.code);
  }

  /** Any sequence of reads, with the files rewritten at will between and during
      them: every answer is exact, and no hold on a fact is left behind. */
  method ReadMany(cache: Cache, sha: Bytes -> Digest, qs: seq<Read>) returns (rs: seq<Result<Option<Bytes>>>)
    requires cache.Valid() && Trusted(sha, cache.entries[..]) && CollisionFree(sha)
    modifies cache, cache.entries
    ensures cache.Valid() && SameHandles(old(cache.outside), cache.outside)
    ensures |rs| == |qs| && forall i :: 0 <= i < |qs| ==> Answers(sha, qs[i], rs[i])
  {
    rs := [];
    for k := 0 to |qs|
      invariant cache.Valid() && Trusted(sha, cache.entries[..]) && SameHandles(old(cache.outside), cache.outside)
      invariant |rs| == k && forall i :: 0 <= i < k ==> Answers(sha, qs[i], rs[i])
    {
      var present := *;
      var r := ReadWithCache(cache, sha, qs[k], Ok(present));
      rs := rs + [r];
    }
  }
}
