/** Whole-file scans and chunk reads of a file whose bytes may change at any
    moment: every read returns whatever the file holds just then. */
module IndexScan {
  import opened Base

  const CHUNK_SIZE: nat := 1024 * 1024
  const SCAN_CAPACITY: nat := 64 * 1024

  // ------------------------------------------------------------------------ windows

  /** The bytes of `body` at positions from `offset` up to `end`. */
  function Window(body: Bytes, offset: nat, end: nat): Bytes
    requires offset <= end
  {
    body[Min(offset, |body|)..Min(end, |body|)]
  }

  /** The caller's output: one allocation of fixed capacity. */
  class Sink {
    const capacity: nat
    var bytes: Bytes

    constructor (capacity: nat)
      ensures this.capacity == capacity && bytes == []
    {
      this.capacity, bytes := capacity, [];
    }

    method Append(more: Bytes) returns (r: Result<()>)
      requires |bytes| <= capacity
      modifies this
      ensures |bytes| <= capacity
      ensures r.Ok? <==> |old(bytes)| + |more| <= capacity
      ensures r.Err? ==> r.code == DigestMismatch
      ensures bytes == if r.Ok? then old(bytes) + more else old(bytes)
    {
      if |more| > capacity - |bytes| {
        return Err(DigestMismatch);
      }
      bytes := bytes + more;
      return Ok(());
    }
  }

  lemma SliceBefore(a: Bytes, b: Bytes, i: nat, j: nat)
    requires i <= j <= |a|
    ensures (a + b)[i..j] == a[i..j]
  {
  }

  lemma SliceAfter(a: Bytes, b: Bytes, i: nat, j: nat)
    requires |a| <= i <= j <= |a| + |b|
    ensures (a + b)[i..j] == b[i - |a|..j - |a|]
  {
  }

  lemma SliceAcross(a: Bytes, b: Bytes, i: nat, j: nat)
    requires i <= |a| <= j <= |a| + |b|
    ensures (a + b)[i..j] == a[i..] + b[..j - |a|]
  {
  }

  /** The part of a further buffer that the window takes. */
  function Taken(body: Bytes, buffer: Bytes, offset: nat, end: nat): Bytes {
    var from, to := Max(|body|, offset), Min(|body| + |buffer|, end);
    if from < to then buffer[from - |body|..to - |body|] else []
  }

  /** A window that starts in the buffer takes nothing from what precedes it. */
  lemma WindowAfter(body: Bytes, buffer: Bytes, offset: nat, end: nat)
    requires |body| <= offset <= end
    ensures Window(body, offset, end) == [] && Window(body + buffer, offset, end) == Taken(body, buffer, offset, end)
  {
    var all := body + buffer;
    if |all| <= offset {
      assert Window(all, offset, end) == all[|all|..|all|];
    } else if end <= |all| {
      SliceAfter(body, buffer, offset, end);
    } else {
      SliceAfter(body, buffer, offset, |all|);
    }
  }

  lemma WindowAcross(body: Bytes, buffer: Bytes, offset: nat, end: nat)
    requires offset <= |body| < end
    ensures Window(body, offset, end) == body[offset..]
    ensures Window(body + buffer, offset, end) == body[offset..] + Taken(body, buffer, offset, end)
  {
    var all := body + buffer;
    if end <= |all| {
      SliceAcross(body, buffer, offset, end);
    } else {
      SliceAcross(body, buffer, offset, |all|);
    }
  }

  /** What a further buffer adds to the window. */
  lemma WindowGrows(body: Bytes, buffer: Bytes, offset: nat, end: nat)
    requires offset <= end
    ensures Window(body + buffer, offset, end) == Window(body, offset, end) + Taken(body, buffer, offset, end)
  {
    if end <= |body| {
      SliceBefore(body, buffer, offset, end);
    } else if |body| <= offset {
      WindowAfter(body, buffer, offset, end);
    } else {
      WindowAcross(body, buffer, offset, end);
    }
  }

  /** Append the part of `buffer`, which starts at `start`, that was asked for. */
  method CopyIntersection(out: Sink, buffer: Bytes, start: nat, offset: nat, end: nat, ghost body: Bytes) returns (r: Result<()>)
    requires offset <= end && |body| == start && out.bytes == Window(body, offset, end) && |out.bytes| <= out.capacity
    modifies out
    ensures |out.bytes| <= out.capacity
    ensures r.Ok? ==> out.bytes == Window(body + buffer, offset, end)
    ensures out.capacity >= end - offset ==> r.Ok?
    ensures r.Err? ==> r.code == DigestMismatch
  {
    var from := Max(start, offset);
    var to := Min(start + |buffer|, end);
    WindowGrows(body, buffer, offset, end);
    if from < to {
      r := out.Append(buffer[from - start..to - start]);
    } else {
      r := Ok(());
    }
  }

  // ------------------------------------------------------------------------- chunks

  function Chunks(size: nat): nat {
    (size + CHUNK_SIZE - 1) / CHUNK_SIZE
  }

  function ChunkAt(body: Bytes, i: nat): Bytes
    requires i * CHUNK_SIZE <= |body|
  {
    body[i * CHUNK_SIZE..Min((i + 1) * CHUNK_SIZE, |body|)]
  }

  /** The digest of every chunk of a body, in order; the last may be short. */
  function ChunkDigests(sha: Bytes -> Digest, body: Bytes): seq<Digest> {
    seq(Chunks(|body|), i requires 0 <= i < Chunks(|body|) => sha(ChunkAt(body, i)))
  }

  /** The digests pushed so far are those of the full chunks of what was read,
      and the open hash has taken the rest. */
  ghost predicate Chunked(sha: Bytes -> Digest, body: Bytes, chunks: seq<Digest>, open: Bytes) {
    |open| < CHUNK_SIZE && |body| == |chunks| * CHUNK_SIZE + |open| && open == body[|chunks| * CHUNK_SIZE..] &&
    forall i :: 0 <= i < |chunks| ==> chunks[i] == sha(body[i * CHUNK_SIZE..(i + 1) * CHUNK_SIZE])
  }

  /** Hash one piece that does not pass the next chunk boundary. */
  lemma ChunkPiece(sha: Bytes -> Digest, body: Bytes, chunks: seq<Digest>, open: Bytes, piece: Bytes)
    requires Chunked(sha, body, chunks, open) && |open| + |piece| <= CHUNK_SIZE
    ensures |open| + |piece| < CHUNK_SIZE ==> Chunked(sha, body + piece, chunks, open + piece)
    ensures |open| + |piece| == CHUNK_SIZE ==> Chunked(sha, body + piece, chunks + [sha(open + piece)], [])
  {
    var all, n := body + piece, |chunks|;
    assert all[n * CHUNK_SIZE..] == open + piece;
    forall i | 0 <= i < n ensures all[i * CHUNK_SIZE..(i + 1) * CHUNK_SIZE] == body[i * CHUNK_SIZE..(i + 1) * CHUNK_SIZE] {
      assert (i + 1) * CHUNK_SIZE <= |body|;
    }
    if |open| + |piece| == CHUNK_SIZE {
      assert all[n * CHUNK_SIZE..(n + 1) * CHUNK_SIZE] == open + piece;
    }
  }

  /** Feed one read buffer, of any length, to the chunk hashes. */
  method HashChunks(sha: Bytes -> Digest, buffer: Bytes, chunks0: seq<Digest>, open0: Bytes, ghost body: Bytes)
    returns (chunks: seq<Digest>, open: Bytes)
    requires Chunked(sha, body, chunks0, open0)
    ensures Chunked(sha, body + buffer, chunks, open)
  {
    chunks, open := chunks0, open0;
    var consumed := 0;
    assert body + buffer[..0] == body;
    while consumed < |buffer|
      invariant 0 <= consumed <= |buffer| && Chunked(sha, body + buffer[..consumed], chunks, open)
    {
      var take := Min(CHUNK_SIZE - |open|, |buffer| - consumed);
      var piece := buffer[consumed..consumed + take];
      ChunkPiece(sha, body + buffer[..consumed], chunks, open, piece);
      assert body + buffer[..consumed + take] == body + buffer[..consumed] + piece;
      consumed := consumed + take;
      open := open + piece;
      if |open| == CHUNK_SIZE {
        chunks := chunks + [sha(open)];
        open := [];
      }
    }
    assert buffer[..|buffer|] == buffer;
  }

  /** Closing the open hash completes the digests of the whole body. */
  lemma ChunksClose(sha: Bytes -> Digest, body: Bytes, chunks: seq<Digest>, open: Bytes)
    requires Chunked(sha, body, chunks, open)
    ensures (if open == [] then chunks else chunks + [sha(open)]) == ChunkDigests(sha, body)
  {
    var n, all := |chunks|, if open == [] then chunks else chunks + [sha(open)];
    assert |all| == Chunks(|body|);
    forall i | 0 <= i < |all| ensures all[i] == sha(ChunkAt(body, i)) {
      if i < n {
        assert (i + 1) * CHUNK_SIZE <= |body|;
      } else {
        assert ChunkAt(body, n) == open;
      }
    }
  }

  // ---------------------------------------------------------------------- file input

  /** One read of at most `max` bytes, whatever the file holds now; it may fail. */
  method ReadRetry(max: nat) returns (r: Result<Bytes>)
    ensures r.Ok? ==> |r.value| <= max
    ensures r.Err? ==> r.code == Internal
  {
    var failed := *;
    if failed {
      return Err(Internal);
    }
    var bytes: Bytes := *;
    return Ok(if |bytes| <= max then bytes else bytes[..max]);
  }

  datatype Metadata = Metadata(isFile: bool, length: nat)

  /** The metadata the file has at this moment, if it can be had. */
  method ReadMetadata() returns (m: Option<Metadata>)
    ensures m.Some? ==> m.value.length <= U64_MAX
  {
    var failed, isFile, length: nat := *, *, *;
    return if failed || length > U64_MAX then None else Some(Metadata(isFile, length));
  }

  /** The file's size and type are what they should be, now. */
  method CheckMetadata(size: nat) returns (r: Result<()>, seen: Option<Metadata>)
    ensures r == if seen.None? then Err(Internal) else if seen.value.isFile && seen.value.length == size then Ok(()) else Err(DigestMismatch)
  {
    seen := ReadMetadata();
    r := if seen.None? then Err(Internal) else if !seen.value.isFile || seen.value.length != size then Err(DigestMismatch) else Ok(());
  }

  /** `out` is the requested part of the one body with this digest and size. */
  ghost predicate Exact(sha: Bytes -> Digest, digest: Digest, size: nat, offset: nat, end: nat, out: Bytes)
    requires offset <= end
  {
    exists body :: sha(body) == digest && |body| == size && out == Window(body, offset, end)
  }

  /** Read to the end in arbitrary short reads, hashing and copying the same
      bytes. Success means they were a body of the fixed identity; the chunk
      digests and the output are that body's. */
  method ScanBody(sha: Bytes -> Digest, digest: Digest, size: nat, offset: nat, end: nat, out: Sink, scratch: nat, index: bool)
    returns (r: Result<()>, chunks: seq<Digest>, ghost body: Bytes)
    requires offset <= end && out.bytes == []
    modifies out
    ensures r.Ok? ==> sha(body) == digest && |body| == size && out.bytes == Window(body, offset, end) && |out.bytes| == end - offset
    ensures r.Ok? && index ==> chunks == ChunkDigests(sha, body)
    ensures scratch == 0 <==> r == Err(LimitExceeded)
    ensures r.Err? && r.code == DigestMismatch ==>
              |body| != size || sha(body) != digest || !InRange(size, offset, end) || out.capacity < end - offset
  {
    chunks, body := [], [];
    var cap := Min(scratch, SCAN_CAPACITY);
    if cap == 0 {
      r := Err(LimitExceeded);
      return;
    }
    var open: Bytes, read, whole: Bytes := [], 0, [];
    while true
      invariant whole == body && read == |body| <= size
      invariant out.bytes == Window(body, offset, end) && |out.bytes| <= out.capacity
      invariant index ==> Chunked(sha, body, chunks, open)
      decreases size - read
    {
      var got := ReadRetry(Min(cap, size + 1 - read));
      if got.Err? {
        r := Err(got.code);
        return;
      }
      var buffer := got.value;
      if buffer == [] {
        break;
      }
      if read + |buffer| > size {
        body := body + buffer;
        r := Err(DigestMismatch);
        return;
      }
      whole := whole + buffer;
      if index {
        chunks, open := HashChunks(sha, buffer, chunks, open, body);
      }
      var copied := CopyIntersection(out, buffer, read, offset, end, body);
      if copied.Err? {
        r := Err(copied.code);
        return;
      }
      body := body + buffer;
      read := read + |buffer|;
    }
    if index {
      ChunksClose(sha, body, chunks, open);
      if open != [] {
        chunks := chunks + [sha(open)];
      }
    }
    if read != size || |out.bytes| != end - offset || sha(whole) != digest {
      r := Err(DigestMismatch);
      return;
    }
    r := Ok(());
  }

  // -------------------------------------------------------------------- chunk facts

  const INDEX_FORMAT: nat := 1

  /** What a successful scan leaves for later reads of the same content. */
  datatype Index = Index(domain: string, digest: Digest, size: nat, format: nat, chunks: seq<Digest>)

  ghost predicate FactOf(sha: Bytes -> Digest, fact: Index, body: Bytes) {
    sha(body) == fact.digest && |body| == fact.size && fact.chunks == ChunkDigests(sha, body)
  }

  /** The fact describes some body of its identity. */
  ghost predicate FactOk(sha: Bytes -> Digest, fact: Index) {
    exists body :: FactOf(sha, fact, body)
  }

  /** What a caller may ask for: nothing past the end of the file. */
  predicate InRange(size: nat, offset: nat, end: nat) {
    offset <= end && (end <= size || end == offset)
  }

  /** The chunks an in-range request covers all exist. */
  lemma CoveringChunk(size: nat, offset: nat, end: nat, i: nat)
    requires InRange(size, offset, end) && offset < end && offset / CHUNK_SIZE <= i <= (end - 1) / CHUNK_SIZE
    ensures i < Chunks(size) && i * CHUNK_SIZE < size
  {
  }

  /** Fill a chunk buffer from wherever the file is positioned. */
  method FillBuffer(len: nat) returns (r: Result<Bytes>)
    ensures r.Ok? ==> |r.value| == len
  {
    var buffer: Bytes := [];
    while |buffer| < len
      invariant |buffer| <= len
      decreases len - |buffer|
    {
      var got := ReadRetry(len - |buffer|);
      if got.Err? {
        return got;
      }
      if got.value == [] {
        return Err(DigestMismatch);
      }
      buffer := buffer + got.value;
    }
    return Ok(buffer);
  }

  lemma WindowDone(body: Bytes, k: nat, offset: nat, end: nat)
    requires offset <= end && k <= |body|
    ensures k <= offset ==> Window(body[..k], offset, end) == []
    ensures Min(end, |body|) <= k ==> Window(body[..k], offset, end) == Window(body, offset, end)
  {
  }

  lemma NextChunk(body: Bytes, i: nat)
    requires i * CHUNK_SIZE < |body|
    ensures body[..i * CHUNK_SIZE] + ChunkAt(body, i) == body[..Min((i + 1) * CHUNK_SIZE, |body|)]
  {
  }

  /** What the first `index` chunks contribute to the request has been copied. */
  ghost predicate Copied(body: Bytes, index: nat, offset: nat, end: nat, out: Bytes)
    requires offset <= end
  {
    out == Window(body[..Min(index * CHUNK_SIZE, |body|)], offset, end)
  }

  lemma CopiedNothing(body: Bytes, offset: nat, end: nat)
    requires offset <= end <= |body|
    ensures Copied(body, offset / CHUNK_SIZE, offset, end, [])
  {
    WindowDone(body, offset / CHUNK_SIZE * CHUNK_SIZE, offset, end);
  }

  lemma CopiedAll(body: Bytes, offset: nat, end: nat, out: Bytes)
    requires offset < end <= |body| && Copied(body, (end - 1) / CHUNK_SIZE + 1, offset, end, out)
    ensures out == Window(body, offset, end)
  {
    WindowDone(body, Min(((end - 1) / CHUNK_SIZE + 1) * CHUNK_SIZE, |body|), offset, end);
  }

  /** The loop over the covering chunks. */
  method ReadCovering(sha: Bytes -> Digest, fact: Index, offset: nat, end: nat, out: Sink, scratch: nat, ghost body: Bytes)
    returns (r: Result<()>)
    requires CollisionFree(sha) && FactOf(sha, fact, body) && offset < end <= fact.size && out.bytes == []
    modifies out
    ensures r.Ok? ==> out.bytes == Window(body, offset, end)
  {
    CopiedNothing(body, offset, end);
    var index, last := offset / CHUNK_SIZE, (end - 1) / CHUNK_SIZE;
    while index <= last
      invariant offset / CHUNK_SIZE <= index <= last + 1
      invariant |out.bytes| <= out.capacity && Copied(body, index, offset, end, out.bytes)
    {
      CoveringChunk(fact.size, offset, end, index);
      r := ReadChunk(sha, fact, index, offset, end, out, scratch, body);
      if r.Err? {
        return;
      }
      index := index + 1;
    }
    CopiedAll(body, offset, end, out.bytes);
    r := Ok(());
  }

  /** Read only the covering chunks, each checked against its fact. Success
      returns the requested part of the body the fact describes, even if the
      file has been rewritten since. */
  method ReadChunks(sha: Bytes -> Digest, fact: Index, offset: nat, end: nat, out: Sink, scratch: nat, ghost body: Bytes)
    returns (r: Result<()>)
    requires CollisionFree(sha) && FactOf(sha, fact, body) && InRange(fact.size, offset, end) && out.bytes == []
    modifies out
    ensures r.Ok? ==> out.bytes == Window(body, offset, end) && |out.bytes| == end - offset
  {
    if end > offset {
      r := ReadCovering(sha, fact, offset, end, out, scratch, body);
      if r.Err? {
        return;
      }
    } else {
      WindowDone(body, 0, offset, end);
    }
    if |out.bytes| != end - offset {
      return Err(DigestMismatch);
    }
    var seen;
    r, seen := CheckMetadata(fact.size);
  }

  method ReadChunk(sha: Bytes -> Digest, fact: Index, index: nat, offset: nat, end: nat, out: Sink, scratch: nat, ghost body: Bytes)
    returns (r: Result<()>)
    requires CollisionFree(sha) && FactOf(sha, fact, body) && offset <= end
    requires index < Chunks(fact.size) && index * CHUNK_SIZE < fact.size
    requires Copied(body, index, offset, end, out.bytes) && |out.bytes| <= out.capacity
    modifies out
    ensures |out.bytes| <= out.capacity
    ensures r.Ok? ==> Copied(body, index + 1, offset, end, out.bytes)
  {
    var start := index * CHUNK_SIZE;
    var len := Min(fact.size - start, CHUNK_SIZE);
    if scratch < len {
      return Err(LimitExceeded);
    }
    var filled := FillBuffer(len);
    if filled.Err? {
      return Err(filled.code);
    }
    if sha(filled.value) != fact.chunks[index] {
      return Err(DigestMismatch);
    }
    assert filled.value == ChunkAt(body, index);
    NextChunk(body, index);
    r := CopyIntersection(out, filled.value, start, offset, end, body[..start]);
  }
}
