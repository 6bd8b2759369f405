/** The resume journal: one record per line, appended in bounded batches, read
    back up to its last complete line. */
module Journal {
  import opened Base
  import opened Ordering
  import opened Manifest

  const NEWLINE: Byte := 10
  const JOURNAL_MAX_RECORDS: nat := 128
  const JOURNAL_MAX_BYTES: nat := 256 * 1024

  datatype FileRecord = FileRecord(relPath: string, digest: Digest, size: nat)

  /** Compact JSON of one record, and the reader's view of one line. */
  datatype Format = Format(enc: FileRecord -> Bytes, dec: Bytes -> Option<FileRecord>, blank: Bytes -> bool)

  /** Records round-trip, their text is not blank and holds no raw newline
      (section 7 of RFC 8259); the empty line is blank. */
  ghost predicate Codes(f: Format) {
    f.blank([]) && forall r :: f.dec(f.enc(r)) == Some(r) && !f.blank(f.enc(r)) && NEWLINE !in f.enc(r)
  }

  // -------------------------------------------------------------------------- lines

  function Break(b: Bytes): (i: nat)
    ensures i <= |b| && NEWLINE !in b[..i] && (i < |b| ==> b[i] == NEWLINE)
  {
    if b == [] || b[0] == NEWLINE then 0
    else
      var i := Break(b[1..]);
      assert b[..i + 1] == [b[0]] + b[1..][..i];
      i + 1
  }

  /** The terminated lines of a text, without their terminators. */
  function Lines(b: Bytes): seq<Bytes>
    decreases |b|
  {
    var i := Break(b);
    if i == |b| then [] else [b[..i]] + Lines(b[i + 1..])
  }

  /** What follows the last newline. */
  function Tail(b: Bytes): Bytes
    decreases |b|
  {
    var i := Break(b);
    if i == |b| then b else Tail(b[i + 1..])
  }

  function Join(ls: seq<Bytes>): Bytes {
    if ls == [] then [] else ls[0] + [NEWLINE] + Join(ls[1..])
  }

  ghost predicate Whole(ls: seq<Bytes>) {
    forall l :: l in ls ==> NEWLINE !in l
  }

  /** A text is its complete lines followed by its tail. */
  lemma {:induction false} LinesCover(b: Bytes)
    ensures b == Join(Lines(b)) + Tail(b) && Whole(Lines(b)) && NEWLINE !in Tail(b)
    decreases |b|
  {
    var i := Break(b);
    if i < |b| {
      LinesCover(b[i + 1..]);
      JoinCons(b[..i], Lines(b[i + 1..]));
      Regroup(b, i, Join(Lines(b[i + 1..])), Tail(b[i + 1..]));
    }
  }

  lemma JoinCons(l: Bytes, ls: seq<Bytes>)
    ensures Join([l] + ls) == l + [NEWLINE] + Join(ls)
  {
    assert ([l] + ls)[1..] == ls;
  }

  lemma Regroup(b: Bytes, i: nat, x: Bytes, t: Bytes)
    requires i < |b| && b[i] == NEWLINE && b[i + 1..] == x + t
    ensures b == b[..i] + [NEWLINE] + x + t
  {
    assert b == b[..i] + [b[i]] + b[i + 1..];
  }

  lemma {:induction false} NoBreak(b: Bytes)
    requires NEWLINE !in b
    ensures Break(b) == |b|
  {
    if b != [] {
      NoBreak(b[1..]);
    }
  }

  lemma FirstLine(l: Bytes, x: Bytes)
    requires NEWLINE !in l
    ensures Lines(l + [NEWLINE] + x) == [l] + Lines(x)
  {
    var b := l + [NEWLINE] + x;
    assert b[..|l|] == l;
    BreakAt(b, |l|);
    assert b[|l| + 1..] == x;
  }

  lemma {:induction false} BreakAt(b: Bytes, i: nat)
    requires i < |b| && b[i] == NEWLINE && NEWLINE !in b[..i]
    ensures Break(b) == i
  {
    if i > 0 {
      assert b[0] in b[..i];
      assert b[..i] == [b[0]] + b[1..][..i - 1];
      BreakAt(b[1..], i - 1);
    }
  }

  /** And only one list of lines and tail make up a text. */
  lemma {:induction false} LinesUnique(ls: seq<Bytes>, t: Bytes)
    requires Whole(ls) && NEWLINE !in t
    ensures Lines(Join(ls) + t) == ls && Tail(Join(ls) + t) == t
    decreases |ls|
  {
    var b := Join(ls) + t;
    if ls == [] {
      assert b == t;
      NoBreak(b);
    } else {
      var l := ls[0];
      assert b == l + [NEWLINE] + (Join(ls[1..]) + t);
      assert b[..|l|] == l && l in ls;
      BreakAt(b, |l|);
      assert b[|l| + 1..] == Join(ls[1..]) + t;
      LinesUnique(ls[1..], t);
    }
  }

  lemma {:induction false} JoinConcat(a: seq<Bytes>, b: seq<Bytes>)
    ensures Join(a + b) == Join(a) + Join(b)
    decreases |a|
  {
    if a == [] {
      assert a + b == b;
    } else {
      assert (a + b)[1..] == a[1..] + b;
      JoinConcat(a[1..], b);
    }
  }

  lemma Associate(a: Bytes, b: Bytes, c: Bytes)
    ensures a + (b + c) == a + b + c
  {
  }

  /** Text appended after a newline adds exactly its own lines. */
  lemma LinesAppend(b: Bytes, x: Bytes)
    requires Tail(b) == []
    ensures Lines(b + x) == Lines(b) + Lines(x) && Tail(b + x) == Tail(x)
  {
    var ls, more, t := Lines(b), Lines(x), Tail(x);
    WholeText(b);
    LinesCover(x);
    JoinConcat(ls, more);
    assert b + x == Join(ls + more) + t by {
      Associate(b, Join(more), t);
    }
    LinesUnique(ls + more, t);
  }

  // ---------------------------------------------------------------- reading records

  ghost predicate Readable(f: Format, ls: seq<Bytes>) {
    forall l :: l in ls ==> f.blank(l) || f.dec(l).Some?
  }

  function Records(f: Format, ls: seq<Bytes>): seq<FileRecord> {
    if ls == [] then []
    else
      var before, l := Records(f, ls[..|ls| - 1]), ls[|ls| - 1];
      if f.blank(l) || f.dec(l).None? then before else before + [f.dec(l).value]
  }

  lemma {:induction false} RecordsConcat(f: Format, a: seq<Bytes>, b: seq<Bytes>)
    ensures Records(f, a + b) == Records(f, a) + Records(f, b)
    decreases |b|
  {
    if b == [] {
      assert a + b == a;
    } else {
      assert (a + b)[..|a + b| - 1] == a + b[..|b| - 1];
      RecordsConcat(f, a, b[..|b| - 1]);
    }
  }

  function LastWins(rs: seq<FileRecord>): map<string, FileRecord> {
    if rs == [] then map[]
    else LastWins(rs[..|rs| - 1])[rs[|rs| - 1].relPath := rs[|rs| - 1]]
  }

  ghost predicate LastFor(rs: seq<FileRecord>, path: string, k: nat) {
    k < |rs| && rs[k].relPath == path && forall j :: k < j < |rs| ==> rs[j].relPath != path
  }

  /** The table holds, for every recorded path and no other, its last record. */
  lemma {:induction false} LastWinsMeans(rs: seq<FileRecord>, path: string)
    ensures path in LastWins(rs) <==> exists k: nat :: LastFor(rs, path, k)
    ensures forall k: nat :: LastFor(rs, path, k) ==> path in LastWins(rs) && LastWins(rs)[path] == rs[k]
  {
    if rs != [] {
      var n := |rs| - 1;
      var before := rs[..n];
      LastWinsMeans(before, path);
      if rs[n].relPath == path {
        assert LastFor(rs, path, n);
      } else {
        forall k: nat | LastFor(rs, path, k) ensures LastFor(before, path, k) { }
        forall k: nat | LastFor(before, path, k) ensures LastFor(rs, path, k) {
          assert rs[k] == before[k];
          forall j | k < j < |rs| ensures rs[j].relPath != path {
            assert j < n ==> rs[j] == before[j];
          }
        }
      }
    }
  }

  /** Read a journal: an unterminated tail is dropped, blank lines are skipped,
      and a complete line that does not parse is an error. */
  method ReadJournal(f: Format, b: Bytes) returns (r: Result<map<string, FileRecord>>)
    requires f.blank([])
    ensures r.Ok? <==> Readable(f, Lines(b))
    ensures r.Ok? ==> r.value == LastWins(Records(f, Lines(b)))
    ensures r.Err? ==> r.code == Internal
  {
    var lines := Lines(b) + [Tail(b)];
    if !Terminated(b) {
      lines := lines[..|lines| - 1];
    }
    SplitLines(f, b, lines);
    var out: map<string, FileRecord> := map[];
    for k := 0 to |lines|
      invariant ReadSoFar(f, lines, k, out)
    {
      ReadStep(f, lines, k, out);
      var line := lines[k];
      if !f.blank(line) {
        if f.dec(line).None? {
          return Err(Internal);
        }
        out := out[f.dec(line).value.relPath := f.dec(line).value];
      }
    }
    assert lines[..|lines|] == lines;
    return Ok(out);
  }

  /** The lines before `k` have been read into `out`. */
  ghost predicate ReadSoFar(f: Format, lines: seq<Bytes>, k: nat, out: map<string, FileRecord>)
    requires k <= |lines|
  {
    Readable(f, lines[..k]) && out == LastWins(Records(f, lines[..k]))
  }

  lemma ReadStep(f: Format, lines: seq<Bytes>, k: nat, out: map<string, FileRecord>)
    requires k < |lines| && ReadSoFar(f, lines, k, out)
    ensures f.blank(lines[k]) ==> ReadSoFar(f, lines, k + 1, out)
    ensures !f.blank(lines[k]) && f.dec(lines[k]).Some? ==>
              ReadSoFar(f, lines, k + 1, out[f.dec(lines[k]).value.relPath := f.dec(lines[k]).value])
    ensures !f.blank(lines[k]) && f.dec(lines[k]).None? ==> !Readable(f, lines)
  {
    SplitAt(lines, k);
    assert lines[..k + 1][..k] == lines[..k];
    assert lines[k] in lines;
  }

  /** Splitting a terminated journal leaves one empty piece, which is blank. */
  lemma SplitLines(f: Format, b: Bytes, lines: seq<Bytes>)
    requires f.blank([]) && lines == if Terminated(b) then Lines(b) + [Tail(b)] else Lines(b)
    ensures Readable(f, lines) <==> Readable(f, Lines(b))
    ensures Records(f, lines) == Records(f, Lines(b))
  {
    LastByte(b);
    if Terminated(b) {
      var read := Lines(b);
      assert lines == read + [[]];
      RecordsConcat(f, read, [[]]);
      forall line ensures line in lines <==> line in read || line == [] { }
    }
  }

  predicate Terminated(b: Bytes) {
    b != [] && b[|b| - 1] == NEWLINE
  }

  lemma LastByte(b: Bytes)
    ensures Terminated(b) ==> Tail(b) == []
    ensures b != [] && Tail(b) == [] ==> Terminated(b)
  {
    LinesCover(b);
    if Tail(b) == [] {
      JoinEnds(Lines(b));
    } else {
      assert b[|b| - 1] in Tail(b);
    }
  }

  lemma {:induction false} JoinEnds(ls: seq<Bytes>)
    ensures ls != [] ==> Terminated(Join(ls))
    ensures ls == [] ==> Join(ls) == []
    decreases |ls|
  {
    if |ls| > 1 {
      JoinEnds(ls[1..]);
    }
  }

  /** Cut the torn tail, so that the next append starts a line. */
  method TruncateTail(b: Bytes) returns (r: Bytes)
    ensures r == Join(Lines(b)) && Lines(r) == Lines(b) && Tail(r) == []
  {
    WholeLines(b);
    if Terminated(b) || b == [] {
      return b;
    }
    var end := |b|;
    while end > 0 && b[end - 1] != NEWLINE
      invariant 0 <= end <= |b| && NEWLINE !in b[end..]
    {
      end := end - 1;
      assert b[end..] == [b[end]] + b[end + 1..];
    }
    CutIsLines(b, end);
    return b[..end];
  }

  lemma WholeLines(b: Bytes)
    ensures Lines(Join(Lines(b))) == Lines(b) && Tail(Join(Lines(b))) == []
    ensures Terminated(b) || b == [] ==> b == Join(Lines(b))
  {
    LinesCover(b);
    LinesUnique(Lines(b), []);
    assert Join(Lines(b)) + [] == Join(Lines(b));
    LastByte(b);
  }

  lemma CutIsLines(b: Bytes, end: nat)
    requires end <= |b| && NEWLINE !in b[end..] && (end > 0 ==> b[end - 1] == NEWLINE)
    ensures b[..end] == Join(Lines(b))
  {
    assert b == b[..end] + b[end..];
    LastByte(b[..end]);
    TailAdds(b[..end], b[end..]);
  }

  /** A tail without a line's end adds no line. */
  lemma TailAdds(whole: Bytes, tail: Bytes)
    requires (whole == [] || Terminated(whole)) && NEWLINE !in tail
    ensures Lines(whole + tail) == Lines(whole) && whole == Join(Lines(whole))
  {
    LastByte(whole);
    WholeText(whole);
    LinesUnique(Lines(whole), tail);
  }

  lemma WholeText(b: Bytes)
    requires Tail(b) == []
    ensures b == Join(Lines(b)) && Whole(Lines(b))
  {
    LinesCover(b);
    assert Join(Lines(b)) + [] == Join(Lines(b));
  }

  // --------------------------------------------------------------- crash round trip

  function Texts(f: Format, rs: seq<FileRecord>): (ls: seq<Bytes>)
    ensures |ls| == |rs|
  {
    seq(|rs|, i requires 0 <= i < |rs| => f.enc(rs[i]))
  }

  function Encode(f: Format, rs: seq<FileRecord>): Bytes {
    Join(Texts(f, rs))
  }

  lemma EncodeConcat(f: Format, a: seq<FileRecord>, b: seq<FileRecord>)
    ensures Encode(f, a + b) == Encode(f, a) + Encode(f, b)
  {
    JoinConcat(Texts(f, a), Texts(f, b));
    assert Texts(f, a + b) == Texts(f, a) + Texts(f, b);
  }

  lemma {:induction false} TextsReadBack(f: Format, rs: seq<FileRecord>)
    requires Codes(f)
    ensures Whole(Texts(f, rs)) && Readable(f, Texts(f, rs)) && Records(f, Texts(f, rs)) == rs
  {
    if rs != [] {
      var n := |rs| - 1;
      TextsReadBack(f, rs[..n]);
      assert Texts(f, rs)[..n] == Texts(f, rs[..n]);
      assert rs == rs[..n] + [rs[n]];
    }
  }

  /** How many of these lines end within the first `n` bytes of their text. */
  function Ended(ls: seq<Bytes>, n: nat): (k: nat)
    ensures k <= |ls|
  {
    if ls == [] || n <= |ls[0]| then 0 else 1 + Ended(ls[1..], n - |ls[0]| - 1)
  }

  /** The count is exact: that many lines fit, one more does not. */
  lemma {:induction false} EndedExact(ls: seq<Bytes>, n: nat)
    ensures n <= |Join(ls)| ==> |Join(ls[..Ended(ls, n)])| <= n
    ensures Ended(ls, n) < |ls| ==> n < |Join(ls[..Ended(ls, n) + 1])|
    decreases |ls|
  {
    if ls != [] {
      if n <= |ls[0]| {
        assert ls[..1][0] == ls[0];
      } else {
        var k := Ended(ls[1..], n - |ls[0]| - 1);
        EndedExact(ls[1..], n - |ls[0]| - 1);
        assert ls[..k + 1][1..] == ls[1..][..k];
        if k < |ls| - 1 {
          assert ls[..k + 2][1..] == ls[1..][..k + 1];
        }
      }
    }
  }

  lemma Cut(h: Bytes, x: Bytes, n: nat)
    requires |h| <= n <= |h| + |x|
    ensures (h + x)[..n] == h + x[..n - |h|]
  {
  }

  lemma TakeCons(ls: seq<Bytes>, k: nat)
    requires k < |ls|
    ensures ls[..k + 1] == [ls[0]] + ls[1..][..k]
  {
  }

  /** Any byte prefix of joined lines is some complete lines and a torn one. */
  lemma {:induction false} PrefixLines(ls: seq<Bytes>, n: nat)
    requires Whole(ls) && n <= |Join(ls)|
    ensures Lines(Join(ls)[..n]) == ls[..Ended(ls, n)]
    decreases |ls|
  {
    if ls == [] {
    } else if n <= |ls[0]| {
      var l := ls[0];
      assert l in ls && NEWLINE !in l[..n];
      NoBreak(l[..n]);
      assert Join(ls)[..n] == l[..n];
    } else {
      var m := n - |ls[0]| - 1;
      PrefixLines(ls[1..], m);
      Cut(ls[0] + [NEWLINE], Join(ls[1..]), n);
      FirstLine(ls[0], Join(ls[1..])[..m]);
      TakeCons(ls, Ended(ls[1..], m));
    }
  }

  /** Whatever prefix of the appended bytes survives, the journal reads as what
      it held before and the records whose lines are complete, in order. */
  lemma SurvivingPrefix(f: Format, base: Bytes, rs: seq<FileRecord>, n: nat)
    requires Codes(f) && Tail(base) == [] && Readable(f, Lines(base)) && n <= |Encode(f, rs)|
    ensures var b := base + Encode(f, rs)[..n];
            Readable(f, Lines(b)) && Records(f, Lines(b)) == Records(f, Lines(base)) + rs[..Ended(Texts(f, rs), n)]
  {
    var k := Ended(Texts(f, rs), n);
    TextsReadBack(f, rs);
    TextsReadBack(f, rs[..k]);
    PrefixLines(Texts(f, rs), n);
    LinesAppend(base, Encode(f, rs)[..n]);
    assert Texts(f, rs)[..k] == Texts(f, rs[..k]);
    RecordsConcat(f, Lines(base), Texts(f, rs[..k]));
  }

  /** Resuming after the crash: truncated, then extended, the journal reads as
      the surviving records followed by the new ones. */
  lemma ResumedJournal(f: Format, base: Bytes, rs: seq<FileRecord>, n: nat, more: seq<FileRecord>)
    requires Codes(f) && Tail(base) == [] && Readable(f, Lines(base)) && n <= |Encode(f, rs)|
    ensures var b := Join(Lines(base + Encode(f, rs)[..n])) + Encode(f, more);
            Readable(f, Lines(b)) &&
            Records(f, Lines(b)) == Records(f, Lines(base)) + rs[..Ended(Texts(f, rs), n)] + more
  {
    var torn := base + Encode(f, rs)[..n];
    SurvivingPrefix(f, base, rs, n);
    LinesCover(torn);
    LinesUnique(Lines(torn), []);
    assert Join(Lines(torn)) + [] == Join(Lines(torn));
    var whole := Join(Lines(torn));
    SurvivingPrefix(f, whole, more, |Encode(f, more)|);
    EndedAll(Texts(f, more));
    assert Encode(f, more)[..|Encode(f, more)|] == Encode(f, more);
    assert more[..|more|] == more;
  }

  lemma {:induction false} EndedAll(ls: seq<Bytes>)
    ensures Ended(ls, |Join(ls)|) == |ls|
    decreases |ls|
  {
    if ls != [] {
      EndedAll(ls[1..]);
    }
  }

  /** A compacted journal reads back as one record for each manifest file. */
  lemma CompactedReads(f: Format, m: seq<SnapshotFile>, full: bool, file: SnapshotFile)
    requires Codes(f) && ManifestOk(m, full) && file in m
    ensures var table := LastWins(Records(f, Lines(Encode(f, RecordsOf(m)))));
            file.relPath in table && table[file.relPath] == RecordOf(file)
  {
    var rs := RecordsOf(m);
    TextsReadBack(f, rs);
    LinesUnique(Texts(f, rs), []);
    assert Encode(f, rs) + [] == Encode(f, rs);
    var k :| 0 <= k < |m| && m[k] == file;
    OnlyRecord(m, full, k);
    LastWinsMeans(rs, file.relPath);
  }

  lemma OnlyRecord(m: seq<SnapshotFile>, full: bool, k: nat)
    requires ManifestOk(m, full) && k < |m|
    ensures LastFor(RecordsOf(m), m[k].relPath, k) && RecordsOf(m)[k] == RecordOf(m[k])
  {
  }

  function RecordOf(f: SnapshotFile): FileRecord {
    FileRecord(f.relPath, f.contentDigest, f.size)
  }

  function RecordsOf(m: seq<SnapshotFile>): seq<FileRecord> {
    seq(|m|, i requires 0 <= i < |m| => RecordOf(m[i]))
  }

  // ------------------------------------------------------------------ bounded batch

  /** What a batch has put on disk is a byte prefix of what it was given. */
  ghost predicate Prefixed(f: Format, base: Bytes, rs: seq<FileRecord>, disk: Bytes) {
    exists n :: 0 <= n <= |Encode(f, rs)| && disk == base + Encode(f, rs)[..n]
  }

  lemma PrefixedBy(f: Format, base: Bytes, rs: seq<FileRecord>, more: seq<FileRecord>, part: Bytes)
    requires part <= Encode(f, more)
    ensures forall later :: Prefixed(f, base, rs + more + later, base + Encode(f, rs) + part)
  {
    forall later ensures Prefixed(f, base, rs + more + later, base + Encode(f, rs) + part) {
      EncodeConcat(f, rs, more);
      EncodeConcat(f, rs + more, later);
      var all := Encode(f, rs + more + later);
      var n := |Encode(f, rs)| + |part|;
      assert all[..n] == Encode(f, rs) + part;
      assert base + Encode(f, rs) + part == base + all[..n];
    }
  }

  class JournalBatch {
    const f: Format
    const base: Bytes
    var disk: Bytes
    var pending: Bytes
    var records: nat
    ghost var appended: seq<FileRecord>

    /** Disk and buffer together are the appended records, in order; the buffer
        holds the last `records` of them. */
    ghost predicate Valid()
      reads this
    {
      records <= |appended| && records < JOURNAL_MAX_RECORDS && |pending| < JOURNAL_MAX_BYTES &&
      Split(|appended| - records)
    }

    ghost predicate Split(k: nat)
      reads this
    {
      k <= |appended| && disk == base + Encode(f, appended[..k]) && pending == Encode(f, appended[k..])
    }

    constructor (f: Format, base: Bytes)
      ensures Valid() && this.f == f && this.base == base && disk == base && appended == []
    {
      this.f, this.base, disk, pending, records, appended := f, base, base, [], 0, [];
      new;
      assert appended[..0] == [] && appended[0..] == [];
      assert base + [] == base;
    }

    /** Write through to the file. A failed write may leave any prefix. */
    method AppendBytes(bytes: Bytes) returns (ok: bool)
      modifies this`disk
      ensures exists part: Bytes :: part <= bytes && disk == old(disk) + part && (ok ==> part == bytes)
    {
      if bytes == [] {
        assert disk == old(disk) + bytes;
        return true;
      }
      var n := NondetCount(|bytes|);
      var part := bytes[..n];
      ok := *;
      ok := ok && part == bytes;
      disk := disk + part;
    }

    /** How far a write got. */
    method NondetCount(bound: nat) returns (n: nat)
      ensures n <= bound
    {
      n := *;
      n := if 0 <= n <= bound then n else bound;
    }

    /** Put the whole buffer on disk. */
    method FlushLocked() returns (ok: bool)
      requires exists k: nat :: Split(k)
      modifies this`disk, this`pending, this`records
      ensures ok ==> records == 0 && Split(|appended|)
      ensures forall later :: Prefixed(f, base, appended + later, disk)
    {
      ghost var k: nat :| Split(k);
      ok := AppendBytes(pending);
      ghost var part :| part <= pending && disk == old(disk) + part && (ok ==> part == pending);
      FlushKeeps(k, part);
      if ok {
        assert appended[|appended|..] == [] && appended[..|appended|] == appended;
        EncodeConcat(f, appended[..k], appended[k..]);
        assert appended[..k] + appended[k..] == appended;
        pending := [];
        records := 0;
      }
    }

    lemma FlushKeeps(k: nat, part: Bytes)
      requires k <= |appended| && part <= Encode(f, appended[k..]) && disk == base + Encode(f, appended[..k]) + part
      ensures forall later :: Prefixed(f, base, appended + later, disk)
    {
      PrefixedBy(f, base, appended[..k], appended[k..], part);
      assert appended[..k] + appended[k..] == appended;
    }

    method Flush() returns (ok: bool)
      requires Valid()
      modifies this`disk, this`pending, this`records
      ensures ok ==> Valid() && records == 0 && disk == base + Encode(f, appended)
      ensures Prefixed(f, base, appended, disk)
    {
      ok := FlushLocked();
      assert appended + [] == appended;
      assert appended[..|appended|] == appended;
    }

    /** Buffer one record, flushing a full buffer first or after; a line larger
        than the buffer goes straight to disk. */
    method Append(record: FileRecord) returns (ok: bool)
      requires Valid()
      modifies this
      ensures appended == old(appended) + [record]
      ensures ok ==> Valid()
      ensures Prefixed(f, base, appended, disk)
    {
      var line := f.enc(record) + [NEWLINE];
      if records > 0 && (records == JOURNAL_MAX_RECORDS || |pending| + |line| > JOURNAL_MAX_BYTES) {
        assert Split(|appended| - records);
        ok := FlushLocked();
        if !ok {
          appended := appended + [record];
          return;
        }
      }
      ok := Buffer(record, line);
    }

    /** An oversized line, after everything before it is on disk. */
    method WriteThrough(ghost before: seq<FileRecord>, ghost record: FileRecord, line: Bytes) returns (ok: bool)
      requires appended == before + [record] && line == Encode(f, [record])
      requires records == 0 && pending == [] && disk == base + Encode(f, before)
      modifies this`disk
      ensures ok ==> Valid()
      ensures Prefixed(f, base, appended, disk)
    {
      ok := AppendBytes(line);
      ghost var part :| part <= line && disk == old(disk) + part && (ok ==> part == line);
      assert appended[..|before|] == before && appended[|before|..] == [record];
      FlushKeeps(|before|, part);
      assert appended + [] == appended;
      assert appended[..|appended|] == appended && appended[|appended|..] == [];
      EncodeConcat(f, before, [record]);
    }

    method Buffer(record: FileRecord, line: Bytes) returns (ok: bool)
      requires line == f.enc(record) + [NEWLINE]
      requires records <= |appended| && records < JOURNAL_MAX_RECORDS && Split(|appended| - records)
      requires records > 0 ==> |pending| + |line| <= JOURNAL_MAX_BYTES
      modifies this
      ensures appended == old(appended) + [record]
      ensures ok ==> Valid()
      ensures Prefixed(f, base, appended, disk)
    {
      ghost var k, before := |appended| - records, appended;
      OneLine(f, before, k, record);
      assert before[..|before|] == before;
      appended := appended + [record];
      if |line| > JOURNAL_MAX_BYTES {
        ok := WriteThrough(before, record, line);
        return;
      }
      pending := pending + line;
      records := records + 1;
      assert Split(k);
      if records == JOURNAL_MAX_RECORDS || |pending| == JOURNAL_MAX_BYTES {
        ok := FlushLocked();
      } else {
        ok := true;
        FlushKeeps(k, []);
      }
      assert appended + [] == appended;
    }
  }

  lemma OneLine(f: Format, rs: seq<FileRecord>, k: nat, record: FileRecord)
    requires k <= |rs|
    ensures Encode(f, [record]) == f.enc(record) + [NEWLINE]
    ensures (rs + [record])[..k] == rs[..k]
    ensures Encode(f, (rs + [record])[k..]) == Encode(f, rs[k..]) + f.enc(record) + [NEWLINE]
    ensures k == |rs| ==> Encode(f, rs[k..]) == []
  {
    var one := Texts(f, [record]);
    assert one == [f.enc(record)] && one[1..] == [];
    assert Join(one) == one[0] + [NEWLINE] + [];
    assert (rs + [record])[k..] == rs[k..] + [record];
    EncodeConcat(f, rs[k..], [record]);
  }
}
