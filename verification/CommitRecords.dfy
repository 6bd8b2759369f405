/** The records of a durable commit and the audit that accepts them on reopen. */
module CommitRecords {
  import opened Base
  import opened Ordering
  import opened Manifest

  const VERIFICATION_REVISION := 2
  const SNAPSHOT_VERIFICATION_REVISION := 3
  const MAX_BUFFERED_FILE_BYTES: nat := 64 * 1024 * 1024

  datatype CompletionKind = FileClosure | FullSnapshot

  datatype ViewMeta = ViewMeta(snapshotId: string, namespaceViewId: string, scope: string, leaseId: string)

  datatype Grant = Grant(text: string)

  /** Only a full snapshot's marker and pin carry these parts. */
  datatype MarkerPart = MarkerPart(descriptorDigest: Digest, indexDigest: Digest, directories: nat, pages: nat)

  datatype PinPart = PinPart(descriptorDigest: Digest, indexDigest: Digest, pages: seq<PageDependency>)

  datatype Marker = Marker(
    revision: nat, kind: CompletionKind, snapshotId: string, namespaceViewId: string,
    viewDigest: Digest, manifestDigest: Digest, pinDigest: Digest, grantDigest: Digest,
    files: nat, bytes: nat, hydratedAt: nat, snapshot: Option<MarkerPart>)

  datatype Pin = Pin(
    revision: nat, pinId: string, snapshotId: string, namespaceViewId: string, scope: string, leaseId: string,
    viewDigest: Digest, manifestDigest: Digest, blobs: seq<BlobDependency>, grantDigest: Digest,
    pinnedAt: nat, snapshot: Option<PinPart>)

  datatype MetadataIndex = MetadataIndex(revision: nat, pages: seq<PageDependency>, directories: seq<SnapshotDirectory>)

  datatype Record =
    | ViewRecord(view: ViewMeta)
    | ManifestRecord(files: seq<SnapshotFile>)
    | PinRecord(pin: Pin)
    | MarkerRecord(marker: Marker)
    | IndexRecord(index: MetadataIndex)
    | GrantRecord(grant: Grant)

  /** The environment: JSON coding, SHA-256, grant validation, and the closure
      validator seen as a partial function of descriptor bytes and pages. */
  datatype Env = Env(
    enc: Record -> Bytes,
    dec: Bytes -> Option<Record>,
    sha: Bytes -> Digest,
    grantFor: (Grant, string) -> Result<()>,
    reopen: (Bytes, map<string, Bytes>) -> Option<Closure>)

  ghost predicate RoundTrips(env: Env) {
    forall r: Record :: env.dec(env.enc(r)) == Some(r)
  }

  /** Digests are never the empty text that stands for an absent grant. */
  ghost predicate RealDigests(env: Env) {
    forall b: Bytes :: env.sha(b) != ""
  }

  /** Where the store keeps things. */
  datatype Path =
    | View | ManifestFile | Journal | Complete | PinFile | OfflineGrant | Repair | DescriptorFile | IndexFile
    | PageFile(id: string) | Blob(digest: Digest) | Temp(dir: Dir, n: nat)

  datatype Dir = Root | Metadata | Content

  function DirOf(p: Path): Dir {
    match p
    case PageFile(_) => Metadata
    case Blob(_) => Content
    case Temp(dir, _) => dir
    case _ => Root
  }

  /** Readable files of a store, as one reader sees them. */
  type Files = map<Path, Bytes>

  // -------------------------------------------------------------------- view policy

  predicate ViewOk(v: ViewMeta, full: bool) {
    v.snapshotId != "" && v.namespaceViewId != "" && v.leaseId != "" &&
    v.scope != "" && v.scope[0] == '/' && |v.scope| <= 4096 &&
    (v.scope == "/" || forall part :: part in Split(v.scope[1..]) ==> PartOk(part, full))
  }

  predicate SameView(v: ViewMeta, c: Closure) {
    v.snapshotId == c.snapshotId && v.namespaceViewId == c.namespaceViewId && v.scope == c.scope
  }

  // ------------------------------------------------------------------------- audits

  predicate BlobVerifies(env: Env, s: Files, digest: Digest, size: nat) {
    Blob(digest) in s && |s[Blob(digest)]| == size && env.sha(s[Blob(digest)]) == digest
  }

  predicate BlobsVerify(env: Env, s: Files, deps: seq<BlobDependency>) {
    forall d :: d in deps ==> BlobVerifies(env, s, d.digest, d.size)
  }

  /** A symlink target must be readable whole, intact and free of NUL. */
  predicate LinkVerifies(env: Env, s: Files, f: SnapshotFile) {
    f.size <= MAX_BUFFERED_FILE_BYTES && BlobVerifies(env, s, f.contentDigest, f.size) && 0 !in s[Blob(f.contentDigest)]
  }

  predicate LinksVerify(env: Env, s: Files, files: seq<SnapshotFile>) {
    forall f :: f in files && f.fsKind == "symlink" ==> LinkVerifies(env, s, f)
  }

  /** The grant on disk, if any, is the bound one and is valid for the snapshot; its
      own validation has its own reasons to refuse. */
  function CheckGrant(env: Env, s: Files, expected: Digest, snapshotId: string): Result<()> {
    if OfflineGrant !in s then if expected == "" then Ok(()) else Err(IntegrityError)
    else if expected == "" || env.sha(s[OfflineGrant]) != expected then Err(IntegrityError)
    else
      var grant := env.dec(s[OfflineGrant]);
      if grant.None? || !grant.value.GrantRecord? then Err(IntegrityError) else env.grantFor(grant.value.grant, snapshotId)
  }

  predicate GrantVerifies(env: Env, s: Files, expected: Digest, snapshotId: string) {
    CheckGrant(env, s, expected, snapshotId).Ok?
  }

  ghost predicate DistinctPages(pages: seq<PageDependency>) {
    forall i, j :: 0 <= i < j < |pages| ==> pages[i].pageId != pages[j].pageId
  }

  /** The dependency's page is stored, with the declared size. */
  predicate PageStored(s: Files, d: PageDependency) {
    IsDigest(d.pageId) && PageFile(d.pageId) in s && |s[PageFile(d.pageId)]| == d.size
  }

  predicate AllStored(s: Files, deps: seq<PageDependency>) {
    forall d :: d in deps ==> PageStored(s, d)
  }

  function StoredPages(s: Files, deps: seq<PageDependency>): map<string, Bytes>
    requires AllStored(s, deps)
  {
    if deps == [] then map[]
    else
      var last := deps[|deps| - 1];
      assert last in deps && PageStored(s, last);
      StoredPages(s, deps[..|deps| - 1])[last.pageId := s[PageFile(last.pageId)]]
  }

  ghost predicate HasPage(deps: seq<PageDependency>, id: string) {
    exists k :: 0 <= k < |deps| && deps[k].pageId == id
  }

  lemma {:induction false} StoredKeys(s: Files, deps: seq<PageDependency>)
    requires AllStored(s, deps)
    ensures forall d :: d in deps ==> d.pageId in StoredPages(s, deps)
    ensures forall id :: id in StoredPages(s, deps) ==> HasPage(deps, id)
  {
    if deps != [] {
      var front := deps[..|deps| - 1];
      StoredKeys(s, front);
      assert deps == front + [deps[|deps| - 1]];
      forall id | id in StoredPages(s, deps) ensures HasPage(deps, id) {
        if id in StoredPages(s, front) {
          assert HasPage(front, id);
          var k :| 0 <= k < |front| && front[k].pageId == id;
          assert deps[k].pageId == id;
        } else {
          assert deps[|deps| - 1].pageId == id;
        }
      }
    }
  }

  /** The metadata half of a full snapshot's audit: pages, descriptor, index and
      the closure they reopen to. */
  ghost predicate MetadataVerifies(env: Env, s: Files, view: ViewMeta, manifest: seq<SnapshotFile>, m: Marker, p: Pin) {
    m.snapshot.Some? && p.snapshot.Some? && DescriptorFile in s && IndexFile in s &&
    env.sha(s[DescriptorFile]) == m.snapshot.value.descriptorDigest &&
    env.sha(s[IndexFile]) == m.snapshot.value.indexDigest &&
    env.dec(s[IndexFile]).Some? && env.dec(s[IndexFile]).value.IndexRecord? &&
    var index := env.dec(s[IndexFile]).value.index;
    index.revision == SNAPSHOT_VERIFICATION_REVISION &&
    m.snapshot.value.directories == |index.directories| && m.snapshot.value.pages == |index.pages| &&
    p.snapshot.value.descriptorDigest == m.snapshot.value.descriptorDigest &&
    p.snapshot.value.indexDigest == m.snapshot.value.indexDigest &&
    p.snapshot.value.pages == index.pages &&
    AllStored(s, index.pages) && DistinctPages(index.pages) &&
    var closure := env.reopen(s[DescriptorFile], StoredPages(s, index.pages));
    closure.Some? && SameView(view, closure.value) &&
    closure.value.files == manifest && closure.value.directories == index.directories
  }

  datatype Committed = Committed(kind: CompletionKind, manifest: seq<SnapshotFile>)

  /** Which records the marker commits, and in what bound form. */
  ghost predicate RecordsVerify(env: Env, s: Files, view: ViewMeta, manifest: seq<SnapshotFile>, m: Marker, p: Pin) {
    var full := m.revision == SNAPSHOT_VERIFICATION_REVISION;
    (full ==> m.kind == FullSnapshot && m.snapshot.Some?) &&
    (!full ==> m.revision == VERIFICATION_REVISION && m.kind == FileClosure && m.snapshot.None?) &&
    ViewOk(view, full) && ManifestOk(manifest, full) &&
    GrantVerifies(env, s, m.grantDigest, view.snapshotId) &&
    m.snapshotId == view.snapshotId && m.namespaceViewId == view.namespaceViewId &&
    m.files == |manifest| && m.bytes == Total(manifest) &&
    p.revision == m.revision && p.pinId != "" && p.snapshotId == view.snapshotId &&
    p.namespaceViewId == view.namespaceViewId && p.scope == view.scope && p.leaseId == view.leaseId &&
    p.viewDigest == m.viewDigest && p.manifestDigest == m.manifestDigest &&
    p.blobs == Dependencies(manifest) && p.grantDigest == m.grantDigest && (p.snapshot.Some? <==> full) &&
    (full ==> MetadataVerifies(env, s, view, manifest, m, p) && LinksVerify(env, s, manifest)) &&
    BlobsVerify(env, s, Dependencies(manifest))
  }

  /** The reopen audit accepts these files as the completion `c`. */
  ghost predicate Accepts(env: Env, s: Files, c: Committed) {
    Complete in s && View in s && ManifestFile in s && PinFile in s &&
    env.dec(s[Complete]).Some? && env.dec(s[Complete]).value.MarkerRecord? &&
    env.dec(s[View]).Some? && env.dec(s[View]).value.ViewRecord? &&
    env.dec(s[ManifestFile]).Some? && env.dec(s[ManifestFile]).value.ManifestRecord? &&
    env.dec(s[PinFile]).Some? && env.dec(s[PinFile]).value.PinRecord? &&
    var m := env.dec(s[Complete]).value.marker;
    env.sha(s[View]) == m.viewDigest && env.sha(s[ManifestFile]) == m.manifestDigest && env.sha(s[PinFile]) == m.pinDigest &&
    RecordsVerify(env, s, env.dec(s[View]).value.view, env.dec(s[ManifestFile]).value.files, m, env.dec(s[PinFile]).value.pin) &&
    c == Committed(m.kind, env.dec(s[ManifestFile]).value.files)
  }

  // -------------------------------------------------------- the audit, step by step

  method VerifyBlobs(env: Env, s: Files, deps: seq<BlobDependency>) returns (ok: bool)
    ensures ok <==> BlobsVerify(env, s, deps)
  {
    for k := 0 to |deps|
      invariant BlobsVerify(env, s, deps[..k])
    {
      SplitAt(deps, k);
      if !BlobVerifies(env, s, deps[k].digest, deps[k].size) {
        assert deps[k] in deps;
        return false;
      }
    }
    assert deps[..|deps|] == deps;
    return true;
  }

  /** Some symlink is longer than what may be read into memory. */
  ghost predicate OversizedLink(files: seq<SnapshotFile>) {
    exists f :: f in files && f.fsKind == "symlink" && f.size > MAX_BUFFERED_FILE_BYTES
  }

  method VerifyLinks(env: Env, s: Files, files: seq<SnapshotFile>) returns (r: Result<()>)
    ensures r.Ok? <==> LinksVerify(env, s, files)
    ensures r.Err? ==> r.code == LimitExceeded || r.code == DigestMismatch || r.code == IntegrityError
    ensures r == Err(LimitExceeded) ==> OversizedLink(files)
  {
    for k := 0 to |files|
      invariant LinksVerify(env, s, files[..k])
    {
      SplitAt(files, k);
      var f := files[k];
      assert f in files;
      if f.fsKind == "symlink" && !LinkVerifies(env, s, f) {
        return Err(if f.size > MAX_BUFFERED_FILE_BYTES then LimitExceeded
                   else if !BlobVerifies(env, s, f.contentDigest, f.size) then DigestMismatch else IntegrityError);
      }
    }
    assert files[..|files|] == files;
    return Ok(());
  }

  lemma RepeatedPage(deps: seq<PageDependency>, k: nat)
    requires k < |deps| && HasPage(deps[..k], deps[k].pageId)
    ensures !DistinctPages(deps)
  {
    var j :| 0 <= j < k && deps[..k][j].pageId == deps[k].pageId;
    assert deps[j].pageId == deps[k].pageId;
  }

  lemma DistinctGrows(deps: seq<PageDependency>, k: nat)
    requires k < |deps| && DistinctPages(deps[..k]) && forall d :: d in deps[..k] ==> d.pageId != deps[k].pageId
    ensures DistinctPages(deps[..k + 1])
  {
    var next := deps[..k + 1];
    forall i, j | 0 <= i < j < |next| ensures next[i].pageId != next[j].pageId {
      assert next[i] == deps[..k][i] && deps[..k][i] in deps[..k];
      assert j < k ==> next[j] == deps[..k][j];
    }
  }

  /** The first `k` pages have been collected. */
  ghost predicate Loaded(s: Files, deps: seq<PageDependency>, k: nat, pages: map<string, Bytes>) {
    k <= |deps| && AllStored(s, deps[..k]) && DistinctPages(deps[..k]) && pages == StoredPages(s, deps[..k])
  }

  lemma LoadOne(s: Files, deps: seq<PageDependency>, k: nat, pages: map<string, Bytes>)
    requires k < |deps| && Loaded(s, deps, k, pages) && PageStored(s, deps[k])
    ensures deps[k].pageId in pages ==> !DistinctPages(deps)
    ensures deps[k].pageId !in pages ==> Loaded(s, deps, k + 1, pages[deps[k].pageId := s[PageFile(deps[k].pageId)]])
  {
    SplitAt(deps, k);
    StoredKeys(s, deps[..k]);
    if deps[k].pageId in pages {
      RepeatedPage(deps, k);
    } else {
      DistinctGrows(deps, k);
      assert deps[..k + 1][..k] == deps[..k];
    }
  }

  /** Collect the indexed pages; each must be stored once with its size. */
  method LoadPages(s: Files, deps: seq<PageDependency>) returns (r: Option<map<string, Bytes>>)
    ensures r.Some? <==> AllStored(s, deps) && DistinctPages(deps)
    ensures r.Some? ==> r.value == StoredPages(s, deps)
  {
    var pages: map<string, Bytes> := map[];
    for k := 0 to |deps|
      invariant Loaded(s, deps, k, pages)
    {
      if !PageStored(s, deps[k]) {
        assert deps[k] in deps;
        return None;
      }
      LoadOne(s, deps, k, pages);
      if deps[k].pageId in pages {
        return None;
      }
      pages := pages[deps[k].pageId := s[PageFile(deps[k].pageId)]];
    }
    assert deps[..|deps|] == deps;
    return Some(pages);
  }

  /** The metadata part of the audit. */
  method VerifyMetadata(env: Env, s: Files, view: ViewMeta, manifest: seq<SnapshotFile>, m: Marker, p: Pin) returns (ok: bool)
    ensures ok <==> MetadataVerifies(env, s, view, manifest, m, p)
  {
    if m.snapshot.None? || p.snapshot.None? || DescriptorFile !in s || IndexFile !in s {
      return false;
    }
    var mp, pp := m.snapshot.value, p.snapshot.value;
    if env.sha(s[DescriptorFile]) != mp.descriptorDigest || env.sha(s[IndexFile]) != mp.indexDigest {
      return false;
    }
    var decoded := env.dec(s[IndexFile]);
    if decoded.None? || !decoded.value.IndexRecord? {
      return false;
    }
    var index := decoded.value.index;
    if index.revision != SNAPSHOT_VERIFICATION_REVISION || mp.directories != |index.directories| || mp.pages != |index.pages| {
      return false;
    }
    if pp.descriptorDigest != mp.descriptorDigest || pp.indexDigest != mp.indexDigest || pp.pages != index.pages {
      return false;
    }
    var pages := LoadPages(s, index.pages);
    if pages.None? {
      return false;
    }
    var closure := env.reopen(s[DescriptorFile], pages.value);
    if closure.None? || !SameView(view, closure.value) || closure.value.files != manifest || closure.value.directories != index.directories {
      return false;
    }
    return true;
  }

  /** A rejection that says the data is damaged, and so revokes the completion. */
  predicate Damaged(code: ErrorCode) {
    code == IntegrityError || code == DigestMismatch
  }

  /** A rejection for any other reason has one of two: the grant's own validation, or
      a symlink too long to read. */
  ghost predicate OtherReason(env: Env, s: Files, view: ViewMeta, manifest: seq<SnapshotFile>, m: Marker, code: ErrorCode) {
    CheckGrant(env, s, m.grantDigest, view.snapshotId) == Err(code) || (code == LimitExceeded && OversizedLink(manifest))
  }

  /** Whether marker and pin state what the view and the manifest's own figures are. */
  predicate PinAgrees(view: ViewMeta, files: nat, deps: seq<BlobDependency>, total: nat, m: Marker, p: Pin) {
    m.snapshotId == view.snapshotId && m.namespaceViewId == view.namespaceViewId && m.files == files && m.bytes == total &&
    p.revision == m.revision && p.pinId != "" && p.snapshotId == view.snapshotId && p.namespaceViewId == view.namespaceViewId &&
    p.scope == view.scope && p.leaseId == view.leaseId && p.viewDigest == m.viewDigest && p.manifestDigest == m.manifestDigest &&
    p.blobs == deps && p.grantDigest == m.grantDigest && (p.snapshot.Some? <==> m.revision == SNAPSHOT_VERIFICATION_REVISION)
  }

  /** The stored content behind the records: pages, blobs, then symlink targets. */
  method VerifyContent(env: Env, s: Files, view: ViewMeta, manifest: seq<SnapshotFile>, m: Marker, p: Pin, deps: seq<BlobDependency>, full: bool)
    returns (r: Result<()>)
    requires deps == Dependencies(manifest)
    ensures r.Ok? <==> (full ==> MetadataVerifies(env, s, view, manifest, m, p) && LinksVerify(env, s, manifest)) && BlobsVerify(env, s, deps)
    ensures r.Err? ==> Damaged(r.code) || (r.code == LimitExceeded && OversizedLink(manifest))
  {
    if full {
      var metadata := VerifyMetadata(env, s, view, manifest, m, p);
      if !metadata {
        return Err(IntegrityError);
      }
    }
    var stored := VerifyBlobs(env, s, deps);
    if !stored {
      return Err(IntegrityError);
    }
    if full {
      r := VerifyLinks(env, s, manifest);
    } else {
      r := Ok(());
    }
  }

  /** Everything the marker binds besides the three bound record files. */
  method VerifyRecords(env: Env, s: Files, view: ViewMeta, manifest: seq<SnapshotFile>, m: Marker, p: Pin) returns (r: Result<()>)
    ensures r.Ok? <==> RecordsVerify(env, s, view, manifest, m, p)
    ensures r.Err? ==> Damaged(r.code) || OtherReason(env, s, view, manifest, m, r.code)
  {
    var full := m.revision == SNAPSHOT_VERIFICATION_REVISION;
    if full && (m.kind != FullSnapshot || m.snapshot.None?) {
      return Err(IntegrityError);
    }
    if !full && (m.revision != VERIFICATION_REVISION || m.kind != FileClosure || m.snapshot.Some?) {
      return Err(IntegrityError);
    }
    if !ViewOk(view, full) {
      return Err(IntegrityError);
    }
    var valid := ValidateManifest(manifest, full);
    if full && valid.Err? {
      return Err(IntegrityError);
    }
    var granted := CheckGrant(env, s, m.grantDigest, view.snapshotId);
    if granted.Err? {
      return granted;
    }
    if valid.Err? {
      return Err(IntegrityError);
    }
    var deps, total := valid.value.0, valid.value.1;
    if !PinAgrees(view, |manifest|, deps, total, m, p) {
      return Err(IntegrityError);
    }
    r := VerifyContent(env, s, view, manifest, m, p, deps, full);
  }

  /** Audit a completion marker against everything it binds. */
  method VerifyCommit(env: Env, s: Files) returns (r: Result<Committed>)
    requires Complete in s
    ensures r.Ok? ==> Accepts(env, s, r.value)
    ensures r.Err? ==> forall c :: !Accepts(env, s, c)
    ensures r.Err? && !Damaged(r.code) ==> RefusedOtherwise(env, s, r.code)
  {
    var marker := env.dec(s[Complete]);
    if marker.None? || !marker.value.MarkerRecord? || View !in s || ManifestFile !in s || PinFile !in s {
      return Err(IntegrityError);
    }
    var m := marker.value.marker;
    if env.sha(s[View]) != m.viewDigest || env.sha(s[ManifestFile]) != m.manifestDigest || env.sha(s[PinFile]) != m.pinDigest {
      return Err(IntegrityError);
    }
    var view, manifest, pin := env.dec(s[View]), env.dec(s[ManifestFile]), env.dec(s[PinFile]);
    if view.None? || !view.value.ViewRecord? || manifest.None? || !manifest.value.ManifestRecord? || pin.None? || !pin.value.PinRecord? {
      return Err(IntegrityError);
    }
    var checked := VerifyRecords(env, s, view.value.view, manifest.value.files, m, pin.value.pin);
    if checked.Err? {
      return Err(checked.code);
    }
    return Ok(Committed(m.kind, manifest.value.files));
  }

  /** The bound records are there and decode, and the rejection has another reason
      than damage. */
  ghost predicate RefusedOtherwise(env: Env, s: Files, code: ErrorCode) {
    Complete in s && View in s && ManifestFile in s && env.dec(s[Complete]).Some? && env.dec(s[Complete]).value.MarkerRecord? &&
    env.dec(s[View]).Some? && env.dec(s[View]).value.ViewRecord? && env.dec(s[ManifestFile]).Some? && env.dec(s[ManifestFile]).value.ManifestRecord? &&
    OtherReason(env, s, env.dec(s[View]).value.view, env.dec(s[ManifestFile]).value.files, env.dec(s[Complete]).value.marker, code)
  }

  // ------------------------------------------------------------ what a commit writes

  /** One hydration's commit: its fixed inputs and the identifiers it draws. */
  datatype Commit = Commit(
    view: ViewMeta, manifest: seq<SnapshotFile>, closure: Option<Closure>, grant: Option<Grant>,
    pinId: string, pinnedAt: nat, hydratedAt: nat)

  function KindOf(c: Commit): CompletionKind {
    if c.closure.Some? then FullSnapshot else FileClosure
  }

  function RevisionOf(c: Commit): nat {
    if c.closure.Some? then SNAPSHOT_VERIFICATION_REVISION else VERIFICATION_REVISION
  }

  function IndexOf(closure: Closure): MetadataIndex {
    MetadataIndex(SNAPSHOT_VERIFICATION_REVISION, PageDeps(closure.pages), closure.directories)
  }

  function GrantDigest(env: Env, c: Commit): Digest {
    if c.grant.Some? then env.sha(env.enc(GrantRecord(c.grant.value))) else ""
  }

  function PinOf(env: Env, c: Commit): Pin {
    Pin(RevisionOf(c), c.pinId, c.view.snapshotId, c.view.namespaceViewId, c.view.scope, c.view.leaseId,
        env.sha(env.enc(ViewRecord(c.view))), env.sha(env.enc(ManifestRecord(c.manifest))), Dependencies(c.manifest),
        GrantDigest(env, c), c.pinnedAt,
        if c.closure.None? then None
        else Some(PinPart(env.sha(c.closure.value.descriptorBytes), env.sha(env.enc(IndexRecord(IndexOf(c.closure.value)))),
                          PageDeps(c.closure.value.pages))))
  }

  function MarkerOf(env: Env, c: Commit): Marker {
    Marker(RevisionOf(c), KindOf(c), c.view.snapshotId, c.view.namespaceViewId,
           env.sha(env.enc(ViewRecord(c.view))), env.sha(env.enc(ManifestRecord(c.manifest))),
           env.sha(env.enc(PinRecord(PinOf(env, c)))), GrantDigest(env, c), |c.manifest|, Total(c.manifest), c.hydratedAt,
           if c.closure.None? then None
           else Some(MarkerPart(env.sha(c.closure.value.descriptorBytes), env.sha(env.enc(IndexRecord(IndexOf(c.closure.value)))),
                                |c.closure.value.directories|, |c.closure.value.pages|)))
  }

  /** A closure as only the validator produces it. */
  ghost predicate ValidClosure(env: Env, closure: Closure) {
    env.reopen(closure.descriptorBytes, PageMap(closure.pages)) == Some(closure) &&
    DistinctPages(PageDeps(closure.pages)) && forall p :: p in closure.pages ==> IsDigest(p.pageId)
  }

  /** Inputs a commit is called with; the rest is checked by the commit itself. */
  ghost predicate ValidInput(env: Env, c: Commit) {
    ViewOk(c.view, c.closure.Some?) && c.pinId != "" &&
    (c.closure.Some? ==> ValidClosure(env, c.closure.value) && c.closure.value.files == c.manifest)
  }

  /** `s` holds the metadata records of a full snapshot. */
  ghost predicate HoldsMetadata(env: Env, s: Files, closure: Closure) {
    DescriptorFile in s && s[DescriptorFile] == closure.descriptorBytes &&
    IndexFile in s && s[IndexFile] == env.enc(IndexRecord(IndexOf(closure))) &&
    forall p :: p in closure.pages ==> PageFile(p.pageId) in s && s[PageFile(p.pageId)] == p.bytes
  }

  /** `s` holds every file a finished commit binds, except the marker. */
  ghost predicate HoldsBound(env: Env, s: Files, c: Commit) {
    View in s && s[View] == env.enc(ViewRecord(c.view)) &&
    ManifestFile in s && s[ManifestFile] == env.enc(ManifestRecord(c.manifest)) &&
    PinFile in s && s[PinFile] == env.enc(PinRecord(PinOf(env, c))) &&
    (c.grant.None? ==> OfflineGrant !in s) &&
    (c.grant.Some? ==> OfflineGrant in s && s[OfflineGrant] == env.enc(GrantRecord(c.grant.value))) &&
    (c.closure.Some? ==> HoldsMetadata(env, s, c.closure.value) && LinksVerify(env, s, c.manifest)) &&
    BlobsVerify(env, s, Dependencies(c.manifest))
  }

  lemma {:induction false} PagesReadBack(s: Files, pages: seq<StoredPage>)
    requires forall p :: p in pages ==> IsDigest(p.pageId) && PageFile(p.pageId) in s && s[PageFile(p.pageId)] == p.bytes
    ensures AllStored(s, PageDeps(pages))
    ensures StoredPages(s, PageDeps(pages)) == PageMap(pages)
  {
    var deps := PageDeps(pages);
    forall d | d in deps ensures PageStored(s, d) {
      var i :| 0 <= i < |deps| && deps[i] == d;
      assert pages[i] in pages;
    }
    if pages != [] {
      var front := pages[..|pages| - 1];
      PagesReadBack(s, front);
      assert PageDeps(front) == deps[..|deps| - 1];
    }
  }

  lemma MetadataReadsBack(env: Env, s: Files, c: Commit)
    requires RoundTrips(env) && c.closure.Some? && ValidInput(env, c) && SameView(c.view, c.closure.value)
    requires HoldsMetadata(env, s, c.closure.value)
    ensures MetadataVerifies(env, s, c.view, c.manifest, MarkerOf(env, c), PinOf(env, c))
  {
    PagesReadBack(s, c.closure.value.pages);
  }

  /** Writer and verifier agree: the records of a valid commit, read back
      unchanged, are accepted with the same manifest and completion kind. */
  lemma WriterVerifierAgree(env: Env, s: Files, c: Commit)
    requires RoundTrips(env) && RealDigests(env) && ValidInput(env, c) && ManifestOk(c.manifest, c.closure.Some?)
    requires c.closure.Some? ==> SameView(c.view, c.closure.value)
    requires c.grant.Some? ==> env.grantFor(c.grant.value, c.view.snapshotId).Ok?
    requires HoldsBound(env, s, c) && Complete in s && s[Complete] == env.enc(MarkerRecord(MarkerOf(env, c)))
    ensures Accepts(env, s, Committed(KindOf(c), c.manifest))
  {
    var m, p := MarkerOf(env, c), PinOf(env, c);
    assert GrantVerifies(env, s, m.grantDigest, c.view.snapshotId) by {
      if c.grant.Some? {
        assert env.dec(s[OfflineGrant]) == Some(GrantRecord(c.grant.value));
      }
    }
    if c.closure.Some? {
      MetadataReadsBack(env, s, c);
    }
    assert RecordsVerify(env, s, c.view, c.manifest, m, p);
    assert env.dec(s[Complete]) == Some(MarkerRecord(m)) && env.dec(s[PinFile]) == Some(PinRecord(p));
    assert env.dec(s[View]) == Some(ViewRecord(c.view)) && env.dec(s[ManifestFile]) == Some(ManifestRecord(c.manifest));
  }
}
