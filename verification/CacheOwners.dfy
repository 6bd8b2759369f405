/** The records through which an owner registers, retains its root and retires,
    and what the collector then makes of them. */
module CacheOwners {
  import opened Base
  import opened Ordering
  import opened CacheLayout
  import opened CacheProof
  import opened CachePlan
  import opened CacheSteps
  import opened CacheSweep
  import opened ClosureReopen

  ghost predicate UsesRoundTrip(env: Env) {
    forall u :: env.use(env.encodeUse(u)) == Some(u)
  }

  ghost predicate PagesOk(pages: seq<StoredPage>) {
    (forall p :: p in pages ==> IsDigest(p.pageId)) && forall i, j :: 0 <= i < j < |pages| ==> pages[i].pageId != pages[j].pageId
  }

  lemma MineWrite(files: Files, root: Path, p: Path, data: Bytes)
    requires Under(root, p) && ValidFinalFile(p, {root})
    ensures Mine(files[p := data], root) == Mine(files, root)[p := data]
  {
  }

  lemma OwnerFile(root: Path, name: string)
    requires |root| == 3 && root[1] == "owners" && name in OWNER_FILES
    ensures Under(root, root + [name]) && ValidFinalFile(root + [name], {root})
  {
    assert FileName(root + [name]) == name && Parent(root + [name]) == root;
  }

  lemma RetentionFile(root: Path, digest: Digest)
    requires |root| == 3 && root[1] == "owners"
    ensures Under(root, root + [RETENTION_DIR, "descriptor.msd2"]) && ValidFinalFile(root + [RETENTION_DIR, "descriptor.msd2"], {root})
    ensures IsDigest(digest) ==> Under(root, PagePath(root, digest)) && ValidFinalFile(PagePath(root, digest), {root})
  {
    var d := root + [RETENTION_DIR, "descriptor.msd2"];
    assert FileName(d) == "descriptor.msd2" && Parent(d) == root + [RETENTION_DIR] && Parent(d)[..3] == root;
    if IsDigest(digest) {
      var p := PagePath(root, digest);
      assert FileName(p) == HexOf(digest) && Parent(p) == root + [RETENTION_DIR, "pages"] && Parent(p)[..3] == root;
      assert CanonicalHex(HexOf(digest));
    }
  }

  /** Every one of these pages is stored as given. */
  ghost predicate PagesStored(mine: Files, root: Path, pages: seq<StoredPage>) {
    forall p :: p in pages ==> IsDigest(p.pageId) && PagePath(root, p.pageId) in mine && mine[PagePath(root, p.pageId)] == p.bytes
  }

  lemma {:induction false} PageMapKeys(pages: seq<StoredPage>, id: Digest)
    requires id in PageMap(pages)
    ensures exists p :: p in pages && p.pageId == id
  {
    var n := |pages| - 1;
    if pages[n].pageId == id {
      assert pages[n] in pages;
    } else {
      PageMapKeys(pages[..n], id);
      var p :| p in pages[..n] && p.pageId == id;
      assert p in pages;
    }
  }

  /** Stored pages are read back as the table they were written from. */
  lemma {:induction false} RetainedRead(mine: Files, root: Path, pages: seq<StoredPage>)
    requires PagesOk(pages) && PagesStored(mine, root, pages)
    ensures RetainedPages(mine, root, PageDeps(pages)) == Some(PageMap(pages))
  {
    if pages != [] {
      var n := |pages| - 1;
      RetainedRead(mine, root, pages[..n]);
      assert PageDeps(pages)[..n] == PageDeps(pages[..n]);
      assert pages[n] in pages;
      if pages[n].pageId in PageMap(pages[..n]) {
        PageMapKeys(pages[..n], pages[n].pageId);
      }
    }
  }

  /** Replace one file atomically. A failure may come before or after the rename. */
  method WriteRecord(scope: ManagedScope, p: Path, data: Bytes) returns (ok: bool)
    modifies scope`files
    ensures scope.files == old(scope.files)[p := data] || (!ok && scope.files == old(scope.files))
  {
    var renamed, synced := *, *;
    if renamed {
      scope.files := scope.files[p := data];
    }
    return renamed && synced;
  }

  /** The scope as an owner under the shared fence finds it. */
  ghost predicate Holds(s: State, scope: ManagedScope, o: Owner)
    reads scope
  {
    s.files == scope.files && s.dirs == scope.dirs && s.shared > 0 && o in s.owners && Discovered(ContextIn(s))
  }

  /** The operation was these steps and changed nothing but files. */
  ghost predicate Did(env: Env, s: State, acts: seq<Action>, files: Files) {
    Reaches(env, s, acts, s.(files := files))
  }

  /** Register a use: a live one stays as it is, a retired or missing one becomes
      a live use whose root is unknown, which keeps every collector away. */
  method RegisterUse(scope: ManagedScope, env: Env, o: Owner, ghost s: State) returns (r: Result<()>, ghost acts: seq<Action>)
    requires UsesRoundTrip(env) && Holds(s, scope, o)
    modifies scope`files
    ensures Did(env, s, acts, scope.files) && (acts == [] || acts == [Register(o)])
    ensures r.Ok? ==> UseOf(env, scope.files, o).Some? && !UseOf(env, scope.files, o).value.retired
    ensures acts != [] ==> Stands(env, scope.files, o).None?
    ensures Stands(env, old(scope.files), o).Some? && Stands(env, old(scope.files), o).value.Protecting? ==> r.Ok? && acts == []
  {
    acts := [];
    var path := UsePath(o.root);
    ProtectingIsLive(env, scope.files, o);
    if path in scope.files {
      var use := UseOf(env, scope.files, o);
      if use.None? {
        r := Err(IntegrityError);
        return;
      }
      if !use.value.retired {
        r := Ok(());
        return;
      }
    }
    RecordRead(env, scope.files, o, UnknownUse(o));
    ReachesOne(env, s, Register(o));
    var ok := WriteRecord(scope, path, env.encodeUse(UnknownUse(o)));
    acts := if scope.files == s.files then [] else [Register(o)];
    r := if ok then Ok(()) else Err(Internal);
  }

  /** What an owner writes as its record is what is read back as its use. */
  lemma RecordRead(env: Env, files: Files, o: Owner, use: WorkspaceUse)
    requires UsesRoundTrip(env) && |o.root| == 3 && o.root[1] == "owners" && use.revision == 1 && use.binding == o.binding
    ensures UseOf(env, files[UsePath(o.root) := env.encodeUse(use)], o) == Some(use)
    ensures !use.retired && use.descriptorDigest.None? ==> Stands(env, files[UsePath(o.root) := env.encodeUse(use)], o).None?
  {
    OwnerFile(o.root, USE_RECORD);
    MineWrite(files, o.root, UsePath(o.root), env.encodeUse(use));
  }

  lemma ProtectingIsLive(env: Env, files: Files, o: Owner)
    ensures Stands(env, files, o).Some? && Stands(env, files, o).value.Protecting? ==>
              UsePath(o.root) in files && UseOf(env, files, o).Some? && !UseOf(env, files, o).value.retired
  {
  }

  /** Retire a use whose owner has been released and carries no completion. */
  method RetireUse(scope: ManagedScope, env: Env, o: Owner, ghost s: State) returns (r: Result<()>, ghost acts: seq<Action>)
    requires UsesRoundTrip(env) && Holds(s, scope, o)
    modifies scope`files
    ensures Did(env, s, acts, scope.files) && (acts == [] || acts == [Retire(o)])
    ensures r.Ok? ==> UseOf(env, scope.files, o).Some? && UseOf(env, scope.files, o).value.retired
    ensures r.Ok? && o.root + [".hydrate.lock"] in scope.files ==> Stands(env, scope.files, o) == Some(Retired)
    ensures r.Ok? ==> RetiredOk(Mine(old(scope.files), o.root), o)
  {
    acts := [];
    var mine := Mine(scope.files, o.root);
    var use := UseFor(env, mine, o);
    if use.None? || !RetiredOk(mine, o) {
      r := Err(IntegrityError);
      return;
    }
    RetiredStands(env, scope.files, o);
    ReachesOne(env, s, Retire(o));
    var ok := WriteRecord(scope, UsePath(o.root), env.encodeUse(use.value.(retired := true)));
    acts := if scope.files == s.files then [] else [Retire(o)];
    r := if ok then Ok(()) else Err(Internal);
  }

  lemma RetiredStands(env: Env, files: Files, o: Owner)
    requires UsesRoundTrip(env) && |o.root| == 3 && o.root[1] == "owners" && MayRetire(env, files, o)
    ensures var files' := files[UsePath(o.root) := env.encodeUse(UseOf(env, files, o).value.(retired := true))];
            UseOf(env, files', o) == Some(UseOf(env, files, o).value.(retired := true)) &&
            (o.root + [".hydrate.lock"] in files' ==> Stands(env, files', o) == Some(Retired))
  {
    var use := UseOf(env, files, o).value.(retired := true);
    RecordRead(env, files, o, use);
    OwnerFile(o.root, USE_RECORD);
    OwnerFile(o.root, ".hydrate.lock");
    MineWrite(files, o.root, UsePath(o.root), env.encodeUse(use));
    assert o.root + ["pin.json"] != UsePath(o.root) by {
      assert (o.root + ["pin.json"])[|o.root|] != UsePath(o.root)[|o.root|];
    }
    assert o.root + ["DURABLE_COMPLETE"] != UsePath(o.root) by {
      assert (o.root + ["DURABLE_COMPLETE"])[|o.root|] != UsePath(o.root)[|o.root|];
    }
  }

  lemma PagePathInjective(root: Path, a: Digest, b: Digest)
    requires IsDigest(a) && IsDigest(b) && PagePath(root, a) == PagePath(root, b)
    ensures a == b
  {
    var n := |root| + 2;
    assert PagePath(root, a)[n] == HexOf(a) && PagePath(root, b)[n] == HexOf(b);
    assert a == a[..7] + a[7..] && b == b[..7] + b[7..];
  }

  /** Writing one more page keeps those already stored. */
  lemma PageWrite(files: Files, root: Path, pages: seq<StoredPage>, k: nat)
    requires |root| == 3 && root[1] == "owners" && PagesOk(pages) && k < |pages| && PagesStored(Mine(files, root), root, pages[..k])
    ensures IsDigest(pages[k].pageId) && PagesStored(Mine(files[PagePath(root, pages[k].pageId) := pages[k].bytes], root), root, pages[..k + 1])
  {
    var page := pages[k];
    assert page in pages;
    var path := PagePath(root, page.pageId);
    RetentionFile(root, page.pageId);
    MineWrite(files, root, path, page.bytes);
    SplitAt(pages, k);
    forall p | p in pages[..k] ensures PagePath(root, p.pageId) != path {
      if PagePath(root, p.pageId) == path {
        PagePathInjective(root, p.pageId, page.pageId);
      }
    }
  }

  lemma PathsDiffer(root: Path, digest: Digest)
    ensures UsePath(root) != root + [RETENTION_DIR, "descriptor.msd2"]
    ensures IsDigest(digest) ==> PagePath(root, digest) != UsePath(root) && PagePath(root, digest) != root + [RETENTION_DIR, "descriptor.msd2"]
  {
    assert |UsePath(root)| == |root| + 1 && |root + [RETENTION_DIR, "descriptor.msd2"]| == |root| + 2;
  }

  /** Writing a retained page or the descriptor is an ordinary write. */
  lemma RetentionWrite(env: Env, s: State, acts: seq<Action>, files: Files, p: Path, data: Bytes)
    requires Did(env, s, acts, files) && s.shared > 0 && |p| > 4
    ensures Did(env, s, acts + [Write(p, data)], files[p := data])
  {
    ReachesMore(env, s, acts, s.(files := files), Write(p, data));
  }

  /** Only writes of the owner's retention directory, which leave its record alone. */
  ghost predicate RetentionWrites(acts: seq<Action>, root: Path) {
    forall a :: a in acts ==> a.Write? && |a.path| > 4 && Under(root, a.path)
  }

  lemma RecordStays(env: Env, files: Files, o: Owner, p: Path, data: Bytes)
    requires |o.root| == 3 && o.root[1] == "owners" && |p| > 4
    ensures UseOf(env, files[p := data], o) == UseOf(env, files, o)
  {
    OwnerFile(o.root, USE_RECORD);
  }

  method WritePages(scope: ManagedScope, env: Env, o: Owner, pages: seq<StoredPage>, ghost s: State) returns (ok: bool, ghost acts: seq<Action>)
    requires Holds(s, scope, o) && PagesOk(pages)
    modifies scope`files
    ensures Did(env, s, acts, scope.files) && RetentionWrites(acts, o.root)
    ensures UseOf(env, scope.files, o) == UseOf(env, old(scope.files), o)
    ensures ok ==> PagesStored(Mine(scope.files, o.root), o.root, pages)
  {
    ok, acts := true, [];
    for k := 0 to |pages|
      invariant Did(env, s, acts, scope.files) && RetentionWrites(acts, o.root) && PagesStored(Mine(scope.files, o.root), o.root, pages[..k])
      invariant UseOf(env, scope.files, o) == UseOf(env, old(scope.files), o)
    {
      PageWrite(scope.files, o.root, pages, k);
      var path := PagePath(o.root, pages[k].pageId);
      RetentionFile(o.root, pages[k].pageId);
      RetentionWrite(env, s, acts, scope.files, path, pages[k].bytes);
      RecordStays(env, scope.files, o, path, pages[k].bytes);
      ghost var before := scope.files;
      ok := WriteRecord(scope, path, pages[k].bytes);
      acts := if scope.files == before then acts else acts + [Write(path, pages[k].bytes)];
      if !ok {
        return;
      }
    }
    assert pages[..|pages|] == pages;
  }

  /** Pages and descriptor are stored as given. */
  ghost predicate MetadataStored(files: Files, o: Owner, c: Closure) {
    var mine, path := Mine(files, o.root), o.root + [RETENTION_DIR, "descriptor.msd2"];
    PagesStored(mine, o.root, c.pages) && path in mine && mine[path] == c.descriptorBytes
  }

  /** The retained metadata is all in place. */
  ghost predicate Retained(env: Env, files: Files, o: Owner, c: Closure) {
    MetadataStored(files, o, c) && UseOf(env, files, o) == Some(RetainedUse(env, o, c))
  }

  lemma DescriptorWritten(files: Files, o: Owner, c: Closure)
    requires |o.root| == 3 && o.root[1] == "owners" && PagesStored(Mine(files, o.root), o.root, c.pages)
    ensures MetadataStored(files[o.root + [RETENTION_DIR, "descriptor.msd2"] := c.descriptorBytes], o, c)
  {
    var d := o.root + [RETENTION_DIR, "descriptor.msd2"];
    RetentionFile(o.root, "");
    MineWrite(files, o.root, d, c.descriptorBytes);
    forall p | p in c.pages ensures PagePath(o.root, p.pageId) != d {
      PathsDiffer(o.root, p.pageId);
    }
  }

  lemma RecordWritten(env: Env, files: Files, o: Owner, c: Closure)
    requires UsesRoundTrip(env) && |o.root| == 3 && o.root[1] == "owners" && MetadataStored(files, o, c)
    ensures Retained(env, files[UsePath(o.root) := env.encodeUse(RetainedUse(env, o, c))], o, c)
  {
    var u, data := UsePath(o.root), env.encodeUse(RetainedUse(env, o, c));
    OwnerFile(o.root, USE_RECORD);
    PathsDiffer(o.root, "");
    MineWrite(files, o.root, u, data);
    RecordRead(env, files, o, RetainedUse(env, o, c));
    forall p | p in c.pages ensures PagePath(o.root, p.pageId) != u {
      PathsDiffer(o.root, p.pageId);
    }
  }

  /** What else a collector asks of an owner with a retained closure. */
  ghost predicate Provable(env: Env, files: Files, o: Owner, c: Closure) {
    IsDigest(env.sha(c.descriptorBytes)) && WellNamed(c) && o.root + [".hydrate.lock"] in Mine(files, o.root) &&
    PinOk(env, Mine(files, o.root), o, c)
  }

  /** What is retained is what the collector proves. */
  lemma RetainedStands(env: Env, files: Files, o: Owner, c: Closure)
    requires Validated(env, c) && Fits(o, c) && Retained(env, files, o, c) && Provable(env, files, o, c)
    ensures Stands(env, files, o) == Some(Protecting(c))
  {
    var mine := Mine(files, o.root);
    ValidatedPages(env, c);
    RetainedRead(mine, o.root, c.pages);
    SameBytesSameClosure(env.validator, c.descriptorBytes, PageMap(c.pages), c);
    assert ProvenClosure(env, mine, o, RetainedUse(env, o, c)) == Some(c);
  }

  /** Compare every stored dependency with the proof just made; a record alone
      never skips that. */
  method StoredMatches(mine: Files, o: Owner, descriptor: Bytes, pages: seq<StoredPage>) returns (same: bool)
    requires PagesOk(pages)
    ensures same <==>
              PagesStored(mine, o.root, pages) && o.root + [RETENTION_DIR, "descriptor.msd2"] in mine &&
              mine[o.root + [RETENTION_DIR, "descriptor.msd2"]] == descriptor
  {
    var path := o.root + [RETENTION_DIR, "descriptor.msd2"];
    same := path in mine && mine[path] == descriptor;
    for k := 0 to |pages|
      invariant same <==> PagesStored(mine, o.root, pages[..k]) && path in mine && mine[path] == descriptor
    {
      SplitAt(pages, k);
      assert pages[k] in pages;
      var page := PagePath(o.root, pages[k].pageId);
      if page !in mine || mine[page] != pages[k].bytes {
        same := false;
      }
    }
    assert pages[..|pages|] == pages;
  }

  /** A validated closure, as its constructors produce it. */
  ghost predicate Validated(env: Env, c: Closure) {
    Reopens(env.validator, c.descriptorBytes, PageMap(c.pages), c)
  }

  lemma ValidatedPages(env: Env, c: Closure)
    requires Validated(env, c)
    ensures PagesOk(c.pages)
  {
    PagesAreDigests(env.validator, c.descriptorBytes, PageMap(c.pages), c);
    StrictIsDistinct(c.pages);
    forall i, j | 0 <= i < j < |c.pages| ensures c.pages[i].pageId != c.pages[j].pageId {
      assert PageKey(c.pages[i]) != PageKey(c.pages[j]);
    }
  }

  /** The steps of retaining a root: ordinary writes, and the record last if at all. */
  ghost predicate RetainSteps(acts: seq<Action>, o: Owner, c: Closure) {
    RetentionWrites(acts, o.root) || (acts != [] && RetentionWrites(acts[..|acts| - 1], o.root) && acts[|acts| - 1] == Retain(o, c))
  }

  /** Record an owner's root before its bodies are published: pages, descriptor,
      and the use record last. A failure leaves the use as it was or as asked;
      success is what the collector proves the closure from. */
  method RetainRoot(scope: ManagedScope, env: Env, o: Owner, c: Closure, ghost s: State) returns (r: Result<()>, ghost acts: seq<Action>)
    requires UsesRoundTrip(env) && Holds(s, scope, o) && Validated(env, c)
    modifies scope`files
    ensures Did(env, s, acts, scope.files) && RetainSteps(acts, o, c)
    ensures r.Ok? ==> Fits(o, c) && Retained(env, scope.files, o, c)
    ensures r.Ok? && Provable(env, scope.files, o, c) ==> Stands(env, scope.files, o) == Some(Protecting(c))
    ensures RetainsOrKeeps(env, old(scope.files), scope.files, o, c)
    ensures !Fits(o, c) ==> r.Err? && acts == []
  {
    acts := [];
    ValidatedPages(env, c);
    var current := UseOf(env, scope.files, o);
    if !Fits(o, c) || current.None? || current.value.retired {
      r := Err(IntegrityError);
      return;
    }
    var limited := *;
    if limited {
      r := Err(LimitExceeded);
      return;
    }
    if current.value == RetainedUse(env, o, c) {
      var same := StoredMatches(Mine(scope.files, o.root), o, c.descriptorBytes, c.pages);
      if same {
        RetainStands(env, scope.files, o, c);
        r := Ok(());
        return;
      }
    }
    r, acts := WriteRetention(scope, env, o, c, s);
    if r.Ok? {
      RetainStands(env, scope.files, o, c);
    }
  }

  /** The use is the one asked for, or still the old one. */
  ghost predicate RetainsOrKeeps(env: Env, before: Files, after: Files, o: Owner, c: Closure) {
    UseOf(env, after, o) == UseOf(env, before, o) || UseOf(env, after, o) == Some(RetainedUse(env, o, c))
  }

  method WriteMetadata(scope: ManagedScope, env: Env, o: Owner, c: Closure, ghost s: State) returns (ok: bool, ghost acts: seq<Action>)
    requires Holds(s, scope, o) && PagesOk(c.pages)
    modifies scope`files
    ensures Did(env, s, acts, scope.files) && RetentionWrites(acts, o.root)
    ensures UseOf(env, scope.files, o) == UseOf(env, old(scope.files), o)
    ensures ok ==> MetadataStored(scope.files, o, c)
  {
    ok, acts := WritePages(scope, env, o, c.pages, s);
    if !ok {
      return;
    }
    var path := o.root + [RETENTION_DIR, "descriptor.msd2"];
    DescriptorWritten(scope.files, o, c);
    RetentionWrite(env, s, acts, scope.files, path, c.descriptorBytes);
    RecordStays(env, scope.files, o, path, c.descriptorBytes);
    ghost var before := scope.files;
    ok := WriteRecord(scope, path, c.descriptorBytes);
    acts := if scope.files == before then acts else acts + [Write(path, c.descriptorBytes)];
  }

  method WriteRetention(scope: ManagedScope, env: Env, o: Owner, c: Closure, ghost s: State) returns (r: Result<()>, ghost acts: seq<Action>)
    requires UsesRoundTrip(env) && Holds(s, scope, o) && PagesOk(c.pages) && MayRetain(env, scope.files, o, c)
    modifies scope`files
    ensures Did(env, s, acts, scope.files) && RetainSteps(acts, o, c)
    ensures r.Ok? ==> Retained(env, scope.files, o, c)
    ensures RetainsOrKeeps(env, old(scope.files), scope.files, o, c)
  {
    var ok;
    ok, acts := WriteMetadata(scope, env, o, c, s);
    if !ok {
      r := Err(Internal);
      return;
    }
    ghost var stored := scope.files;
    RecordWritten(env, stored, o, c);
    ReachesMore(env, s, acts, s.(files := stored), Retain(o, c));
    ok := WriteRecord(scope, UsePath(o.root), env.encodeUse(RetainedUse(env, o, c)));
    LastStep(acts, o, c);
    acts := if scope.files == stored then acts else acts + [Retain(o, c)];
    r := if ok then Ok(()) else Err(Internal);
  }

  lemma LastStep(acts: seq<Action>, o: Owner, c: Closure)
    requires RetentionWrites(acts, o.root)
    ensures RetainSteps(acts + [Retain(o, c)], o, c)
  {
    assert (acts + [Retain(o, c)])[..|acts|] == acts;
  }

  lemma RetainStands(env: Env, files: Files, o: Owner, c: Closure)
    requires Validated(env, c) && Fits(o, c) && Retained(env, files, o, c)
    ensures Provable(env, files, o, c) ==> Stands(env, files, o) == Some(Protecting(c))
  {
    if Provable(env, files, o, c) {
      RetainedStands(env, files, o, c);
    }
  }
}
