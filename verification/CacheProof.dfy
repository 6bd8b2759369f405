/** What a collector must be able to prove of a scope before it deletes anything:
    every owner's use, every writer's declaration, every name. */
module CacheProof {
  import opened Base
  import opened CacheLayout
  import opened ClosureReopen

  const ENTRY_CHARGE: nat := 4096
  const CONTROL_BYTES: nat := 16 * 1024

  type Files = map<Path, Bytes>

  datatype Binding = Binding(workspaceId: string, snapshotId: string, scopeName: string)

  /** An owner's use of the cache: unknown root, retained root, or retired. */
  datatype WorkspaceUse = WorkspaceUse(revision: nat, binding: Binding, retired: bool, descriptorDigest: Option<Digest>, pages: seq<PageDependency>)

  datatype WriterIntent = WriterIntent(revision: nat, operationId: string, relativeDirectory: string, finalName: string, temporaryName: string, maximumBytes: nat)

  datatype HydrationIntent = HydrationIntent(revision: nat, operationId: string, binding: Binding, maximumBytes: nat)

  /** An owner as owner discovery reports it. */
  datatype Owner = Owner(binding: Binding, root: Path, released: bool, finished: bool)

  /** JSON coding, SHA-256, the closure validator's codecs, and the audit of a
      pinned owner's own metadata files. */
  datatype Env = Env(
    encodeUse: WorkspaceUse -> Bytes,
    use: Bytes -> Option<WorkspaceUse>,
    writer: Bytes -> Option<WriterIntent>,
    hydration: Bytes -> Option<HydrationIntent>,
    sha: Bytes -> Digest,
    validator: Validator,
    pinAudit: (Closure, Files) -> bool)

  function HexOf(digest: Digest): string
    requires IsDigest(digest)
  {
    digest[7..]
  }

  /** Names, below `blobs` and `pages`, of what a closure consists of. */
  function BlobNames(c: Closure): set<string> {
    set f | f in c.files && IsDigest(f.contentDigest) :: HexOf(f.contentDigest)
  }

  function PageNames(c: Closure): set<string> {
    set p | p in c.pages && IsDigest(p.pageId) :: HexOf(p.pageId)
  }

  /** Every content digest of the closure names a blob. */
  predicate WellNamed(c: Closure) {
    forall f :: f in c.files ==> IsDigest(f.contentDigest)
  }

  // ------------------------------------------------------------------------- owners
  // What an owner proves, it proves from the final files below its own root.

  function Mine(files: Files, root: Path): Files {
    map p | p in files && Under(root, p) && ValidFinalFile(p, {root}) :: files[p]
  }

  function UseFor(env: Env, mine: Files, o: Owner): Option<WorkspaceUse> {
    var path := o.root + [USE_RECORD];
    if path !in mine then None
    else
      var use := env.use(mine[path]);
      if use.Some? && use.value.revision == 1 && use.value.binding == o.binding then use else None
  }

  function PagePath(root: Path, pageId: Digest): Path
    requires IsDigest(pageId)
  {
    root + [RETENTION_DIR, "pages", HexOf(pageId)]
  }

  predicate PageStored(mine: Files, root: Path, d: PageDependency) {
    IsDigest(d.pageId) && PagePath(root, d.pageId) in mine && |mine[PagePath(root, d.pageId)]| == d.size
  }

  /** The retained pages, each stored with its size and listed once. */
  function RetainedPages(mine: Files, root: Path, deps: seq<PageDependency>): Option<map<Digest, Bytes>> {
    if deps == [] then Some(map[])
    else
      var front, d := RetainedPages(mine, root, deps[..|deps| - 1]), deps[|deps| - 1];
      if front.None? || !PageStored(mine, root, d) || d.pageId in front.value then None
      else Some(front.value[d.pageId := mine[PagePath(root, d.pageId)]])
  }

  predicate PinOk(env: Env, mine: Files, o: Owner, c: Closure) {
    var pin, complete := o.root + ["pin.json"] in mine, o.root + ["DURABLE_COMPLETE"] in mine;
    (complete ==> pin) && (pin ==> env.pinAudit(c, mine))
  }

  predicate Fits(o: Owner, c: Closure) {
    c.snapshotId == o.binding.snapshotId && c.scope == o.binding.scopeName
  }

  /** The closure that a live use proves from its retained metadata alone. */
  ghost function ProvenClosure(env: Env, mine: Files, o: Owner, use: WorkspaceUse): Option<Closure> {
    var descriptor := o.root + [RETENTION_DIR, "descriptor.msd2"];
    if use.descriptorDigest.None? || !IsDigest(use.descriptorDigest.value) || descriptor !in mine ||
       env.sha(mine[descriptor]) != use.descriptorDigest.value then None
    else
      var pages := RetainedPages(mine, o.root, use.pages);
      if pages.None? then None
      else
        var c := Reopened(env.validator, mine[descriptor], pages.value);
        if c.Some? && WellNamed(c.value) && Fits(o, c.value) && PinOk(env, mine, o, c.value) then c else None
  }

  /** A retired use carries no guarantee any more. */
  predicate RetiredOk(mine: Files, o: Owner) {
    o.released && o.finished && o.root + ["pin.json"] !in mine && o.root + ["DURABLE_COMPLETE"] !in mine
  }

  /** What an owner's files come to: a retired use, or a live one with its
      closure; nothing if the use is unknown or inconsistent. */
  datatype Standing = Retired | Protecting(closure: Closure)

  ghost function StandingOf(env: Env, mine: Files, o: Owner): Option<Standing> {
    if o.root + [".hydrate.lock"] !in mine then None
    else
      var use := UseFor(env, mine, o);
      if use.None? then None
      else if use.value.retired then if RetiredOk(mine, o) then Some(Retired) else None
      else
        var c := ProvenClosure(env, mine, o, use.value);
        if c.None? then None else Some(Protecting(c.value))
  }

  /** The owner's standing in a scope. */
  ghost function Stands(env: Env, files: Files, o: Owner): Option<Standing> {
    StandingOf(env, Mine(files, o.root), o)
  }

  // ------------------------------------------------------------------- declarations

  predicate IntentPath(p: Path) {
    |p| == 2 && p[0] == INTENTS && !RawControlTemporary(p)
  }

  function RelativeParts(s: string): Path {
    if s == "" then [] else Split(s)
  }

  predicate PlainPart(part: string) {
    part != "" && part != "." && part != ".." && '\\' !in part && '\0' !in part
  }

  function TargetOf(w: WriterIntent): Path {
    RelativeParts(w.relativeDirectory) + [w.finalName]
  }

  function TempOf(w: WriterIntent): Path {
    RelativeParts(w.relativeDirectory) + [w.temporaryName]
  }

  /** The writer's own declaration is well formed and names a known location. */
  predicate WriterOk(w: WriterIntent, id: string, maxBytes: nat, roots: set<Path>) {
    w.revision == 1 && w.operationId == id && w.maximumBytes <= maxBytes && w.temporaryName == TemporaryName(w.finalName, id) &&
    (forall part :: part in RelativeParts(w.relativeDirectory) ==> PlainPart(part)) &&
    ValidChild(w.finalName) && ValidChild(w.temporaryName) && ValidFinalFile(TargetOf(w), roots)
  }

  predicate HydrationOk(h: HydrationIntent, id: string, maxBytes: nat, bindings: set<Binding>) {
    h.revision == 1 && h.operationId == id && h.maximumBytes <= maxBytes && h.binding in bindings
  }

  /** The writer an intent file declares, unless it is a hydration's. */
  function WriterAt(env: Env, files: Files, p: Path): Option<WriterIntent> {
    if p !in files || !IntentPath(p) || StripSuffix(p[1], ".hydrate.json").Some? then None else env.writer(files[p])
  }

  predicate IntentOk(env: Env, files: Files, p: Path, maxBytes: nat, roots: set<Path>, bindings: set<Binding>) {
    p in files && IntentPath(p) && |files[p]| <= CONTROL_BYTES &&
    var hydrate := StripSuffix(p[1], ".hydrate.json");
    if hydrate.Some? then
      CanonicalUuid(hydrate.value) && env.hydration(files[p]).Some? &&
      HydrationOk(env.hydration(files[p]).value, hydrate.value, maxBytes, bindings)
    else
      var id := StripSuffix(p[1], ".json");
      id.Some? && CanonicalUuid(id.value) && WriterAt(env, files, p).Some? &&
      WriterOk(WriterAt(env, files, p).value, id.value, maxBytes, roots) &&
      (TempOf(WriterAt(env, files, p).value) in files ==>
         |files[TempOf(WriterAt(env, files, p).value)]| <= WriterAt(env, files, p).value.maximumBytes)
  }

  /** Some intent still on disk declares this temporary. */
  predicate Declares(env: Env, files: Files, q: Path, temp: Path) {
    WriterAt(env, files, q).Some? && TempOf(WriterAt(env, files, q).value) == temp
  }

  ghost predicate Declared(env: Env, files: Files, temp: Path) {
    exists q :: q in files && Declares(env, files, q, temp)
  }

  // ------------------------------------------------------------------ a known scope

  datatype Context = Context(owners: seq<Owner>, roots: set<Path>, bindings: set<Binding>, maxBytes: nat)

  function ContextOf(owners: seq<Owner>, maxBytes: nat): Context {
    Context(owners, set o | o in owners :: o.root, set o | o in owners :: o.binding, maxBytes)
  }

  ghost predicate FileKnown(env: Env, files: Files, x: Context, p: Path)
    requires p in files
  {
    if RawControlTemporary(p) then |files[p]| <= CONTROL_BYTES
    else if |p| == 2 && p[0] == INTENTS then IntentOk(env, files, p, x.maxBytes, x.roots, x.bindings)
    else Declared(env, files, p) || ValidFinalFile(p, x.roots)
  }

  /** Owner discovery reports roots of the fixed layout. */
  predicate Discovered(x: Context) {
    forall o :: o in x.owners ==> |o.root| == 3 && o.root[1] == "owners"
  }

  ghost predicate OwnersKnown(env: Env, files: Files, x: Context) {
    forall o :: o in x.owners ==> Stands(env, files, o).Some?
  }

  ghost predicate FilesKnown(env: Env, files: Files, x: Context) {
    forall p :: p in files ==> FileKnown(env, files, x, p)
  }

  predicate DirsKnown(dirs: set<Path>, x: Context) {
    forall d :: d in dirs ==> ValidDirectory(d, x.roots)
  }

  /** Everything a collection demands of a scope before its first deletion. */
  ghost predicate Collectable(env: Env, files: Files, dirs: set<Path>, x: Context) {
    OwnersKnown(env, files, x) && DirsKnown(dirs, x) && FilesKnown(env, files, x)
  }

  // -------------------------------------------------------------- what is disposable

  predicate Protects(s: Option<Standing>, p: Path) {
    s.Some? && s.value.Protecting? && |p| == 2 &&
    ((p[0] == "blobs" && p[1] in BlobNames(s.value.closure)) || (p[0] == "pages" && p[1] in PageNames(s.value.closure)))
  }

  /** A blob or page no live owner's closure names. */
  ghost predicate Stale(env: Env, files: Files, x: Context, p: Path) {
    |p| == 2 && (p[0] == "blobs" || p[0] == "pages") && CanonicalHex(p[1]) &&
    forall o :: o in x.owners ==> !Protects(Stands(env, files, o), p)
  }

  /** Metadata below a retired owner's root; its use record stays. */
  predicate Discarded(root: Path, p: Path) {
    Under(root, p) && |root| == 3 &&
    (if |p| == 4 then p[3] in DISPOSABLE_FILES else p[3] == "metadata" || p[3] == RETENTION_DIR)
  }

  ghost predicate RetiredMetadata(env: Env, files: Files, x: Context, p: Path) {
    exists o :: o in x.owners && Stands(env, files, o) == Some(Retired) && Discarded(o.root, p)
  }

  ghost predicate Disposable(env: Env, files: Files, x: Context, p: Path) {
    RawControlTemporary(p) || IntentPath(p) || Stale(env, files, x, p) || RetiredMetadata(env, files, x, p) || Declared(env, files, p)
  }

  // ---------------------------------------------------- deletions keep the scope known

  /** Whoever's it is, the record at this root says the use is over. */
  ghost predicate RecordRetired(env: Env, mine: Files, root: Path) {
    var path := root + [USE_RECORD];
    path in mine && env.use(mine[path]).Some? && env.use(mine[path]).value.retired
  }

  lemma RetiredByRecord(env: Env, mine: Files, o: Owner)
    requires StandingOf(env, mine, o).Some?
    ensures StandingOf(env, mine, o) == Some(Retired) <==> RecordRetired(env, mine, o.root)
  {
  }

  /** Two owners at one root have the same use. */
  lemma SameRoot(env: Env, files: Files, o: Owner, o': Owner)
    requires o.root == o'.root && Stands(env, files, o).Some? && Stands(env, files, o').Some?
    ensures Stands(env, files, o) == Some(Retired) <==> Stands(env, files, o') == Some(Retired)
  {
    RetiredByRecord(env, Mine(files, o.root), o);
    RetiredByRecord(env, Mine(files, o'.root), o');
  }
}
