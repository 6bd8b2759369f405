/** Deletion plans: what may be removed, in which order, and why any prefix of a
    plan leaves a scope the next collection can work with. */
module CachePlan {
  import opened Base
  import opened CacheLayout
  import opened CacheProof
  import opened ClosureReopen

  /** An intent goes only after the temporary it declares. */
  ghost predicate TidyAt(env: Env, files: Files, before: seq<Path>, q: Path) {
    WriterAt(env, files, q).Some? && TempOf(WriterAt(env, files, q).value) in files ==> TempOf(WriterAt(env, files, q).value) in before
  }

  ghost predicate Tidy(env: Env, files: Files, plan: seq<Path>) {
    forall i :: 0 <= i < |plan| ==> TidyAt(env, files, plan[..i], plan[i])
  }

  ghost predicate Distinct(plan: seq<Path>) {
    forall i, j :: 0 <= i < j < |plan| ==> plan[i] != plan[j]
  }

  ghost predicate AllDisposable(env: Env, files: Files, x: Context, plan: seq<Path>) {
    forall p :: p in plan ==> p in files && Disposable(env, files, x, p)
  }

  /** What a collector may carry out, one deletion after the other. */
  ghost predicate PlanOk(env: Env, files: Files, x: Context, plan: seq<Path>) {
    Distinct(plan) && AllDisposable(env, files, x, plan) && Tidy(env, files, plan)
  }

  function Gone(plan: seq<Path>): set<Path> {
    set p | p in plan
  }

  // ------------------------------------------------------------- owners keep standing

  lemma DeclaredNotFinal(env: Env, files: Files, x: Context, p: Path, owners: set<Path>)
    requires FilesKnown(env, files, x) && Declared(env, files, p)
    ensures !ValidFinalFile(p, owners)
  {
    var q :| q in files && Declares(env, files, q, p);
    assert FileKnown(env, files, x, q);
    var w := WriterAt(env, files, q).value;
    TempNotFinal(RelativeParts(w.relativeDirectory), w.finalName, StripSuffix(q[1], ".json").value, owners);
  }

  /** Of an owner's own files only a retired owner's metadata is disposable. */
  lemma OnlyRetired(env: Env, files: Files, x: Context, p: Path, o: Owner)
    requires Discovered(x) && OwnersKnown(env, files, x) && FilesKnown(env, files, x)
    requires o in x.owners && Disposable(env, files, x, p) && Under(o.root, p) && ValidFinalFile(p, {o.root})
    ensures Stands(env, files, o) == Some(Retired) && Discarded(o.root, p)
  {
    if Declared(env, files, p) {
      DeclaredNotFinal(env, files, x, p, {o.root});
    }
    assert |p| > 3;
    var o' :| o' in x.owners && Stands(env, files, o') == Some(Retired) && Discarded(o'.root, p);
    assert o.root == p[..3] && o'.root == p[..3];
    SameRoot(env, files, o, o');
  }

  /** Of a live owner's files nothing is disposable. */
  lemma LiveFilesKept(env: Env, files: Files, x: Context, gone: set<Path>, o: Owner)
    requires Discovered(x) && OwnersKnown(env, files, x) && FilesKnown(env, files, x) && o in x.owners
    requires (forall p :: p in gone ==> Disposable(env, files, x, p)) && Stands(env, files, o) != Some(Retired)
    ensures Mine(files - gone, o.root) == Mine(files, o.root)
  {
    forall p | p in gone ensures !Own(o.root, p) {
      if Own(o.root, p) {
        OnlyRetired(env, files, x, p, o);
      }
    }
    MineKept(files, gone, o.root);
  }

  /** A final file below the root. */
  predicate Own(root: Path, p: Path) {
    Under(root, p) && ValidFinalFile(p, {root})
  }

  lemma MineKept(files: Files, gone: set<Path>, root: Path)
    requires forall p :: p in gone ==> !Own(root, p)
    ensures Mine(files - gone, root) == Mine(files, root)
  {
    forall p | p in files && Under(root, p) && ValidFinalFile(p, {root}) ensures p !in gone {
      assert Own(root, p);
    }
  }

  lemma RetiredFilesKept(env: Env, files: Files, x: Context, gone: set<Path>, o: Owner)
    requires Discovered(x) && OwnersKnown(env, files, x) && FilesKnown(env, files, x) && o in x.owners
    requires (forall p :: p in gone ==> Disposable(env, files, x, p)) && Stands(env, files, o) == Some(Retired)
    ensures Stands(env, files - gone, o) == Some(Retired)
  {
    var mine, mine' := Mine(files, o.root), Mine(files - gone, o.root);
    forall p | p in mine && p !in mine' ensures Discarded(o.root, p) {
      OnlyRetired(env, files, x, p, o);
    }
    RetiredKept(env, mine, mine', o);
  }

  /** After any disposable files are gone, every owner stands as before. */
  lemma StandingKept(env: Env, files: Files, x: Context, gone: set<Path>, o: Owner)
    requires Discovered(x) && OwnersKnown(env, files, x) && FilesKnown(env, files, x) && o in x.owners
    requires forall p :: p in gone ==> Disposable(env, files, x, p)
    ensures Stands(env, files - gone, o) == Stands(env, files, o)
  {
    if Stands(env, files, o) == Some(Retired) {
      RetiredFilesKept(env, files, x, gone, o);
    } else {
      LiveFilesKept(env, files, x, gone, o);
    }
  }

  lemma RetiredKept(env: Env, mine: Files, mine': Files, o: Owner)
    requires |o.root| == 3 && StandingOf(env, mine, o) == Some(Retired)
    requires forall p :: p in mine' ==> p in mine && mine'[p] == mine[p]
    requires forall p :: p in mine && p !in mine' ==> Discarded(o.root, p)
    ensures StandingOf(env, mine', o) == Some(Retired)
  {
    assert !Discarded(o.root, o.root + [USE_RECORD]) && !Discarded(o.root, o.root + [".hydrate.lock"]) by {
      assert (o.root + [USE_RECORD])[3] == USE_RECORD && (o.root + [".hydrate.lock"])[3] == ".hydrate.lock";
    }
    assert o.root + [USE_RECORD] in mine' && o.root + [".hydrate.lock"] in mine';
  }

  // ------------------------------------------------------------------ names stay known

  lemma IntentKept(env: Env, files: Files, x: Context, gone: set<Path>, p: Path)
    requires p in files && p !in gone && IntentOk(env, files, p, x.maxBytes, x.roots, x.bindings)
    ensures IntentOk(env, files - gone, p, x.maxBytes, x.roots, x.bindings)
  {
    assert (files - gone)[p] == files[p];
    assert WriterAt(env, files - gone, p) == WriterAt(env, files, p);
  }

  lemma TidyMember(env: Env, files: Files, plan: seq<Path>, q: Path)
    requires Tidy(env, files, plan) && q in plan
    ensures TidyAt(env, files, plan, q)
  {
    var i :| 0 <= i < |plan| && plan[i] == q;
    assert TidyAt(env, files, plan[..i], plan[i]);
  }

  /** A surviving temporary keeps its declaration. */
  lemma DeclarationKept(env: Env, files: Files, plan: seq<Path>, p: Path)
    requires Tidy(env, files, plan) && p in files && p !in Gone(plan) && Declared(env, files, p)
    ensures Declared(env, files - Gone(plan), p)
  {
    var q :| q in files && Declares(env, files, q, p);
    if q in plan {
      TidyMember(env, files, plan, q);
    }
    assert WriterAt(env, files - Gone(plan), q) == WriterAt(env, files, q);
    assert Declares(env, files - Gone(plan), q, p);
  }

  lemma FileStaysKnown(env: Env, files: Files, x: Context, plan: seq<Path>, p: Path)
    requires Tidy(env, files, plan) && p in files && p !in Gone(plan) && FileKnown(env, files, x, p)
    ensures FileKnown(env, files - Gone(plan), x, p)
  {
    if RawControlTemporary(p) {
    } else if |p| == 2 && p[0] == INTENTS {
      IntentKept(env, files, x, Gone(plan), p);
    } else if Declared(env, files, p) {
      DeclarationKept(env, files, plan, p);
    }
  }

  lemma PrefixTidy(env: Env, files: Files, plan: seq<Path>, k: nat)
    requires Tidy(env, files, plan) && k <= |plan|
    ensures Tidy(env, files, plan[..k])
  {
    forall i | 0 <= i < k ensures TidyAt(env, files, plan[..k][..i], plan[..k][i]) {
      assert plan[..k][..i] == plan[..i] && TidyAt(env, files, plan[..i], plan[i]);
    }
  }

  /** Restartable collection: after any prefix of the plan, what remains still
      passes every check, and every owner stands as before. */
  lemma Restartable(env: Env, files: Files, dirs: set<Path>, x: Context, plan: seq<Path>, k: nat)
    requires Discovered(x) && Collectable(env, files, dirs, x) && PlanOk(env, files, x, plan) && k <= |plan|
    ensures Collectable(env, files - Gone(plan[..k]), dirs, x)
    ensures forall o :: o in x.owners ==> Stands(env, files - Gone(plan[..k]), o) == Stands(env, files, o)
  {
    var gone := Gone(plan[..k]);
    forall p | p in gone ensures Disposable(env, files, x, p) {
      assert p in plan;
    }
    forall o | o in x.owners ensures Stands(env, files - gone, o) == Stands(env, files, o) {
      StandingKept(env, files, x, gone, o);
    }
    PrefixTidy(env, files, plan, k);
    forall p | p in files - gone ensures FileKnown(env, files - gone, x, p) {
      FileStaysKnown(env, files, x, plan[..k], p);
    }
  }

  // --------------------------------------------------------------------------- safety

  /** Snapshot ids and page ids are collision free. */
  ghost predicate Addressed(env: Env) {
    CollisionFree(env.validator.snapshotId) && CollisionFree(env.validator.pages.pageId)
  }

  ghost predicate IsSnapshot(env: Env, c: Closure) {
    exists d, ps :: Reopens(env.validator, d, ps, c)
  }

  /** `c` is the closure of the snapshot the owner is bound to. */
  ghost predicate FixedClosure(env: Env, o: Owner, c: Closure) {
    Fits(o, c) && IsSnapshot(env, c)
  }

  /** The name is a blob or page of the closure. */
  predicate Names(c: Closure, p: Path) {
    |p| == 2 && ((p[0] == "blobs" && p[1] in BlobNames(c)) || (p[0] == "pages" && p[1] in PageNames(c)))
  }

  /** What a live owner proves from its retained files is the one closure of the
      snapshot it is bound to. */
  lemma ProvenIsFixed(env: Env, files: Files, o: Owner, c: Closure)
    requires Addressed(env) && FixedClosure(env, o, c) && Stands(env, files, o).Some? && Stands(env, files, o).value.Protecting?
    ensures Stands(env, files, o).value.closure == c
  {
    ProtectsSnapshot(env, files, o);
    var proven := Stands(env, files, o).value.closure;
    var d, ps :| Reopens(env.validator, d, ps, c);
    var d', ps' :| Reopens(env.validator, d', ps', proven);
    OneClosure(env.validator, d, ps, d', ps', c, proven);
  }

  lemma ProtectsSnapshot(env: Env, files: Files, o: Owner)
    requires Stands(env, files, o).Some? && Stands(env, files, o).value.Protecting?
    ensures FixedClosure(env, o, Stands(env, files, o).value.closure)
  {
    var mine := Mine(files, o.root);
    var use := UseFor(env, mine, o).value;
    var pages := RetainedPages(mine, o.root, use.pages).value;
    assert Reopens(env.validator, mine[o.root + [RETENTION_DIR, "descriptor.msd2"]], pages, Stands(env, files, o).value.closure);
  }

  lemma NamesAreHex(c: Closure, p: Path)
    requires Names(c, p)
    ensures CanonicalHex(p[1])
  {
    if p[0] == "blobs" && p[1] in BlobNames(c) {
      var f :| f in c.files && IsDigest(f.contentDigest) && HexOf(f.contentDigest) == p[1];
    } else {
      var page :| page in c.pages && IsDigest(page.pageId) && HexOf(page.pageId) == p[1];
    }
  }

  lemma ObjectsAreFinal(env: Env, files: Files, x: Context, p: Path)
    requires FilesKnown(env, files, x) && |p| == 2 && (p[0] == "blobs" || p[0] == "pages") && CanonicalHex(p[1])
    ensures !RawControlTemporary(p) && !IntentPath(p) && !Declared(env, files, p) && forall root :: !Discarded(root, p)
  {
    assert FileName(p) == p[1] && Parent(p) == [p[0]];
    assert ValidFinalFile(p, {});
    if Declared(env, files, p) {
      DeclaredNotFinal(env, files, x, p, {});
    }
  }

  /** Collector safety: nothing a plan deletes belongs to the fixed closure of an
      owner that is not retired. */
  lemma PlanSafe(env: Env, files: Files, dirs: set<Path>, x: Context, plan: seq<Path>, p: Path, o: Owner, c: Closure)
    requires Addressed(env) && Collectable(env, files, dirs, x) && PlanOk(env, files, x, plan) && p in plan
    requires o in x.owners && Stands(env, files, o) != Some(Retired) && FixedClosure(env, o, c)
    ensures !Names(c, p)
  {
    ProvenIsFixed(env, files, o, c);
    assert Disposable(env, files, x, p);
    assert Names(c, p) ==> Protects(Stands(env, files, o), p);
    if Names(c, p) {
      NamesAreHex(c, p);
      ObjectsAreFinal(env, files, x, p);
    }
  }
}
