/** Owners, writers and collectors interleaved over one scope: what no run of their
    steps can delete, and that the collector's own operation is such steps. */
module CacheRuns {
  import opened Base
  import opened CacheLayout
  import opened CacheProof
  import opened CachePlan
  import opened CacheSteps
  import opened CacheSweep
  import opened CacheOwners
  import ClosureTheorems
  import CacheLedger

  /** A collection in progress: the files are those it proved, less the deletions
      made so far, since nothing else could move. */
  ghost predicate InProgress(env: Env, s: State) {
    s.collector.Deleting? && s.collector.done <= |s.collector.plan| &&
    Collectable(env, s.collector.start, s.dirs, ContextIn(s)) && PlanOk(env, s.collector.start, ContextIn(s), s.collector.plan) &&
    s.files == After(s.collector.start, s.collector.plan, s.collector.done)
  }

  ghost predicate Inv(env: Env, s: State) {
    (s.collector != Away ==> s.shared == 0) && Discovered(ContextIn(s)) && (s.collector.Deleting? ==> InProgress(env, s))
  }

  /** Any scope nobody is using. */
  ghost predicate Quiet(s: State) {
    s.shared == 0 && s.collector == Away && Discovered(ContextIn(s))
  }

  lemma UnlinkKeeps(env: Env, s: State)
    requires Inv(env, s) && Enabled(env, s, Unlink)
    ensures InProgress(env, Next(env, s, Unlink))
  {
    AfterStep(s.collector.start, s.collector.plan, s.collector.done);
  }

  lemma PlanStarts(env: Env, s: State, plan: seq<Path>)
    requires Inv(env, s) && Enabled(env, s, Plan(plan))
    ensures InProgress(env, Next(env, s, Plan(plan)))
  {
    assert Gone(plan[..0]) == {};
    assert After(s.files, plan, 0) == s.files;
  }

  lemma NextKeeps(env: Env, s: State, a: Action)
    requires Inv(env, s) && Enabled(env, s, a)
    ensures Inv(env, Next(env, s, a))
  {
    match a
    case Unlink => UnlinkKeeps(env, s);
    case Plan(plan) => PlanStarts(env, s, plan);
    case _ =>
  }

  lemma {:induction false} InvAlong(env: Env, s: State, acts: seq<Action>, t: State)
    requires Inv(env, s) && Reaches(env, s, acts, t)
    ensures Inv(env, t)
    decreases |acts|
  {
    if acts != [] {
      NextKeeps(env, s, acts[0]);
      InvAlong(env, Next(env, s, acts[0]), acts[1..], t);
    }
  }

  /** In every state of every run the collector is alone, and carries out a plan made
      for a proven scope. */
  lemma EveryRun(env: Env, first: State, acts: seq<Action>, s: State)
    requires Quiet(first) && Reaches(env, first, acts, s)
    ensures Inv(env, s)
  {
    InvAlong(env, first, acts, s);
  }

  // ------------------------------------------------------------------------- deletions

  /** The owner, as discovery now reports it, does not stand as retired. It may be
      live, its root unknown, its use not registered or its files damaged. */
  ghost predicate NotRetired(env: Env, s: State, o: Owner) {
    exists o' :: o' in s.owners && SameOwner(o, o') && Stands(env, s.files, o') != Some(Retired)
  }

  /** The next deletion is of nothing an owner that is not retired is fixed to. */
  lemma UnlinkSpares(env: Env, s: State, o: Owner, c: Closure, p: Path)
    requires s.collector.Deleting? && s.collector.done < |s.collector.plan|
    requires Addressed(env) && Inv(env, s) && NotRetired(env, s, o) && FixedClosure(env, o, c) && Names(c, p)
    ensures s.collector.plan[s.collector.done] != p
  {
    var x, start, plan, done := ContextIn(s), s.collector.start, s.collector.plan, s.collector.done;
    var o' :| o' in s.owners && SameOwner(o, o') && Stands(env, s.files, o') != Some(Retired);
    Restartable(env, start, s.dirs, x, plan, done);
    assert Stands(env, start, o') == Stands(env, s.files, o');
    PlanSafe(env, start, s.dirs, x, plan, plan[done], o', c);
  }

  /** Only the collector deletes objects. */
  lemma ObjectStays(env: Env, s: State, a: Action, p: Path)
    requires Enabled(env, s, a) && IsObject(p) && p in s.files
    requires a.Unlink? ==> s.collector.plan[s.collector.done] != p
    ensures p in Next(env, s, a).files
  {
  }

  lemma StepSpares(env: Env, s: State, a: Action, o: Owner, c: Closure, p: Path)
    requires Addressed(env) && Inv(env, s) && Enabled(env, s, a) && NotRetired(env, s, o) && FixedClosure(env, o, c) && Names(c, p)
    requires p in s.files
    ensures p in Next(env, s, a).files
  {
    NamesAreHex(c, p);
    if a.Unlink? {
      UnlinkSpares(env, s, o, c, p);
    }
    ObjectStays(env, s, a, p);
  }

  /** The owner does not stand as retired before any of these steps. */
  ghost predicate StaysInUse(env: Env, s: State, acts: seq<Action>, o: Owner)
    decreases |acts|
  {
    acts != [] ==> NotRetired(env, s, o) && StaysInUse(env, Next(env, s, acts[0]), acts[1..], o)
  }

  lemma {:induction false} SparedAlong(env: Env, s: State, acts: seq<Action>, t: State, o: Owner, c: Closure, p: Path)
    requires Addressed(env) && Inv(env, s) && Reaches(env, s, acts, t) && StaysInUse(env, s, acts, o)
    requires FixedClosure(env, o, c) && Names(c, p) && p in s.files
    ensures p in t.files
    decreases |acts|
  {
    if acts != [] {
      NextKeeps(env, s, acts[0]);
      StepSpares(env, s, acts[0], o, c, p);
      SparedAlong(env, Next(env, s, acts[0]), acts[1..], t, o, c, p);
    }
  }

  /** Collector safety over whole runs: whatever is interleaved, a blob or page of an
      owner's fixed closure that is in the cache stays there as long as the owner
      does not stand as retired. */
  lemma KeptWhileStanding(env: Env, first: State, before: seq<Action>, s: State, acts: seq<Action>, t: State, o: Owner, c: Closure, p: Path)
    requires Quiet(first) && Reaches(env, first, before, s) && Reaches(env, s, acts, t)
    requires Addressed(env) && FixedClosure(env, o, c) && Names(c, p) && StaysInUse(env, s, acts, o)
    ensures p in s.files ==> p in t.files
  {
    EveryRun(env, first, before, s);
    if p in s.files {
      SparedAlong(env, s, acts, t, o, c, p);
    }
  }

  // ------------------------------------------------------------------------ use records

  /** The owner's record says that its use is over. */
  ghost predicate Over(env: Env, files: Files, o: Owner) {
    UseOf(env, files, o).Some? && UseOf(env, files, o).value.retired
  }

  lemma UseFromRecord(env: Env, files: Files, files': Files, o: Owner)
    requires |o.root| == 3 && o.root[1] == "owners"
    requires UsePath(o.root) in files' ==> UsePath(o.root) in files && files[UsePath(o.root)] == files'[UsePath(o.root)]
    ensures Over(env, files', o) ==> Over(env, files, o)
  {
    OwnerFile(o.root, USE_RECORD);
  }

  /** Writing some owner's record ends no other use, and only retiring ends its own. */
  lemma RecordStep(env: Env, files: Files, w: Owner, use: WorkspaceUse, o: Owner)
    requires UsesRoundTrip(env) && |o.root| == 3 && o.root[1] == "owners" && |w.root| == 3 && w.root[1] == "owners"
    requires use.revision == 1 && use.binding == w.binding && (use.retired ==> !SameOwner(o, w)) && !Over(env, files, o)
    ensures !Over(env, files[UsePath(w.root) := env.encodeUse(use)], o)
  {
    var files' := files[UsePath(w.root) := env.encodeUse(use)];
    OwnerFile(o.root, USE_RECORD);
    if UsePath(w.root) == UsePath(o.root) {
      assert w.root == UsePath(w.root)[..3] && o.root == UsePath(o.root)[..3];
    } else {
      UseFromRecord(env, files, files', o);
    }
  }

  /** A use ends by being retired, and in no other way: not by registering again, nor
      by a release, nor by anything another owner, a writer or a collector does. */
  lemma OnlyRetireEnds(env: Env, s: State, a: Action, o: Owner)
    requires UsesRoundTrip(env) && Discovered(ContextIn(s)) && Owned(s.owners, o) && Enabled(env, s, a)
    requires !(a.Retire? && SameOwner(o, a.owner)) && !Over(env, s.files, o)
    ensures !Over(env, Next(env, s, a).files, o)
  {
    match a
    case Register(w) => RecordStep(env, s.files, w, UnknownUse(w), o);
    case Retain(w, c) => RecordStep(env, s.files, w, RetainedUse(env, w, c), o);
    case Retire(w) => RecordStep(env, s.files, w, UseOf(env, s.files, w).value.(retired := true), o);
    case _ => UseFromRecord(env, s.files, Next(env, s, a).files, o);
  }

  lemma StaysOwned(env: Env, s: State, a: Action, o: Owner)
    requires Enabled(env, s, a) && Owned(s.owners, o)
    ensures Owned(Next(env, s, a).owners, o)
  {
    if a.Discover? {
      var o' :| o' in s.owners && SameOwner(o, o');
      assert Owned(a.owners, o');
      var o'' :| o'' in a.owners && SameOwner(o', o'');
      assert SameOwner(o, o'');
    }
  }

  lemma NotOverNotRetired(env: Env, s: State, o: Owner)
    requires Owned(s.owners, o) && !Over(env, s.files, o)
    ensures NotRetired(env, s, o)
  {
    var o' :| o' in s.owners && SameOwner(o, o');
    assert UseOf(env, s.files, o') == UseOf(env, s.files, o);
    assert Stands(env, s.files, o') != Some(Retired);
  }

  /** None of the steps retires the owner. */
  ghost predicate NoRetire(acts: seq<Action>, o: Owner) {
    forall a :: a in acts ==> !(a.Retire? && SameOwner(o, a.owner))
  }

  lemma {:induction false} InUseAlong(env: Env, s: State, acts: seq<Action>, t: State, o: Owner)
    requires UsesRoundTrip(env) && Inv(env, s) && Reaches(env, s, acts, t) && NoRetire(acts, o)
    requires Owned(s.owners, o) && !Over(env, s.files, o)
    ensures StaysInUse(env, s, acts, o) && Owned(t.owners, o) && !Over(env, t.files, o)
    decreases |acts|
  {
    if acts != [] {
      var a := acts[0];
      NotOverNotRetired(env, s, o);
      NextKeeps(env, s, a);
      StaysOwned(env, s, a, o);
      OnlyRetireEnds(env, s, a, o);
      InUseAlong(env, Next(env, s, a), acts[1..], t, o);
    }
  }

  /** From the actions alone: a blob or page of an owner's fixed closure is not
      deleted before that owner is retired, its root known or not, and until then the
      owner's use is not over. */
  lemma KeptUntilRetired(env: Env, first: State, before: seq<Action>, s: State, acts: seq<Action>, t: State, o: Owner, c: Closure, p: Path)
    requires Quiet(first) && Reaches(env, first, before, s) && Reaches(env, s, acts, t)
    requires Addressed(env) && UsesRoundTrip(env) && FixedClosure(env, o, c) && Names(c, p)
    requires Owned(s.owners, o) && !Over(env, s.files, o) && NoRetire(acts, o)
    ensures Owned(t.owners, o) && !Over(env, t.files, o)
    ensures p in s.files ==> p in t.files
  {
    EveryRun(env, first, before, s);
    InUseAlong(env, s, acts, t, o);
    KeptWhileStanding(env, first, before, s, acts, t, o, c, p);
  }

  // ------------------------------------------------------------- interference freedom

  lemma RecordNotDisposable(env: Env, files: Files, x: Context, root: Path)
    requires FilesKnown(env, files, x) && |root| == 3 && root[1] == "owners"
    ensures !Disposable(env, files, x, UsePath(root))
  {
    var p := UsePath(root);
    OwnerFile(root, USE_RECORD);
    RecordNotDiscarded(root);
    if Declared(env, files, p) {
      DeclaredNotFinal(env, files, x, p, {root});
    }
  }

  lemma RecordNotDiscarded(root: Path)
    requires |root| == 3
    ensures |UsePath(root)| == 4 && forall r: Path :: !Discarded(r, UsePath(root))
  {
    assert UsePath(root)[3] == USE_RECORD && USE_RECORD !in DISPOSABLE_FILES;
  }

  /** What a plan deletes is never a use record. */
  lemma PlanSparesRecords(env: Env, s: State, root: Path)
    requires s.collector.Deleting? && s.collector.done < |s.collector.plan|
    requires Inv(env, s) && |root| == 3 && root[1] == "owners"
    ensures s.collector.plan[s.collector.done] != UsePath(root)
  {
    RecordNotDisposable(env, s.collector.start, ContextIn(s), root);
    assert s.collector.plan[s.collector.done] in s.collector.plan;
  }

  /** The record is the same, or absent from both. */
  ghost predicate SameRecord(files: Files, files': Files, root: Path) {
    (UsePath(root) in files <==> UsePath(root) in files') && (UsePath(root) in files ==> files[UsePath(root)] == files'[UsePath(root)])
  }

  lemma SameRecordSameUse(env: Env, files: Files, files': Files, o: Owner)
    requires |o.root| == 3 && o.root[1] == "owners" && SameRecord(files, files', o.root)
    ensures UseOf(env, files', o) == UseOf(env, files, o)
  {
    OwnerFile(o.root, USE_RECORD);
  }

  lemma RecordsApart(root: Path, root': Path)
    requires |root| == 3 && |root'| == 3 && root != root'
    ensures UsePath(root) != UsePath(root')
  {
    assert UsePath(root)[..3] == root && UsePath(root')[..3] == root';
  }

  lemma OwnedRoot(s: State, o: Owner)
    requires Discovered(ContextIn(s)) && Owned(s.owners, o)
    ensures |o.root| == 3 && o.root[1] == "owners"
  {
  }

  lemma OthersKeepRecord(env: Env, s: State, a: Action, root: Path)
    requires Inv(env, s) && Enabled(env, s, a) && |root| == 3 && root[1] == "owners"
    requires !((a.Register? || a.Retain? || a.Retire?) && a.owner.root == root)
    ensures SameRecord(s.files, NextFiles(env, s, a), root)
  {
    match a
    case Unlink => PlanSparesRecords(env, s, root);
    case Register(w) => RecordsApart(w.root, root);
    case Retain(w, _) => RecordsApart(w.root, root);
    case Retire(w) => RecordsApart(w.root, root);
    case _ =>
  }

  /** Between two steps of an owner's operation, under the owner's own lock, whatever
      others do leaves its record alone: what the operation has read stays true. */
  lemma OthersKeepUse(env: Env, s: State, a: Action, o: Owner)
    requires Inv(env, s) && Enabled(env, s, a) && Owned(s.owners, o)
    requires !((a.Register? || a.Retain? || a.Retire?) && a.owner.root == o.root)
    ensures UseOf(env, Next(env, s, a).files, o) == UseOf(env, s.files, o)
  {
    OwnedRoot(s, o);
    OthersKeepRecord(env, s, a, o.root);
    SameRecordSameUse(env, s.files, NextFiles(env, s, a), o);
  }

  // ------------------------------------------------------------------ the real collector

  function Unlinks(n: nat): (acts: seq<Action>)
    ensures |acts| == n
  {
    seq(n, i => Unlink)
  }

  /** The steps of a collection that made `done` deletions of its plan. */
  function CollectActs(plan: seq<Path>, done: nat): seq<Action> {
    if plan == [] then [Lock, Unlock] else [Lock, Plan(plan)] + Unlinks(done) + [Unlock]
  }

  ghost function DeletingState(s: State, plan: seq<Path>, done: nat): State
    requires done <= |plan|
  {
    s.(files := After(s.files, plan, done), collector := Deleting(s.files, plan, done))
  }

  lemma UnlinkOne(env: Env, s: State, plan: seq<Path>, k: nat)
    requires k < |plan| && Distinct(plan) && AllIn(s.files, plan)
    ensures Enabled(env, DeletingState(s, plan, k), Unlink)
    ensures Next(env, DeletingState(s, plan, k), Unlink) == DeletingState(s, plan, k + 1)
  {
    AfterStep(s.files, plan, k);
  }

  lemma {:induction false} UnlinksReach(env: Env, s: State, plan: seq<Path>, done: nat)
    requires done <= |plan| && Distinct(plan) && AllIn(s.files, plan)
    ensures Reaches(env, DeletingState(s, plan, 0), Unlinks(done), DeletingState(s, plan, done))
  {
    if done > 0 {
      UnlinksReach(env, s, plan, done - 1);
      UnlinkOne(env, s, plan, done - 1);
      ReachesMore(env, DeletingState(s, plan, 0), Unlinks(done - 1), DeletingState(s, plan, done - 1), Unlink);
      assert Unlinks(done) == Unlinks(done - 1) + [Unlink];
    }
  }

  lemma LockReaches(env: Env, s: State)
    requires Quiet(s)
    ensures Reaches(env, s, [Lock], s.(collector := Proving)) && Reaches(env, s, [Lock, Unlock], s)
  {
    ReachesOne(env, s, Lock);
    ReachesMore(env, s, [Lock], s.(collector := Proving), Unlock);
    assert [Lock] + [Unlock] == [Lock, Unlock];
  }

  lemma PlanReaches(env: Env, s: State, plan: seq<Path>)
    requires Quiet(s) && Collectable(env, s.files, s.dirs, ContextIn(s)) && PlanOk(env, s.files, ContextIn(s), plan)
    ensures Reaches(env, s, [Lock, Plan(plan)], DeletingState(s, plan, 0))
  {
    LockReaches(env, s);
    assert After(s.files, plan, 0) == s.files;
    ReachesMore(env, s, [Lock], s.(collector := Proving), Plan(plan));
    assert [Lock] + [Plan(plan)] == [Lock, Plan(plan)];
  }

  /** What a collection does, however it ends, is a run of these steps. */
  lemma CollectReaches(env: Env, s: State, now: Files, l: CacheLedger.Limits, plan: seq<Path>, done: nat)
    requires Quiet(s) && Swept(env, s.files, now, s.dirs, ContextIn(s), l, plan, done)
    ensures Reaches(env, s, CollectActs(plan, done), s.(files := now))
  {
    if plan == [] {
      LockReaches(env, s);
      assert now == s.files;
    } else {
      PlanReaches(env, s, plan);
      UnlinksReach(env, s, plan, done);
      ReachesThen(env, s, [Lock, Plan(plan)], DeletingState(s, plan, 0), Unlinks(done), DeletingState(s, plan, done));
      ReachesMore(env, s, [Lock, Plan(plan)] + Unlinks(done), DeletingState(s, plan, done), Unlock);
    }
  }

  /** A collection, tied to the steps it is made of. */
  method CollectScope(scope: ManagedScope, env: Env, owners: seq<Owner>, ghost s: State) returns (r: Result<Report>, ghost acts: seq<Action>)
    requires CacheLedger.LimitsOk(scope.limits) && ClosureTheorems.DecodesPlainNames(env.validator.pages)
    requires Quiet(s) && s.files == scope.files && s.dirs == scope.dirs && s.owners == owners && s.maxBytes == scope.limits.maxBytes
    modifies scope`files, scope`ledger
    ensures Did(env, s, acts, scope.files) && exists plan, done :: acts == CollectActs(plan, done)
  {
    ghost var plan, done;
    r, plan, done := scope.Collect(env, owners);
    CollectReaches(env, s, scope.files, scope.limits, plan, done);
    acts := CollectActs(plan, done);
  }
}
