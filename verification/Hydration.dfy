/** One hydration from admission to commit, restarts after a crash, and exactly
    when an unsynced revocation is harmless. */
module Hydration {
  import opened Base
  import opened Ordering
  import opened Manifest
  import opened CommitRecords
  import opened DurableDisk
  import opened DurableCommit
  import opened Journal

  // ---------------------------------------------------------------------- admission

  /** The manifest the visible marker binds, if its records still decode and
      match. */
  function BoundManifest(env: Env, s: Files): Result<Option<seq<SnapshotFile>>> {
    if Complete !in s then Ok(None)
    else
      var marker := env.dec(s[Complete]);
      if marker.None? || !marker.value.MarkerRecord? then Ok(None)
      else if marker.value.marker.revision != VERIFICATION_REVISION &&
              marker.value.marker.revision != SNAPSHOT_VERIFICATION_REVISION then Ok(None)
      else if ManifestFile !in s || env.sha(s[ManifestFile]) != marker.value.marker.manifestDigest then Ok(None)
      else
        var manifest := env.dec(s[ManifestFile]);
        if manifest.None? || !manifest.value.ManifestRecord? then Err(IntegrityError)
        else Ok(Some(manifest.value.files))
  }

  predicate Downgrades(env: Env, s: Files, full: bool) {
    !full && Complete in s && env.dec(s[Complete]).Some? && env.dec(s[Complete]).value.MarkerRecord? &&
    env.dec(s[Complete]).value.marker.revision == SNAPSHOT_VERIFICATION_REVISION
  }

  predicate SameIdentity(v: ViewMeta, w: ViewMeta) {
    v.snapshotId == w.snapshotId && v.namespaceViewId == w.namespaceViewId && v.scope == w.scope
  }

  /** The view on disk, if any, is the one asked for. */
  predicate ViewAgrees(env: Env, s: Files, view: ViewMeta) {
    View in s ==> env.dec(s[View]).Some? && env.dec(s[View]).value.ViewRecord? && SameIdentity(env.dec(s[View]).value.view, view)
  }

  /** What a store must show before a hydration may revoke its completion. */
  ghost predicate Admissible(env: Env, s: Files, view: ViewMeta, manifest: seq<SnapshotFile>, full: bool) {
    ViewOk(view, full) && ViewAgrees(env, s, view) && ManifestOk(manifest, full) && !Downgrades(env, s, full) &&
    BoundManifest(env, s).Ok? &&
    (BoundManifest(env, s).value.Some? ==> multiset(BoundManifest(env, s).value.value) == multiset(manifest))
  }

  lemma SameFiles(a: seq<SnapshotFile>, b: seq<SnapshotFile>)
    requires DistinctPaths(b)
    ensures SortBy(FilePath, a) == SortBy(FilePath, b) <==> multiset(a) == multiset(b)
  {
    SortPermutes(FilePath, a);
    SortPermutes(FilePath, b);
    if multiset(a) == multiset(b) {
      assert DistinctKeys(FilePath, b);
      SortOfPermutation(FilePath, b, a);
    }
  }

  /** A fixed view stays fixed: what a reopen would accept can only be revoked
      for the same view, the same files and no weaker a completion. */
  lemma OnlySameCompletion(env: Env, s: Files, c: Committed, view: ViewMeta, manifest: seq<SnapshotFile>, full: bool)
    requires Accepts(env, s, c) && Admissible(env, s, view, manifest, full)
    ensures multiset(c.manifest) == multiset(manifest) && (c.kind == FullSnapshot ==> full)
    ensures SameIdentity(env.dec(s[View]).value.view, view)
  {
    assert BoundManifest(env, s) == Ok(Some(c.manifest));
  }

  /** The checks of a hydration, none of which touches the disk. */
  method Admit(env: Env, s: Files, view: ViewMeta, manifest: seq<SnapshotFile>, full: bool) returns (r: Result<()>)
    ensures r.Ok? <==> Admissible(env, s, view, manifest, full)
    ensures r.Err? && r.code == ViewConflict ==> ViewOk(view, full)
  {
    if !ViewOk(view, full) {
      return Err(IntegrityError);
    }
    if View in s {
      var stored := env.dec(s[View]);
      if stored.None? || !stored.value.ViewRecord? {
        return Err(Internal);
      }
      if !SameIdentity(stored.value.view, view) {
        return Err(ViewConflict);
      }
    }
    var valid := ValidateManifest(manifest, full);
    if valid.Err? {
      return Err(valid.code);
    }
    if Downgrades(env, s, full) {
      return Err(ViewConflict);
    }
    var previous := BoundManifest(env, s);
    if previous.Err? {
      return Err(previous.code);
    }
    if previous.value.Some? {
      SameFiles(previous.value.value, manifest);
      if SortBy(FilePath, previous.value.value) != SortBy(FilePath, manifest) {
        return Err(ViewConflict);
      }
    }
    return Ok(());
  }

  /** The journal ends in the middle of a line. */
  predicate Torn(s: Files) {
    Journal in s && s[Journal] != [] && !Terminated(s[Journal])
  }

  /** Cut the journal's torn tail in place; no audited file changes. A cut syncs the
      root directory, and with it any removal left unsynced there. */
  method RepairJournal(store: DurableStore, ghost audit: Files -> bool) returns (ok: bool)
    requires store.Valid() && CrashSafe(audit, store.slots)
    modifies store`slots, store`trace
    ensures store.Valid() && old(store.trace) <= store.trace && SafeSince(audit, store.trace, |old(store.trace)|)
    ensures CrashSafe(audit, store.slots) && Within(old(store.slots), store.slots, Journal, {})
    ensures ok && Torn(Now(old(store.slots))) ==> Settled(store.slots)
    ensures !Torn(Now(old(store.slots))) ==> ok && store.slots == old(store.slots) && store.trace == old(store.trace)
  {
    ghost var d := store.slots;
    WithinItself(d, Journal, {});
    if Journal !in Now(store.slots) {
      return true;
    }
    var bytes := Now(store.slots)[Journal];
    if Terminated(bytes) || bytes == [] {
      return true;
    }
    var cut := TruncateTail(bytes);
    ok := CutJournal(store, audit, cut);
  }

  method CutJournal(store: DurableStore, ghost audit: Files -> bool, cut: Bytes) returns (ok: bool)
    requires store.Valid() && CrashSafe(audit, store.slots) && Within(store.slots, store.slots, Journal, {})
    modifies store`slots, store`trace
    ensures store.Valid() && old(store.trace) <= store.trace && SafeSince(audit, store.trace, |old(store.trace)|)
    ensures CrashSafe(audit, store.slots) && Within(old(store.slots), store.slots, Journal, {})
    ensures ok ==> Settled(store.slots)
  {
    JournalSteps(audit, store.slots, cut);
    ghost var t := store.trace;
    ok := store.SetLength(Journal, cut);
    SafePush(audit, t, |t|, store.slots);
    if !ok {
      return;
    }
    ghost var u := store.trace;
    ok := store.SyncFile(Journal);
    SafePush(audit, u, |t|, store.slots);
    if !ok {
      return;
    }
    SyncSettles(store.slots);
    ghost var v := store.trace;
    ok := store.SyncDir(Root);
    SafePush(audit, v, |t|, store.slots);
  }

  lemma SyncSettles(d: Slots)
    ensures Settled(DirSynced(d, Root))
  {
    assert At(DirSynced(d, Root), Complete).older == {};
  }

  lemma WithinItself(d: Slots, p: Path, extra: set<Survivor>)
    ensures Within(d, d, p, extra)
  {
    forall r | Relevant(r) ensures PathWithin(d, d, r, if r == p then extra else {}) { }
  }

  lemma JournalSteps(audit: Files -> bool, d: Slots, data: Bytes)
    requires CrashSafe(audit, d)
    ensures var written := Written(d, Journal, data);
            var synced := FileSynced(written, Journal);
            var done := DirSynced(synced, Root);
            CrashSafe(audit, written) && CrashSafe(audit, synced) && CrashSafe(audit, done) &&
            Within(d, written, Journal, {}) && Within(d, synced, Journal, {}) && Within(d, done, Journal, {})
  {
    var written := Written(d, Journal, data);
    var synced := FileSynced(written, Journal);
    var done := DirSynced(synced, Root);
    WrittenWithin(d, Journal, data);
    assert Within(d, written, Journal, {});
    SafeWithin(audit, d, written, Journal, {});
    forall r | Relevant(r) ensures PathWithin(d, synced, r, if r == Journal then {} else {}) {
      assert At(synced, r) == At(d, r);
    }
    assert Within(d, synced, Journal, {});
    SafeWithin(audit, d, synced, Journal, {});
    DirSyncedWithin(synced, Root, Journal, {});
    WithinTransitive(d, synced, done, Journal, {});
    SafeWithin(audit, d, done, Journal, {});
  }

  lemma SettledWithin(d: Slots, d': Slots)
    requires Settled(d) && Within(d, d', Journal, {})
    ensures Settled(d')
  {
    assert PathWithin(d, d', Complete, {});
    assert Latest(At(d', Complete)) in MayBe(d', Complete);
  }

  /** When binding a view cannot break a marker that may still survive: no removal
      is left unsynced, or cutting the journal will sync it, or the view's bytes
      may be the stored ones. */
  ghost predicate Harmless(d: Slots, bytes: Bytes) {
    Settled(d) || Torn(Now(d)) || Exact(bytes) in MayBe(d, View)
  }

  /** The audit where the disk meets it; where it does not, nothing is asked. */
  ghost function AuditFrom(env: Env, d: Slots): (audit: Files -> bool)
    ensures CrashSafe(audit, d)
  {
    if CrashSafe(Audit(env), d) then Audit(env) else s => true
  }

  /** Admit a hydration, revoke the completion durably and bind the view. A
      refusal leaves the disk alone. Success leaves no marker that could survive,
      and every state on the way was crash safe if and only if binding the view was
      harmless to begin with. */
  method Prepare(store: DurableStore, env: Env, f: Format, view: ViewMeta, manifest: seq<SnapshotFile>, full: bool)
    returns (r: Result<()>)
    requires store.Valid() && f.blank([])
    modifies store
    ensures store.Valid() && old(store.trace) <= store.trace
    ensures !Admissible(env, Now(old(store.slots)), view, manifest, full) ==>
              r.Err? && store.slots == old(store.slots) && store.trace == old(store.trace)
    ensures CrashSafe(Audit(env), old(store.slots)) && Harmless(old(store.slots), env.enc(ViewRecord(view))) ==>
              SafeSince(Audit(env), store.trace, |old(store.trace)|) && CrashSafe(Audit(env), store.slots)
    ensures CrashSafe(Audit(env), old(store.slots)) && !Harmless(old(store.slots), env.enc(ViewRecord(view))) && CollisionFree(env.sha) && r.Ok? ==>
              !SafeSince(Audit(env), store.trace, |old(store.trace)|)
    ensures r.Ok? ==> NoMarker(store.slots) && Holds(store.slots, View, env.enc(ViewRecord(view)))
  {
    ghost var audit := AuditFrom(env, store.slots);
    r := Admit(env, Now(store.slots), view, manifest, full);
    if r.Err? {
      return;
    }
    if Journal in Now(store.slots) {
      var hints := ReadJournal(f, Now(store.slots)[Journal]);
      if hints.Err? {
        return Err(hints.code);
      }
    }
    r := Rebind(store, env, audit, env.enc(ViewRecord(view)));
  }

  /** The part of an admitted hydration that changes the disk. */
  method Rebind(store: DurableStore, ghost env: Env, ghost audit: Files -> bool, bytes: Bytes) returns (r: Result<()>)
    requires store.Valid() && audit == AuditFrom(env, store.slots)
    modifies store
    ensures store.Valid() && old(store.trace) <= store.trace
    ensures Harmless(old(store.slots), bytes) ==> SafeSince(audit, store.trace, |old(store.trace)|) && CrashSafe(audit, store.slots)
    ensures CrashSafe(Audit(env), old(store.slots)) && !Harmless(old(store.slots), bytes) && CollisionFree(env.sha) && r.Ok? ==>
              !SafeSince(audit, store.trace, |old(store.trace)|)
    ensures r.Ok? ==> NoMarker(store.slots) && Holds(store.slots, View, bytes)
  {
    ghost var from, d := |store.trace|, store.slots;
    var ok := ClearMarker(store, audit);
    if !ok {
      return Err(Internal);
    }
    ok := BindView(store, audit, bytes, from);
    if ok && CrashSafe(Audit(env), d) && !Harmless(d, bytes) && CollisionFree(env.sha) {
      HarmfulBind(env, d, old(store.nextTemp), bytes, store.trace, from);
    }
    return if ok then Ok(()) else Err(Internal);
  }

  /** Repair the journal and revoke the marker. Where nothing is left unsynced, or
      the journal is cut, no marker can survive success; elsewhere an absent marker
      is believed and nothing happens. */
  method ClearMarker(store: DurableStore, ghost audit: Files -> bool) returns (ok: bool)
    requires store.Valid() && CrashSafe(audit, store.slots)
    modifies store`slots, store`trace
    ensures store.Valid() && old(store.trace) <= store.trace && SafeSince(audit, store.trace, |old(store.trace)|) && CrashSafe(audit, store.slots)
    ensures ok ==> At(store.slots, Complete).now.None?
    ensures ok && (Settled(old(store.slots)) || Torn(Now(old(store.slots)))) ==> NoMarker(store.slots)
    ensures !Settled(old(store.slots)) && !Torn(Now(old(store.slots))) ==> store.slots == old(store.slots) && store.trace == old(store.trace)
  {
    ghost var d := store.slots;
    ok := RepairJournal(store, audit);
    if !ok {
      return;
    }
    ghost var t, e := store.trace, store.slots;
    if Settled(d) {
      SettledWithin(d, e);
    }
    ok := store.InvalidateComplete(audit);
    SafeJoin(audit, t, store.trace, |old(store.trace)|);
  }

  /** Write the view over a revoked marker. */
  method BindView(store: DurableStore, ghost audit: Files -> bool, bytes: Bytes, ghost from: nat) returns (ok: bool)
    requires store.Valid() && At(store.slots, Complete).now.None? && SafeSince(audit, store.trace, from) && CrashSafe(audit, store.slots)
    modifies store
    ensures store.Valid() && old(store.trace) <= store.trace
    ensures NoMarker(old(store.slots)) || Exact(bytes) in MayBe(old(store.slots), View) ==>
              SafeSince(audit, store.trace, from) && CrashSafe(audit, store.slots)
    ensures ok ==> NoMarker(store.slots) && Holds(store.slots, View, bytes)
    ensures ok ==> Visits(store.trace, |old(store.trace)|, Replaced(old(store.slots), Temp(Root, old(store.nextTemp)), View, bytes))
  {
    ghost var t, d := store.trace, store.slots;
    ok := store.WriteAtomic(View, bytes);
    if NoMarker(d) {
      SafeFromNoMarker(audit, store.trace, |t|, d, View, {Exact(bytes)});
      SafeJoin(audit, t, store.trace, from);
      NoMarkerWithin(audit, d, store.slots, View, {Exact(bytes)});
    } else if Exact(bytes) in MayBe(d, View) {
      SafeAgain(audit, store.trace, |t|, d, bytes);
      SafeJoin(audit, t, store.trace, from);
      SafeSame(audit, d, store.slots, bytes);
    }
  }

  /** Bytes that may be the stored view's add no new outcome. */
  lemma SafeSame(audit: Files -> bool, d: Slots, d': Slots, bytes: Bytes)
    requires CrashSafe(audit, d) && Exact(bytes) in MayBe(d, View) && Within(d, d', View, {Exact(bytes)})
    ensures CrashSafe(audit, d')
  {
    assert Within(d, d', View, {}) by {
      forall q | Relevant(q) ensures PathWithin(d, d', q, if q == View then {} else {}) && (q != View ==> At(d', q).now == At(d, q).now) {
        assert PathWithin(d, d', q, if q == View then {Exact(bytes)} else {});
      }
    }
    SafeWithin(audit, d, d', View, {});
  }

  lemma SafeAgain(audit: Files -> bool, trace: seq<Slots>, from: nat, d: Slots, bytes: Bytes)
    requires CrashSafe(audit, d) && Exact(bytes) in MayBe(d, View) && WithinSince(trace, from, d, View, {Exact(bytes)})
    ensures SafeSince(audit, trace, from)
  {
    forall i | from <= i < |trace| ensures CrashSafe(audit, trace[i]) {
      SafeSame(audit, d, trace[i], bytes);
    }
  }

  /** A trace that renames a harmful view into place is not safe. */
  lemma HarmfulBind(env: Env, d: Slots, n: nat, bytes: Bytes, trace: seq<Slots>, from: nat)
    requires CollisionFree(env.sha) && CrashSafe(Audit(env), d) && !Harmless(d, bytes)
    requires Visits(trace, from, Replaced(d, Temp(Root, n), View, bytes))
    ensures !SafeSince(Audit(env), trace, from)
  {
    UnsettledExact(env, d, Temp(Root, n), bytes);
    var i :| from <= i < |trace| && trace[i] == Replaced(d, Temp(Root, n), View, bytes);
    assert !CrashSafe(Audit(env), trace[i]);
  }

  // ------------------------------------------------------------------ hydrate, reopen

  /** Bytes a fetch delivered are published only under the digest and size they
      were asked for. */
  method StoreBlob(store: DurableStore, env: Env, ghost audit: Files -> bool, b: BlobDependency, delivered: Bytes)
    returns (r: Result<()>)
    requires store.Valid() && NoMarker(store.slots)
    modifies store
    ensures store.Valid() && old(store.trace) <= store.trace && SafeSince(audit, store.trace, |old(store.trace)|)
    ensures NoMarker(store.slots)
    ensures r.Ok? ==> BlobHeld(env, store.slots, b)
    ensures env.sha(delivered) != b.digest || |delivered| != b.size ==> r.Err? && store.slots == old(store.slots)
  {
    NoMarkerIsSafe(audit, store.slots);
    if |delivered| != b.size || env.sha(delivered) != b.digest {
      return Err(DigestMismatch);
    }
    var ok := store.Publish(audit, Blob(b.digest), delivered);
    return if ok then Ok(()) else Err(Internal);
  }

  /** What a commit's view is written as. */
  function ViewBytes(env: Env, c: Commit): Bytes {
    env.enc(ViewRecord(c.view))
  }

  /** A whole hydration: admission, a fetch for each file whose content is missing,
      commit. Whatever fails or is delivered, no step of it can leave a marker that
      a reopen rejects, if binding its view is harmless; a hydration that succeeds
      although it is not has passed through a state that can. */
  method Hydrate(store: DurableStore, env: Env, f: Format, c: Commit, deliver: BlobDependency -> Bytes)
    returns (r: Result<CompletionKind>)
    requires store.Valid()
    requires f.blank([]) && RoundTrips(env) && RealDigests(env) && ValidInput(env, c)
    modifies store
    ensures store.Valid() && old(store.trace) <= store.trace
    ensures CrashSafe(Audit(env), old(store.slots)) && Harmless(old(store.slots), ViewBytes(env, c)) ==>
              SafeSince(Audit(env), store.trace, |old(store.trace)|) && CrashSafe(Audit(env), store.slots)
    ensures CrashSafe(Audit(env), old(store.slots)) && !Harmless(old(store.slots), ViewBytes(env, c)) && CollisionFree(env.sha) && r.Ok? ==>
              !SafeSince(Audit(env), store.trace, |old(store.trace)|)
    ensures r.Ok? ==> r.value == KindOf(c) && Durable(env, store.slots, c) && Settled(store.slots)
  {
    ghost var audit, from := Audit(env), |store.trace|;
    var ready := Prepare(store, env, f, c.view, c.manifest, c.closure.Some?);
    if ready.Err? {
      return Err(ready.code);
    }
    ghost var bound := store.trace;
    r := Fill(store, env, f, c, deliver);
    if SafeSince(audit, bound, from) {
      SafeJoin(audit, bound, store.trace, from);
    } else {
      UnsafeStays(audit, bound, store.trace, from);
    }
  }

  lemma UnsafeStays(audit: Files -> bool, t: seq<Slots>, u: seq<Slots>, from: nat)
    requires from <= |t| && t <= u && !SafeSince(audit, t, from)
    ensures !SafeSince(audit, u, from)
  {
    var i :| from <= i < |t| && !CrashSafe(audit, t[i]);
    assert u[i] == t[i];
  }

  /** Fetch what is missing and commit, while no marker can survive. */
  method Fill(store: DurableStore, env: Env, f: Format, c: Commit, deliver: BlobDependency -> Bytes) returns (r: Result<CompletionKind>)
    requires store.Valid() && NoMarker(store.slots)
    requires RoundTrips(env) && RealDigests(env) && ValidInput(env, c)
    modifies store
    ensures store.Valid() && old(store.trace) <= store.trace
    ensures SafeSince(Audit(env), store.trace, |old(store.trace)|) && CrashSafe(Audit(env), store.slots)
    ensures r.Ok? ==> r.value == KindOf(c) && Durable(env, store.slots, c) && Settled(store.slots)
  {
    ghost var audit, from := Audit(env), |store.trace|;
    NoMarkerIsSafe(audit, store.slots);
    for k := 0 to |c.manifest|
      invariant store.Valid() && old(store.trace) <= store.trace && SafeSince(audit, store.trace, from) && NoMarker(store.slots)
    {
      var dep := BlobDependency(c.manifest[k].contentDigest, c.manifest[k].size);
      if !BlobVerifies(env, Now(store.slots), dep.digest, dep.size) {
        ghost var t := store.trace;
        var stored := StoreBlob(store, env, audit, dep, deliver(dep));
        SafeJoin(audit, t, store.trace, from);
        NoMarkerIsSafe(audit, store.slots);
        if stored.Err? {
          return Err(stored.code);
        }
      }
    }
    ghost var t := store.trace;
    r := store.FinishCommit(env, c, Encode(f, RecordsOf(c.manifest)));
    SafeJoin(audit, t, store.trace, from);
    if r.Ok? {
      DurableSettles(env, store.slots, c);
    }
  }

  lemma DurableSettles(env: Env, d: Slots, c: Commit)
    requires Durable(env, d, c)
    ensures Settled(d)
  {
    NowIsOutcome(d);
    assert Complete in Now(d);
  }

  /** What is visible is a possible outcome of a crash. */
  lemma NowIsOutcome(d: Slots)
    ensures Outcome(d, Now(d))
  {
    forall p | Relevant(p) ensures Possible(d, Now(d), p) { }
  }

  /** Look for a completion. A marker whose audit finds damage is revoked and the
      reason noted; one that is refused for another reason is left, and the refusal
      reported. What a crash can leave always passes, and is left as it is. */
  method Reopen(store: DurableStore, env: Env, note: Bytes) returns (r: Result<Option<seq<SnapshotFile>>>)
    requires store.Valid()
    modifies store
    ensures store.Valid() && old(store.trace) <= store.trace
    ensures CrashSafe(Audit(env), old(store.slots)) ==> r.Ok? && store.slots == old(store.slots) && store.trace == old(store.trace)
    ensures forall m :: r == Ok(Some(m)) ==> exists kind :: Accepts(env, Now(old(store.slots)), Committed(kind, m))
    ensures Verifies(env, Now(old(store.slots))) ==> r.Ok? && r.value.Some? && store.slots == old(store.slots)
    ensures r.Ok? ==> store.slots == old(store.slots) || NoMarker(store.slots)
    ensures r.Err? && r.code != Internal && !Damaged(r.code) ==> RefusedOtherwise(env, Now(old(store.slots)), r.code) && store.slots == old(store.slots)
    ensures r == Ok(None) && Complete in Now(old(store.slots)) ==> NoMarker(store.slots) && !Verifies(env, Now(old(store.slots)))
  {
    var s := Now(store.slots);
    NowIsOutcome(store.slots);
    if Complete !in s {
      return Ok(None);
    }
    var checked := VerifyCommit(env, s);
    if checked.Ok? {
      assert Accepts(env, s, Committed(checked.value.kind, checked.value.manifest));
      return Ok(Some(checked.value.manifest));
    }
    assert !Verifies(env, s);
    if !Damaged(checked.code) {
      return Err(checked.code);
    }
    r := Revoke(store, note);
  }

  /** Take back a marker that is visible, and leave a note. */
  method Revoke(store: DurableStore, note: Bytes) returns (r: Result<Option<seq<SnapshotFile>>>)
    requires store.Valid() && At(store.slots, Complete).now.Some?
    modifies store
    ensures store.Valid() && old(store.trace) <= store.trace
    ensures r == Err(Internal) || r == Ok(None)
    ensures r.Ok? ==> NoMarker(store.slots)
  {
    ghost var anything := (s: Files) => true;
    var ok := store.InvalidateComplete(anything);
    if !ok {
      return Err(Internal);
    }
    ghost var d := store.slots;
    ok := store.WriteAtomic(Repair, note);
    NoMarkerWithin(anything, d, store.slots, Repair, {Exact(note)});
    return if ok then Ok(None) else Err(Internal);
  }

  // ------------------------------------------------------------------------- restart

  /** After a crash the surviving files are all there is, and they are durable. */
  function Restarted(s: Files): Slots {
    map p | p in s :: Slot(Some(s[p]), true, {})
  }

  ghost predicate Agree(s: Files, s': Files) {
    forall p :: Relevant(p) ==> (p in s <==> p in s') && (p in s ==> s[p] == s'[p])
  }

  lemma {:induction false} PagesAgree(s: Files, s': Files, deps: seq<PageDependency>)
    requires Agree(s, s') && AllStored(s, deps)
    ensures AllStored(s', deps) && StoredPages(s, deps) == StoredPages(s', deps)
  {
    forall d | d in deps ensures PageStored(s', d) {
      assert PageStored(s, d) && Relevant(PageFile(d.pageId));
    }
    if deps != [] {
      var last := deps[|deps| - 1];
      assert last in deps && PageStored(s, last) && Relevant(PageFile(last.pageId));
      PagesAgree(s, s', deps[..|deps| - 1]);
    }
  }

  lemma BlobsAgree(env: Env, s: Files, s': Files, files: seq<SnapshotFile>)
    requires Agree(s, s')
    ensures BlobsVerify(env, s, Dependencies(files)) ==> BlobsVerify(env, s', Dependencies(files))
    ensures LinksVerify(env, s, files) ==> LinksVerify(env, s', files)
  {
    forall digest ensures Relevant(Blob(digest)) { }
    if BlobsVerify(env, s, Dependencies(files)) {
      forall d | d in Dependencies(files) ensures BlobVerifies(env, s', d.digest, d.size) {
        assert BlobVerifies(env, s, d.digest, d.size);
      }
    }
    if LinksVerify(env, s, files) {
      forall x | x in files && x.fsKind == "symlink" ensures LinkVerifies(env, s', x) {
        assert LinkVerifies(env, s, x);
      }
    }
  }

  lemma MetadataAgrees(env: Env, s: Files, s': Files, view: ViewMeta, manifest: seq<SnapshotFile>, m: Marker, p: Pin)
    requires Agree(s, s') && MetadataVerifies(env, s, view, manifest, m, p)
    ensures MetadataVerifies(env, s', view, manifest, m, p)
  {
    assert Relevant(DescriptorFile) && Relevant(IndexFile);
    PagesAgree(s, s', env.dec(s[IndexFile]).value.index.pages);
    BlobsAgree(env, s, s', manifest);
  }

  lemma RecordsAgree(env: Env, s: Files, s': Files, view: ViewMeta, manifest: seq<SnapshotFile>, m: Marker, p: Pin)
    requires Agree(s, s') && RecordsVerify(env, s, view, manifest, m, p)
    ensures RecordsVerify(env, s', view, manifest, m, p)
  {
    assert Relevant(OfflineGrant);
    if m.revision == SNAPSHOT_VERIFICATION_REVISION {
      MetadataAgrees(env, s, s', view, manifest, m, p);
    }
    BlobsAgree(env, s, s', manifest);
  }

  /** The audit reads audited files only. */
  lemma AcceptsAgree(env: Env, s: Files, s': Files, c: Committed)
    requires Agree(s, s') && Accepts(env, s, c)
    ensures Accepts(env, s', c)
  {
    assert Relevant(Complete) && Relevant(View) && Relevant(ManifestFile) && Relevant(PinFile);
    RecordsAgree(env, s, s', env.dec(s[View]).value.view, env.dec(s[ManifestFile]).value.files,
                 env.dec(s[Complete]).value.marker, env.dec(s[PinFile]).value.pin);
  }

  /** A marker, if there is one, passes the audit. */
  ghost predicate Sound(env: Env, s: Files) {
    Complete in s ==> Verifies(env, s)
  }

  /** After a restart nothing is left unsynced, so a store whose marker, if there is
      one, passes the audit is settled and crash safe. */
  lemma RestartIsSettled(env: Env, s: Files)
    ensures Settled(Restarted(s)) && Now(Restarted(s)) == s
    ensures CrashSafe(Audit(env), Restarted(s)) <==> Sound(env, s)
  {
    assert Now(Restarted(s)) == s;
    NowIsOutcome(Restarted(s));
    forall s' | Sound(env, s) && Outcome(Restarted(s), s') && Complete in s' ensures Audit(env)(s') {
      RestartAgrees(s, s');
      VerifiesAgree(env, s, s');
    }
  }

  lemma RestartAgrees(s: Files, s': Files)
    requires Outcome(Restarted(s), s')
    ensures Agree(s, s') && (Complete in s <==> Complete in s')
  {
    forall p | Relevant(p) ensures (p in s <==> p in s') && (p in s ==> s[p] == s'[p]) {
      assert Possible(Restarted(s), s', p);
    }
    assert Relevant(Complete);
  }

  lemma VerifiesAgree(env: Env, s: Files, s': Files)
    requires Agree(s, s') && Verifies(env, s)
    ensures Verifies(env, s')
  {
    var c :| Accepts(env, s, c);
    AcceptsAgree(env, s, s', c);
  }

  // --------------------------------------------------------------------------- lives

  datatype Operation = Hydrating(commit: Commit, deliver: BlobDependency -> Bytes) | Reopening(note: Bytes)

  ghost predicate ValidOps(env: Env, ops: seq<Operation>) {
    forall i :: 0 <= i < |ops| && ops[i].Hydrating? ==> ValidInput(env, ops[i].commit)
  }

  /** Every hydration was begun where binding its view is harmless. */
  ghost predicate Careful(env: Env, ops: seq<Operation>, starts: seq<Slots>) {
    |starts| == |ops| && forall i :: 0 <= i < |ops| && ops[i].Hydrating? ==> Harmless(starts[i], ViewBytes(env, ops[i].commit))
  }

  ghost predicate AllTrue(succeeded: seq<bool>) {
    forall i :: 0 <= i < |succeeded| ==> succeeded[i]
  }

  /** Nothing was done after a failure. */
  ghost predicate Prudent(succeeded: seq<bool>) {
    succeeded == [] || AllTrue(succeeded[..|succeeded| - 1])
  }

  lemma PrudentStep(succeeded: seq<bool>, ok: bool)
    ensures Prudent(succeeded + [ok]) <==> AllTrue(succeeded)
    ensures AllTrue(succeeded + [ok]) <==> AllTrue(succeeded) && ok
  {
    var more := succeeded + [ok];
    assert more[..|more| - 1] == succeeded && more[|succeeded|] == ok;
    if AllTrue(more) {
      forall i | 0 <= i < |succeeded| ensures succeeded[i] {
        assert more[i] == succeeded[i];
      }
    }
  }

  /** One operation. */
  method Perform(store: DurableStore, env: Env, f: Format, op: Operation) returns (ok: bool)
    requires store.Valid() && f.blank([]) && RoundTrips(env) && RealDigests(env) && (op.Hydrating? ==> ValidInput(env, op.commit))
    modifies store
    ensures store.Valid() && old(store.trace) <= store.trace
    ensures CrashSafe(Audit(env), old(store.slots)) && (op.Hydrating? ==> Harmless(old(store.slots), ViewBytes(env, op.commit))) ==>
              SafeSince(Audit(env), store.trace, |old(store.trace)|) && CrashSafe(Audit(env), store.slots)
    ensures ok && Settled(old(store.slots)) ==> Settled(store.slots)
  {
    match op
    case Hydrating(commit, deliver) =>
      var r := Hydrate(store, env, f, commit, deliver);
      ok := r.Ok?;
    case Reopening(note) =>
      var r := Reopen(store, env, note);
      ok := r.Ok?;
  }

  /** Any sequence of hydrations and reopens by one process, which may go on after a
      failure. `starts` are the disk's states before each. All its states are crash
      safe if each hydration was begun where that is harmless, and from a settled
      store that is so as long as no operation follows a failed one. */
  method Live(store: DurableStore, env: Env, f: Format, ops: seq<Operation>) returns (ghost starts: seq<Slots>, succeeded: seq<bool>)
    requires store.Valid() && f.blank([]) && RoundTrips(env) && RealDigests(env) && ValidOps(env, ops)
    modifies store
    ensures store.Valid() && old(store.trace) <= store.trace && |starts| == |succeeded| == |ops|
    ensures Recorded(starts, old(store.slots), store.trace)
    ensures CrashSafe(Audit(env), old(store.slots)) && Careful(env, ops, starts) ==>
              SafeSince(Audit(env), store.trace, |old(store.trace)|) && CrashSafe(Audit(env), store.slots)
    ensures Settled(old(store.slots)) && Prudent(succeeded) ==> Careful(env, ops, starts)
  {
    starts, succeeded := [], [];
    ghost var audit, from := Audit(env), |store.trace|;
    for k := 0 to |ops|
      invariant store.Valid() && old(store.trace) <= store.trace && |starts| == |succeeded| == k
      invariant Recorded(starts, old(store.slots), store.trace) && (k == 0 ==> store.slots == old(store.slots))
      invariant CrashSafe(audit, old(store.slots)) && Careful(env, ops[..k], starts) ==> SafeSince(audit, store.trace, from) && CrashSafe(audit, store.slots)
      invariant LiveSoFar(env, old(store.slots), ops[..k], starts, succeeded, store.slots)
    {
      ghost var t, d, before := store.trace, store.slots, starts;
      starts := starts + [d];
      CarefulStep(env, ops, before, k, d);
      var ok := Perform(store, env, f, ops[k]);
      RecordedMore(before, old(store.slots), t, store.trace);
      LiveStep(env, old(store.slots), ops, k, before, succeeded, d, ok, store.slots);
      succeeded := succeeded + [ok];
      if CrashSafe(audit, old(store.slots)) && Careful(env, ops[..k + 1], starts) {
        SafeJoin(audit, t, store.trace, from);
      }
    }
    assert ops[..|ops|] == ops;
  }

  /** These are states of the trace, the first of them the given one. */
  ghost predicate Recorded(starts: seq<Slots>, first: Slots, trace: seq<Slots>) {
    (starts != [] ==> starts[0] == first) && forall d :: d in starts ==> d in trace
  }

  lemma RecordedMore(starts: seq<Slots>, first: Slots, t: seq<Slots>, u: seq<Slots>)
    requires Recorded(starts, first, t) && t != [] && t <= u && (starts == [] ==> t[|t| - 1] == first)
    ensures Recorded(starts + [t[|t| - 1]], first, u)
  {
    assert forall d :: d in t ==> d in u;
  }

  /** All that is known of a life so far. */
  ghost predicate LiveSoFar(env: Env, first: Slots, ops: seq<Operation>, starts: seq<Slots>, succeeded: seq<bool>, now: Slots) {
    (Settled(first) && AllTrue(succeeded) ==> Settled(now) && Careful(env, ops, starts)) &&
    (Settled(first) && Prudent(succeeded) ==> Careful(env, ops, starts))
  }

  lemma LiveStep(env: Env, first: Slots, ops: seq<Operation>, k: nat, starts: seq<Slots>, succeeded: seq<bool>, d: Slots, ok: bool, d': Slots)
    requires k < |ops| && |starts| == |succeeded| == k && LiveSoFar(env, first, ops[..k], starts, succeeded, d)
    requires ok && Settled(d) ==> Settled(d')
    ensures LiveSoFar(env, first, ops[..k + 1], starts + [d], succeeded + [ok], d')
  {
    CarefulStep(env, ops, starts, k, d);
    PrudentStep(succeeded, ok);
  }

  lemma CarefulStep(env: Env, ops: seq<Operation>, starts: seq<Slots>, k: nat, d: Slots)
    requires k < |ops| && |starts| == k
    ensures Careful(env, ops[..k + 1], starts + [d]) <==>
              Careful(env, ops[..k], starts) && (ops[k].Hydrating? ==> Harmless(d, ViewBytes(env, ops[k].commit)))
  {
    var all, more := ops[..k + 1], starts + [d];
    assert all[..k] == ops[..k] && all[k] == ops[k] && more[k] == d;
    if Careful(env, all, more) {
      forall i | 0 <= i < k && ops[..k][i].Hydrating? ensures Harmless(starts[i], ViewBytes(env, ops[..k][i].commit)) {
        assert all[i] == ops[..k][i] && more[i] == starts[i];
      }
    }
    if Careful(env, ops[..k], starts) {
      forall i | 0 <= i < k && all[i].Hydrating? ensures Harmless(more[i], ViewBytes(env, all[i].commit)) {
        assert all[i] == ops[..k][i] && more[i] == starts[i];
      }
    }
  }

  /** A crash at any moment of a life. The caller learns only that what is left is
      some outcome of some state. */
  method Crash(store: DurableStore) returns (left: Files)
    requires store.Valid()
    ensures exists i :: 0 <= i < |store.trace| && Outcome(store.trace[i], left)
  {
    NowIsOutcome(store.slots);
    left := Now(store.slots);
  }

  /** Names no leftover temporary has. */
  method UnusedTemp(s: Files) returns (n: nat)
    ensures forall d, m: nat :: m >= n ==> Temp(d, m) !in s
  {
    n := 0;
    var todo := s.Keys;
    while todo != {}
      invariant todo <= s.Keys
      invariant forall d, m: nat :: m >= n && Temp(d, m) in s ==> Temp(d, m) in todo
      decreases |todo|
    {
      var p :| p in todo;
      todo := todo - {p};
      if p.Temp? && p.n >= n {
        n := p.n + 1;
      }
    }
  }

  /** One process: what it finds, what it does until an operation fails or it is done,
      and what a crash at any moment of that leaves. */
  method OneLife(env: Env, f: Format, s: Files, ops: seq<Operation>) returns (left: Files)
    requires f.blank([]) && RoundTrips(env) && RealDigests(env) && ValidOps(env, ops)
    ensures Sound(env, s) ==> Sound(env, left)
  {
    var n := UnusedTemp(s);
    var store := new DurableStore(Restarted(s), n);
    RestartIsSettled(env, s);
    LiveUntilFailure(store, env, f, ops);
    left := Crash(store);
    if Sound(env, s) {
      ghost var i :| 0 <= i < |store.trace| && Outcome(store.trace[i], left);
      assert CrashSafe(Audit(env), store.trace[i]);
    }
  }

  method LiveUntilFailure(store: DurableStore, env: Env, f: Format, ops: seq<Operation>)
    requires store.Valid() && f.blank([]) && RoundTrips(env) && RealDigests(env) && ValidOps(env, ops) && Settled(store.slots)
    modifies store
    ensures store.Valid() && old(store.trace) <= store.trace
    ensures CrashSafe(Audit(env), old(store.slots)) ==> SafeSince(Audit(env), store.trace, |old(store.trace)|)
  {
    ghost var audit, from := Audit(env), |store.trace|;
    for k := 0 to |ops|
      invariant store.Valid() && old(store.trace) <= store.trace && Settled(store.slots)
      invariant CrashSafe(audit, old(store.slots)) ==> SafeSince(audit, store.trace, from) && CrashSafe(audit, store.slots)
    {
      ghost var t := store.trace;
      var ok := Perform(store, env, f, ops[k]);
      if CrashSafe(audit, old(store.slots)) {
        SafeJoin(audit, t, store.trace, from);
      }
      if !ok {
        return;
      }
    }
  }

  /** However often processes operate, crash in whatever state of whatever operation and
      restart, a marker that survives is accepted by the next. */
  method Lives(env: Env, f: Format, first: Files, plans: seq<seq<Operation>>) returns (left: seq<Files>)
    requires f.blank([]) && RoundTrips(env) && RealDigests(env) && (forall i :: 0 <= i < |plans| ==> ValidOps(env, plans[i]))
    requires Sound(env, first)
    ensures |left| == |plans| && forall k :: 0 <= k < |left| ==> Sound(env, left[k])
  {
    left := [];
    var s := first;
    for k := 0 to |plans|
      invariant |left| == k && Sound(env, s) && forall j :: 0 <= j < k ==> Sound(env, left[j])
    {
      s := OneLife(env, f, s, plans[k]);
      left := left + [s];
    }
  }

  // ------------------------------------------------------- the unsynced revocation

  ghost function Pick(m: set<Survivor>): (x: Survivor)
    requires m != {}
    ensures x in m
  {
    var x :| x in m;
    x
  }

  /** Some outcome exists with a given choice at one path. */
  ghost function Choice(d: Slots, p: Path, x: Survivor, q: Path): Survivor {
    if q == p then x else Pick(MayBe(d, q))
  }

  function Content(x: Survivor): Bytes {
    if x.Exact? then x.data else []
  }

  lemma SomeOutcome(d: Slots, p: Path, x: Survivor) returns (s: Files)
    requires x in MayBe(d, p) && x != Absent && p in d
    ensures Outcome(d, s) && p in s && (x.Exact? ==> s[p] == x.data)
  {
    s := map q | q in d && Choice(d, p, x, q) != Absent :: Content(Choice(d, p, x, q));
    forall q | Relevant(q) ensures Possible(d, s, q) {
      if q !in d {
        assert MayBe(d, q) == {Absent};
      }
    }
  }

  lemma ViewRenamedOutcomes(d: Slots, tmp: Path, bytes: Bytes, s: Files)
    requires tmp.Temp?
    ensures Outcome(d, s) && View in s ==> Outcome(Replaced(d, tmp, View, bytes), s[View := bytes])
    ensures Exact(bytes) in MayBe(d, View) && Outcome(Replaced(d, tmp, View, bytes), s) ==> Outcome(d, s)
  {
    var w := Replaced(d, tmp, View, bytes);
    assert MayBe(w, View) == MayBe(d, View) + {Exact(bytes)};
    forall q | Relevant(q) && q != View ensures MayBe(w, q) == MayBe(d, q) { }
    if Outcome(d, s) && View in s {
      forall q | Relevant(q) ensures Possible(w, s[View := bytes], q) {
        assert Possible(d, s, q);
      }
    }
    if Exact(bytes) in MayBe(d, View) && Outcome(w, s) {
      forall q | Relevant(q) ensures Possible(d, s, q) {
        assert Possible(w, s, q);
      }
    }
  }

  /** A marker fixes the bytes of the view it was published with. */
  lemma OneView(env: Env, s: Files, bytes: Bytes)
    requires CollisionFree(env.sha) && Verifies(env, s) && Verifies(env, s[View := bytes])
    ensures s[View] == bytes
  {
    var c :| Accepts(env, s, c);
    var c' :| Accepts(env, s[View := bytes], c');
    assert s[View := bytes][Complete] == s[Complete];
  }

  /** With a removed marker that may still survive, binding a view is crash safe
      exactly when that view's bytes may already be the ones on disk. */
  lemma UnsettledExact(env: Env, d: Slots, tmp: Path, bytes: Bytes)
    requires CollisionFree(env.sha) && CrashSafe(Audit(env), d) && tmp.Temp?
    requires At(d, Complete).now.None? && !NoMarker(d)
    ensures CrashSafe(Audit(env), Replaced(d, tmp, View, bytes)) <==> Exact(bytes) in MayBe(d, View)
  {
    var w := Replaced(d, tmp, View, bytes);
    if Exact(bytes) in MayBe(d, View) {
      forall s | Outcome(w, s) && Complete in s ensures Audit(env)(s) {
        ViewRenamedOutcomes(d, tmp, bytes, s);
      }
    }
    if CrashSafe(Audit(env), w) {
      var s := SurvivingMarker(d);
      assert Audit(env)(s);
      ViewRenamedOutcomes(d, tmp, bytes, s);
      assert Audit(env)(s[View := bytes]);
      OneView(env, s, bytes);
      NoGarbageView(env, d, s);
    }
  }

  lemma SurvivingMarker(d: Slots) returns (s: Files)
    requires At(d, Complete).now.None? && !NoMarker(d)
    ensures Outcome(d, s) && Complete in s
  {
    assert Absent in MayBe(d, Complete);
    var x :| x in MayBe(d, Complete) && x != Absent;
    s := SomeOutcome(d, Complete, x);
  }

  lemma NoGarbageView(env: Env, d: Slots, s: Files)
    requires CollisionFree(env.sha) && CrashSafe(Audit(env), d) && Outcome(d, s) && Complete in s
    ensures View in s && Exact(s[View]) in MayBe(d, View)
  {
    assert Audit(env)(s);
    var c :| Accepts(env, s, c);
    assert Possible(d, s, View);
    if Garbage in MayBe(d, View) {
      var other := s[View] + [0];
      forall q | Relevant(q) ensures Possible(d, s[View := other], q) {
        assert Possible(d, s, q);
      }
      assert Audit(env)(s[View := other]);
      OneView(env, s, other);
      assert false;
    }
  }

  /** With the stored view durable, rewriting it is safe exactly when its bytes
      do not change. */
  lemma UnsettledRebind(env: Env, d: Slots, tmp: Path, stored: Bytes, bytes: Bytes)
    requires CollisionFree(env.sha) && CrashSafe(Audit(env), d) && tmp.Temp?
    requires At(d, Complete).now.None? && !NoMarker(d) && Holds(d, View, stored)
    ensures CrashSafe(Audit(env), Replaced(d, tmp, View, bytes)) <==> bytes == stored
  {
    UnsettledExact(env, d, tmp, bytes);
  }

  /** The failing run: any completed store whose marker was removed without its
      directory sync. The next revocation takes the absent marker as revoked,
      and binding the view under a renewed lease admits a crash whose surviving
      marker is rejected. */
  lemma StaleMarkerFails(env: Env, d: Slots, tmp: Path, c: Commit, renewed: ViewMeta)
    requires CollisionFree(env.sha) && RoundTrips(env) && tmp.Temp?
    requires Durable(env, d, c) && Holds(d, Complete, env.enc(MarkerRecord(MarkerOf(env, c))))
    requires Holds(d, View, env.enc(ViewRecord(c.view))) && renewed != c.view
    ensures var removed := Unlinked(d, Complete);
            CrashSafe(Audit(env), removed) && At(removed, Complete).now.None? && !Settled(removed) &&
            !CrashSafe(Audit(env), Replaced(removed, tmp, View, env.enc(ViewRecord(renewed))))
  {
    var removed := Unlinked(d, Complete);
    UnlinkedWithin(d, Complete);
    assert CrashSafe(Audit(env), d) by {
      forall s | Outcome(d, s) ensures Audit(env)(s) {
        assert Accepts(env, s, Committed(KindOf(c), c.manifest));
      }
    }
    SafeWithin(Audit(env), d, removed, Complete, {Absent});
    assert Exact(env.enc(MarkerRecord(MarkerOf(env, c)))) in MayBe(removed, Complete);
    assert env.dec(env.enc(ViewRecord(renewed))) == Some(ViewRecord(renewed));
    assert env.dec(env.enc(ViewRecord(c.view))) == Some(ViewRecord(c.view));
    UnsettledRebind(env, removed, tmp, env.enc(ViewRecord(c.view)), env.enc(ViewRecord(renewed)));
  }
}
