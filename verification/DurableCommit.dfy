/** The hydration commit as a protocol over a crashing disk: revoke the marker,
    make every bound file durable, publish the marker last. */
module DurableCommit {
  import opened Base
  import opened Ordering
  import opened Manifest
  import opened CommitRecords
  import opened DurableDisk

  /** Every disk state since `from` is crash safe. */
  ghost predicate SafeSince(audit: Files -> bool, trace: seq<Slots>, from: nat) {
    from <= |trace| && forall i :: from <= i < |trace| ==> CrashSafe(audit, trace[i])
  }

  lemma SafeJoin(audit: Files -> bool, t: seq<Slots>, u: seq<Slots>, from: nat)
    requires SafeSince(audit, t, from) && t <= u && SafeSince(audit, u, |t|)
    ensures SafeSince(audit, u, from)
  {
    forall i | from <= i < |u| ensures CrashSafe(audit, u[i]) {
      if i < |t| {
        assert u[i] == t[i];
      }
    }
  }

  lemma SafePush(audit: Files -> bool, t: seq<Slots>, from: nat, d: Slots)
    requires SafeSince(audit, t, from) && CrashSafe(audit, d)
    ensures SafeSince(audit, t + [d], from)
  {
  }

  ghost predicate WithinSince(trace: seq<Slots>, from: nat, d: Slots, p: Path, extra: set<Survivor>) {
    from <= |trace| && forall i :: from <= i < |trace| ==> Within(d, trace[i], p, extra)
  }

  lemma WithinExtend(trace: seq<Slots>, from: nat, d: Slots, p: Path, extra: set<Survivor>, next: Slots)
    requires WithinSince(trace, from, d, p, extra) && Within(d, next, p, extra)
    ensures WithinSince(trace + [next], from, d, p, extra)
  {
  }

  lemma SafeFromNoMarker(audit: Files -> bool, trace: seq<Slots>, from: nat, d: Slots, p: Path, extra: set<Survivor>)
    requires NoMarker(d) && p != Complete && WithinSince(trace, from, d, p, extra)
    ensures SafeSince(audit, trace, from)
  {
    forall i | from <= i < |trace| ensures CrashSafe(audit, trace[i]) {
      NoMarkerWithin(audit, d, trace[i], p, extra);
    }
  }

  /** Some state since `from` is `d`. */
  ghost predicate Visits(trace: seq<Slots>, from: nat, d: Slots) {
    exists i :: from <= i < |trace| && trace[i] == d
  }

  class DurableStore {
    var slots: Slots
    var nextTemp: nat
    ghost var trace: seq<Slots>

    /** The trace ends in the current state, and temporaries are unused names. */
    ghost predicate Valid()
      reads this
    {
      trace != [] && trace[|trace| - 1] == slots && forall d, n: nat :: n >= nextTemp ==> Temp(d, n) !in slots
    }

    /** A store opened on a disk at rest; `firstTemp` starts the unused names. */
    constructor (slots: Slots, firstTemp: nat)
      requires forall d, n: nat :: n >= firstTemp ==> Temp(d, n) !in slots
      ensures Valid() && this.slots == slots && trace == [slots]
    {
      this.slots, nextTemp, trace := slots, firstTemp, [slots];
    }

    // ------------------------------------------------------------------- primitives
    // Each may fail and then leaves the disk as it was.

    method WriteTemp(p: Path, data: Bytes) returns (ok: bool)
      requires Valid() && p.Temp? && p.n < nextTemp
      modifies this`slots, this`trace
      ensures Valid() && trace == old(trace) + [slots]
      ensures slots == if ok then Written(old(slots), p, data) else old(slots)
    {
      ok := *;
      if ok {
        slots := Written(slots, p, data);
      }
      trace := trace + [slots];
    }

    /** Shorten the journal in place. */
    method SetLength(p: Path, data: Bytes) returns (ok: bool)
      requires Valid() && p == Journal
      modifies this`slots, this`trace
      ensures Valid() && trace == old(trace) + [slots]
      ensures slots == if ok then Written(old(slots), p, data) else old(slots)
    {
      ok := *;
      if ok {
        slots := Written(slots, p, data);
      }
      trace := trace + [slots];
    }

    method SyncFile(p: Path) returns (ok: bool)
      requires Valid() && p in slots && (p.Temp? ==> p.n < nextTemp)
      modifies this`slots, this`trace
      ensures Valid() && trace == old(trace) + [slots]
      ensures slots == if ok then FileSynced(old(slots), p) else old(slots)
    {
      ok := *;
      if ok {
        slots := FileSynced(slots, p);
      }
      trace := trace + [slots];
    }

    method Rename(from: Path, to: Path) returns (ok: bool)
      requires Valid() && from.Temp? && from.n < nextTemp && !to.Temp?
      modifies this`slots, this`trace
      ensures Valid() && trace == old(trace) + [slots]
      ensures slots == if ok then Renamed(old(slots), from, to) else old(slots)
    {
      ok := *;
      if ok {
        slots := Renamed(slots, from, to);
      }
      trace := trace + [slots];
    }

    method Unlink(p: Path) returns (ok: bool)
      requires Valid() && p in slots
      modifies this`slots, this`trace
      ensures Valid() && trace == old(trace) + [slots]
      ensures slots == if ok then Unlinked(old(slots), p) else old(slots)
    {
      ok := *;
      if ok {
        slots := Unlinked(slots, p);
      }
      trace := trace + [slots];
    }

    method SyncDir(dir: Dir) returns (ok: bool)
      requires Valid()
      modifies this`slots, this`trace
      ensures Valid() && trace == old(trace) + [slots]
      ensures slots == if ok then DirSynced(old(slots), dir) else old(slots)
    {
      ok := *;
      if ok {
        slots := DirSynced(slots, dir);
      }
      trace := trace + [slots];
    }

    // --------------------------------------------------------------- atomic writes

    /** Unique temporary, data sync, rename, directory sync. Success leaves the
        new content as the only one that can survive, and settles the rest of
        the directory; every state on the way adds at most the new content. */
    method WriteAtomic(p: Path, data: Bytes) returns (ok: bool)
      requires Valid() && !p.Temp?
      modifies this
      ensures Valid() && old(trace) <= trace
      ensures WithinSince(trace, |old(trace)|, old(slots), p, {Exact(data)})
      ensures Within(old(slots), slots, p, {Exact(data)})
      ensures ok ==> Installed(old(slots), slots, p, data)
      ensures ok ==> Visits(trace, |old(trace)|, Replaced(old(slots), Temp(DirOf(p), old(nextTemp)), p, data))
    {
      var tmp := Temp(DirOf(p), nextTemp);
      nextTemp := nextTemp + 1;
      AtomicSteps(slots, tmp, p, data);
      ghost var d, from := slots, |trace|;
      ok := PutTemp(tmp, data, p);
      if ok {
        ok := InstallTemp(tmp, d, p, data, from);
      }
    }

    /** Write and sync a temporary. */
    method PutTemp(tmp: Path, data: Bytes, ghost p: Path) returns (ok: bool)
      requires Valid() && tmp.Temp? && tmp.n < nextTemp
      requires Within(slots, slots, p, {Exact(data)}) && Within(slots, Written(slots, tmp, data), p, {Exact(data)})
      requires Within(slots, FileSynced(Written(slots, tmp, data), tmp), p, {Exact(data)})
      modifies this`slots, this`trace
      ensures Valid() && old(trace) <= trace
      ensures WithinSince(trace, |old(trace)|, old(slots), p, {Exact(data)}) && Within(old(slots), slots, p, {Exact(data)})
      ensures ok ==> slots == FileSynced(Written(old(slots), tmp, data), tmp)
    {
      ghost var d, from, t0 := slots, |trace|, trace;
      ok := WriteTemp(tmp, data);
      WithinExtend(t0, from, d, p, {Exact(data)}, slots);
      if !ok {
        return;
      }
      ghost var t1 := trace;
      ok := SyncFile(tmp);
      WithinExtend(t1, from, d, p, {Exact(data)}, slots);
      if !ok {
        Discard(tmp, d, p, data, from);
      }
    }

    /** Rename a synced temporary into place and sync the directory. */
    method InstallTemp(tmp: Path, ghost d: Slots, p: Path, ghost data: Bytes, ghost from: nat) returns (ok: bool)
      requires Valid() && tmp.Temp? && !p.Temp? && DirOf(tmp) == DirOf(p) && tmp.n < nextTemp && slots == FileSynced(Written(d, tmp, data), tmp)
      requires WithinSince(trace, from, d, p, {Exact(data)}) && Within(d, slots, p, {Exact(data)})
      requires Within(d, Replaced(d, tmp, p, data), p, {Exact(data)}) && Within(d, DirSynced(Replaced(d, tmp, p, data), DirOf(p)), p, {Exact(data)})
      modifies this`slots, this`trace
      ensures Valid() && old(trace) <= trace
      ensures WithinSince(trace, from, d, p, {Exact(data)}) && Within(d, slots, p, {Exact(data)})
      ensures ok ==> Installed(d, slots, p, data) && Visits(trace, from, Replaced(d, tmp, p, data))
    {
      AtomicInstalls(d, tmp, p, data);
      ghost var t := trace;
      ok := Rename(tmp, p);
      WithinExtend(t, from, d, p, {Exact(data)}, slots);
      if !ok {
        Discard(tmp, d, p, data, from);
        return;
      }
      ghost var u := trace;
      ok := SyncDir(DirOf(p));
      WithinExtend(u, from, d, p, {Exact(data)}, slots);
      assert trace[|u| - 1] == u[|u| - 1] == Replaced(d, tmp, p, data);
    }

    /** Remove an unpublished temporary; its own failure changes nothing. */
    method Discard(tmp: Path, ghost d: Slots, ghost p: Path, ghost data: Bytes, ghost from: nat)
      requires Valid() && tmp.Temp? && tmp in slots
      requires WithinSince(trace, from, d, p, {Exact(data)}) && Within(d, slots, p, {Exact(data)})
      modifies this`slots, this`trace
      ensures Valid() && old(trace) <= trace
      ensures WithinSince(trace, from, d, p, {Exact(data)}) && Within(d, slots, p, {Exact(data)})
    {
      DiscardWithin(d, slots, tmp, p, {Exact(data)});
      ghost var t := trace;
      var removed := Unlink(tmp);
      WithinExtend(t, from, d, p, {Exact(data)}, slots);
    }

    // ------------------------------------------------------------- commit, phase two
    // No marker can survive while bound files are written.

    /** Publish one record; whatever fails, no marker can survive. */
    method Publish(ghost audit: Files -> bool, p: Path, data: Bytes) returns (ok: bool)
      requires Valid() && NoMarker(slots) && !p.Temp? && p != Complete
      modifies this
      ensures Valid() && NoMarker(slots) && old(trace) <= trace && SafeSince(audit, trace, |old(trace)|)
      ensures Within(old(slots), slots, p, {Exact(data)})
      ensures ok ==> Installed(old(slots), slots, p, data)
    {
      ok := WriteAtomic(p, data);
      SafeFromNoMarker(audit, trace, |old(trace)|, old(slots), p, {Exact(data)});
      NoMarkerWithin(audit, old(slots), slots, p, {Exact(data)});
    }

    /** Remove a file of the root directory if present, and sync the removal.
        An absent file is left alone, without a directory sync. */
    method RemoveDurably(ghost audit: Files -> bool, p: Path) returns (ok: bool)
      requires Valid() && NoMarker(slots) && !p.Temp? && p != Complete && DirOf(p) == Root
      modifies this`slots, this`trace
      ensures Valid() && NoMarker(slots) && old(trace) <= trace && SafeSince(audit, trace, |old(trace)|)
      ensures Within(old(slots), slots, p, {Absent})
      ensures ok ==> At(slots, p).now.None?
    {
      if p !in slots || slots[p].now.None? {
        return true;
      }
      RemoveSteps(audit, slots, p);
      ghost var t := trace;
      ok := Unlink(p);
      SafePush(audit, t, |t|, slots);
      if ok {
        ghost var u := trace;
        ok := SyncDir(Root);
        SafePush(audit, u, |t|, slots);
      }
    }

    /** Reuse is no durability certificate: verify and sync every dependency,
        cache hits included, then their directory. */
    method SyncDependencies(env: Env, ghost audit: Files -> bool, deps: seq<BlobDependency>) returns (ok: bool)
      requires Valid() && NoMarker(slots)
      modifies this`slots, this`trace
      ensures Valid() && NoMarker(slots) && old(trace) <= trace && SafeSince(audit, trace, |old(trace)|)
      ensures ok ==> BlobsHeld(env, slots, deps)
      ensures Now(slots) == Now(old(slots))
    {
      for k := 0 to |deps|
        invariant Valid() && NoMarker(slots) && old(trace) <= trace && SafeSince(audit, trace, |old(trace)|)
        invariant Now(slots) == Now(old(slots))
        invariant forall d :: d in deps[..k] ==> BlobSynced(env, slots, d)
      {
        SplitAt(deps, k);
        if !BlobVerifies(env, Now(slots), deps[k].digest, deps[k].size) {
          return false;
        }
        SyncBlobStep(env, audit, slots, deps[..k], deps[k]);
        ok := SyncFile(Blob(deps[k].digest));
        if !ok {
          return false;
        }
      }
      assert deps[..|deps|] == deps;
      ContentSynced(env, audit, slots, deps);
      ok := SyncDir(Content);
    }

    /** Private copies of the metadata pages, and their directory. */
    method PublishPages(ghost audit: Files -> bool, pages: seq<StoredPage>) returns (ok: bool)
      requires Valid() && NoMarker(slots) && DistinctPages(PageDeps(pages))
      modifies this
      ensures Valid() && NoMarker(slots) && old(trace) <= trace && SafeSince(audit, trace, |old(trace)|)
      ensures Keeps(old(slots), slots, IsMetadata)
      ensures ok ==> PagesHeld(slots, pages)
    {
      KeepsItself(slots, IsMetadata);
      for k := 0 to |pages|
        invariant Valid() && NoMarker(slots) && old(trace) <= trace && SafeSince(audit, trace, |old(trace)|)
        invariant Keeps(old(slots), slots, IsMetadata)
        invariant PagesHeld(slots, pages[..k])
      {
        ghost var d, t := slots, trace;
        ok := Publish(audit, PageFile(pages[k].pageId), pages[k].bytes);
        SafeJoin(audit, t, trace, |old(trace)|);
        KeepsThrough(old(slots), d, slots, PageFile(pages[k].pageId), {Exact(pages[k].bytes)}, IsMetadata);
        if !ok {
          return;
        }
        PageHeldStep(d, slots, pages, k);
      }
      assert pages[..|pages|] == pages;
      ghost var d := slots;
      MetadataDirSynced(audit, d, pages);
      ok := SyncDir(Metadata);
      if ok {
        KeepsThrough(old(slots), d, slots, DescriptorFile, {}, IsMetadata);
      }
    }

    /** The metadata of a full snapshot: pages, then descriptor, then index. */
    method PublishMetadata(env: Env, ghost audit: Files -> bool, closure: Closure) returns (ok: bool)
      requires Valid() && NoMarker(slots) && DistinctPages(PageDeps(closure.pages))
      modifies this
      ensures Valid() && NoMarker(slots) && old(trace) <= trace && SafeSince(audit, trace, |old(trace)|)
      ensures Keeps(old(slots), slots, IsMetadata)
      ensures ok ==> MetadataHeld(env, slots, closure)
    {
      ok := PublishPages(audit, closure.pages);
      if !ok {
        return;
      }
      ghost var d, t := slots, trace;
      ok := Publish(audit, DescriptorFile, closure.descriptorBytes);
      SafeJoin(audit, t, trace, |old(trace)|);
      KeepsThrough(old(slots), d, slots, DescriptorFile, {Exact(closure.descriptorBytes)}, IsMetadata);
      if !ok {
        return;
      }
      PagesStayHeld(d, slots, closure.pages, DescriptorFile, {Exact(closure.descriptorBytes)});
      ghost var e, u := slots, trace;
      var index := env.enc(IndexRecord(IndexOf(closure)));
      ok := Publish(audit, IndexFile, index);
      SafeJoin(audit, u, trace, |old(trace)|);
      KeepsThrough(old(slots), e, slots, IndexFile, {Exact(index)}, IsMetadata);
      PagesStayHeld(e, slots, closure.pages, IndexFile, {Exact(index)});
      FrozenWithin(e, slots, DescriptorFile, IndexFile, {Exact(index)});
    }

    /** Write the grant of this commit, or remove a stale one. */
    method PublishGrant(env: Env, ghost audit: Files -> bool, c: Commit) returns (r: Result<()>)
      requires Valid() && NoMarker(slots)
      modifies this
      ensures Valid() && NoMarker(slots) && old(trace) <= trace && SafeSince(audit, trace, |old(trace)|)
      ensures Keeps(old(slots), slots, IsGrant)
      ensures r.Ok? ==> GrantWritten(env, slots, c)
    {
      KeepsItself(slots, IsGrant);
      if c.grant.Some? {
        var granted := env.grantFor(c.grant.value, c.view.snapshotId);
        if granted.Err? {
          return granted;
        }
        var data := env.enc(GrantRecord(c.grant.value));
        var ok := Publish(audit, OfflineGrant, data);
        KeepsThrough(old(slots), old(slots), slots, OfflineGrant, {Exact(data)}, IsGrant);
        return if ok then Ok(()) else Err(Internal);
      }
      var ok := RemoveDurably(audit, OfflineGrant);
      KeepsThrough(old(slots), old(slots), slots, OfflineGrant, {Absent}, IsGrant);
      return if ok then Ok(()) else Err(Internal);
    }

    /** Publish one record of the commit and reach the next stage. */
    method PublishStage(ghost env: Env, ghost audit: Files -> bool, ghost c: Commit, p: Path, data: Bytes, ghost stage: nat) returns (ok: bool)
      requires Valid() && NoMarker(slots) && Stage(env, slots, c, stage) && !p.Temp? && p != Complete && !StagePath(p, stage)
      modifies this
      ensures Valid() && NoMarker(slots) && old(trace) <= trace && SafeSince(audit, trace, |old(trace)|)
      ensures Stage(env, slots, c, stage)
      ensures ok ==> Installed(old(slots), slots, p, data) && (Relevant(p) ==> Holds(slots, p, data))
    {
      ok := Publish(audit, p, data);
      StageStays(env, old(slots), slots, c, stage, p, {Exact(data)});
    }

    /** The compacted journal, then manifest and view. */
    method PublishIdentity(env: Env, ghost audit: Files -> bool, c: Commit, compacted: Bytes) returns (ok: bool)
      requires Valid() && NoMarker(slots) && Stage(env, slots, c, 1)
      modifies this
      ensures Valid() && NoMarker(slots) && old(trace) <= trace && SafeSince(audit, trace, |old(trace)|)
      ensures ok ==> Stage(env, slots, c, 2)
    {
      ghost var from := |trace|;
      ok := PublishStage(env, audit, c, Journal, compacted, 1);
      if ok {
        ghost var t := trace;
        ok := PublishView(env, audit, c);
        SafeJoin(audit, t, trace, from);
      }
    }

    /** Manifest and view. */
    method PublishView(env: Env, ghost audit: Files -> bool, c: Commit) returns (ok: bool)
      requires Valid() && NoMarker(slots) && Stage(env, slots, c, 1)
      modifies this
      ensures Valid() && NoMarker(slots) && old(trace) <= trace && SafeSince(audit, trace, |old(trace)|)
      ensures ok ==> Stage(env, slots, c, 2)
    {
      ok := PublishStage(env, audit, c, ManifestFile, env.enc(ManifestRecord(c.manifest)), 1);
      if !ok {
        return;
      }
      ghost var d, t := slots, trace;
      ok := PublishStage(env, audit, c, View, env.enc(ViewRecord(c.view)), 1);
      SafeJoin(audit, t, trace, |old(trace)|);
      if ok {
        ManifestStaysHeld(env, d, slots, c);
      }
    }

    /** The metadata of a full snapshot, if this is one. */
    method PublishSnapshot(env: Env, ghost audit: Files -> bool, c: Commit) returns (ok: bool)
      requires Valid() && NoMarker(slots) && Stage(env, slots, c, 2) && ValidInput(env, c)
      modifies this
      ensures Valid() && NoMarker(slots) && old(trace) <= trace && SafeSince(audit, trace, |old(trace)|)
      ensures ok ==> Stage(env, slots, c, 3)
    {
      if c.closure.None? {
        return true;
      }
      ok := PublishMetadata(env, audit, c.closure.value);
      if ok {
        StageKept(env, old(slots), slots, c, 2, IsMetadata);
      }
    }

    method PublishGrantStage(env: Env, ghost audit: Files -> bool, c: Commit) returns (r: Result<()>)
      requires Valid() && NoMarker(slots) && Stage(env, slots, c, 3)
      modifies this
      ensures Valid() && NoMarker(slots) && old(trace) <= trace && SafeSince(audit, trace, |old(trace)|)
      ensures r.Ok? ==> Stage(env, slots, c, 4)
    {
      r := PublishGrant(env, audit, c);
      if r.Ok? {
        StageKept(env, old(slots), slots, c, 3, IsGrant);
      }
    }

    // ----------------------------------------------------------------- revoke, publish

    /** Remove the marker durably. An absent marker is taken as revoked without
        a directory sync, so an earlier removal may still be unsynced. */
    method InvalidateComplete(ghost audit: Files -> bool) returns (ok: bool)
      requires Valid() && CrashSafe(audit, slots)
      modifies this`slots, this`trace
      ensures Valid() && old(trace) <= trace && SafeSince(audit, trace, |old(trace)|)
      ensures CrashSafe(audit, slots) && Within(old(slots), slots, Complete, {Absent})
      ensures ok && Settled(old(slots)) ==> NoMarker(slots)
      ensures ok ==> At(slots, Complete).now.None?
      ensures At(old(slots), Complete).now.None? ==> ok && slots == old(slots) && trace == old(trace)
    {
      if Complete !in slots || slots[Complete].now.None? {
        return true;
      }
      RevokeSteps(audit, slots);
      ok := Unlink(Complete);
      if ok {
        ok := SyncDir(Root);
      }
    }

    /** Publish the marker over durable dependencies; on failure revoke it. */
    method PublishMarker(env: Env, ghost audit: Files -> bool, c: Commit) returns (ok: bool)
      requires Valid() && NoMarker(slots) && Bound(env, slots, c) && Acceptable(env, c) && Admits(env, audit)
      modifies this
      ensures Valid() && old(trace) <= trace && SafeSince(audit, trace, |old(trace)|)
      ensures CrashSafe(audit, slots)
      ensures ok ==> Durable(env, slots, c)
    {
      var data := env.enc(MarkerRecord(MarkerOf(env, c)));
      ok := WriteAtomic(Complete, data);
      MarkerSafeSince(env, audit, trace, |old(trace)|, old(slots), c);
      MarkerSafe(env, audit, old(slots), slots, c);
      if ok {
        MarkerDurable(env, old(slots), slots, c);
      } else {
        ghost var t := trace;
        var revoked := InvalidateComplete(audit);
        SafeJoin(audit, t, trace, |old(trace)|);
      }
    }

    /** The pin, and the removal of an old repair note. */
    method PublishPin(env: Env, ghost audit: Files -> bool, c: Commit) returns (ok: bool)
      requires Valid() && NoMarker(slots) && Stage(env, slots, c, 4)
      modifies this
      ensures Valid() && NoMarker(slots) && old(trace) <= trace && SafeSince(audit, trace, |old(trace)|)
      ensures ok ==> Bound(env, slots, c)
    {
      ok := PublishStage(env, audit, c, PinFile, env.enc(PinRecord(PinOf(env, c))), 4);
      if !ok {
        return;
      }
      PinBinds(env, old(slots), slots, c);
      ghost var d, t := slots, trace;
      ok := RemoveDurably(audit, Repair);
      SafeJoin(audit, t, trace, |old(trace)|);
      BoundKept(env, d, slots, c, Repair, {Absent});
    }

    /** Commit a hydrated view: verify and sync its dependencies, publish every
        record the marker binds, and the marker last. */
    method FinishCommit(env: Env, c: Commit, compacted: Bytes) returns (r: Result<CompletionKind>)
      requires Valid() && NoMarker(slots) && RoundTrips(env) && RealDigests(env) && ValidInput(env, c)
      modifies this
      ensures Valid() && old(trace) <= trace && SafeSince(Audit(env), trace, |old(trace)|) && CrashSafe(Audit(env), slots)
      ensures r.Ok? ==> r.value == KindOf(c) && Durable(env, slots, c)
    {
      ghost var audit := Audit(env);
      NoMarkerIsSafe(audit, slots);
      var valid := ValidateManifest(c.manifest, c.closure.Some?);
      if valid.Err? {
        return Err(valid.code);
      }
      if c.closure.Some? {
        if !SameView(c.view, c.closure.value) {
          return Err(ViewConflict);
        }
        var linked := VerifyLinks(env, Now(slots), c.manifest);
        if linked.Err? {
          return Err(linked.code);
        }
      }
      var ok := SyncDependencies(env, audit, valid.value.0);
      NoMarkerIsSafe(audit, slots);
      if !ok {
        return Err(IntegrityError);
      }
      assert Stage(env, slots, c, 1);
      r := PublishCommit(env, audit, c, compacted, |old(trace)|);
    }

    method PublishCommit(env: Env, ghost audit: Files -> bool, c: Commit, compacted: Bytes, ghost from: nat) returns (r: Result<CompletionKind>)
      requires Valid() && NoMarker(slots) && Stage(env, slots, c, 1) && SafeSince(audit, trace, from)
      requires RoundTrips(env) && RealDigests(env) && ValidInput(env, c) && ManifestOk(c.manifest, c.closure.Some?)
      requires c.closure.Some? ==> SameView(c.view, c.closure.value)
      requires Admits(env, audit)
      modifies this
      ensures Valid() && old(trace) <= trace && SafeSince(audit, trace, from) && CrashSafe(audit, slots)
      ensures r.Ok? ==> r.value == KindOf(c) && Durable(env, slots, c)
    {
      NoMarkerIsSafe(audit, slots);
      ghost var t := trace;
      var ok := PublishIdentity(env, audit, c, compacted);
      SafeJoin(audit, t, trace, from);
      NoMarkerIsSafe(audit, slots);
      if !ok {
        return Err(Internal);
      }
      t := trace;
      ok := PublishSnapshot(env, audit, c);
      SafeJoin(audit, t, trace, from);
      NoMarkerIsSafe(audit, slots);
      if !ok {
        return Err(Internal);
      }
      t := trace;
      var granted := PublishGrantStage(env, audit, c);
      SafeJoin(audit, t, trace, from);
      NoMarkerIsSafe(audit, slots);
      if granted.Err? {
        return Err(granted.code);
      }
      t := trace;
      ok := PublishPin(env, audit, c);
      SafeJoin(audit, t, trace, from);
      NoMarkerIsSafe(audit, slots);
      if !ok {
        return Err(Internal);
      }
      t := trace;
      ok := PublishMarker(env, audit, c);
      SafeJoin(audit, t, trace, from);
      return if ok then Ok(KindOf(c)) else Err(Internal);
    }
  }

  /** The states a durable removal passes through, while no marker can survive. */
  lemma RemoveSteps(audit: Files -> bool, d: Slots, p: Path)
    requires NoMarker(d) && p != Complete
    ensures var removed := Unlinked(d, p);
            var gone := DirSynced(removed, Root);
            Within(d, d, p, {Absent}) && Within(d, removed, p, {Absent}) && Within(d, gone, p, {Absent}) &&
            NoMarker(removed) && NoMarker(gone) && CrashSafe(audit, d) && CrashSafe(audit, removed) && CrashSafe(audit, gone)
  {
    var removed := Unlinked(d, p);
    var gone := DirSynced(removed, Root);
    UnlinkedWithin(d, p);
    DirSyncedWithin(removed, Root, p, {Absent});
    WithinTransitive(d, removed, gone, p, {Absent});
    NoMarkerIsSafe(audit, d);
    NoMarkerWithin(audit, d, removed, p, {Absent});
    NoMarkerWithin(audit, d, gone, p, {Absent});
  }

  lemma DiscardWithin(d: Slots, e: Slots, tmp: Path, p: Path, extra: set<Survivor>)
    requires tmp.Temp? && Within(d, e, p, extra)
    ensures Within(d, Unlinked(e, tmp), p, extra)
  {
    forall q | Relevant(q) ensures PathWithin(d, Unlinked(e, tmp), q, if q == p then extra else {}) {
      assert PathWithin(d, e, q, if q == p then extra else {});
      assert At(Unlinked(e, tmp), q) == At(e, q);
    }
  }

  /** The four states an atomic write passes through. */
  lemma AtomicSteps(d: Slots, tmp: Path, p: Path, data: Bytes)
    requires tmp.Temp? && !p.Temp? && DirOf(tmp) == DirOf(p)
    ensures var written := Written(d, tmp, data);
            var synced := FileSynced(written, tmp);
            var renamed := Renamed(synced, tmp, p);
            var done := DirSynced(renamed, DirOf(p));
            Within(d, d, p, {Exact(data)}) && Within(d, written, p, {Exact(data)}) && Within(d, synced, p, {Exact(data)}) &&
            Within(d, renamed, p, {Exact(data)}) && Within(d, done, p, {Exact(data)})
  {
    var written := Written(d, tmp, data);
    var synced := FileSynced(written, tmp);
    var renamed := Renamed(synced, tmp, p);
    var done := DirSynced(renamed, DirOf(p));
    WrittenWithin(d, tmp, data);
    FileSyncedWithin(written, tmp, data, p);
    WithinTransitive(d, written, synced, p, {Exact(data)});
    RenamedWithin(synced, tmp, p, data);
    WithinTransitive(d, synced, renamed, p, {Exact(data)});
    DirSyncedWithin(renamed, DirOf(p), p, {Exact(data)});
    WithinTransitive(d, renamed, done, p, {Exact(data)});
  }

  lemma AtomicInstalls(d: Slots, tmp: Path, p: Path, data: Bytes)
    requires tmp.Temp? && !p.Temp? && DirOf(tmp) == DirOf(p)
    ensures Installed(d, DirSynced(Replaced(d, tmp, p, data), DirOf(p)), p, data)
  {
    var renamed := Replaced(d, tmp, p, data);
    var done := DirSynced(renamed, DirOf(p));
    forall q | q != p && !q.Temp? ensures At(done, q) == if DirOf(q) == DirOf(p) then At(d, q).(older := {}) else At(d, q) {
      assert At(renamed, q) == At(d, q);
    }
  }

  /** The result of a finished atomic write: `p` is frozen to its data and the
      other files of its directory to what they showed. */
  ghost predicate Installed(d: Slots, d': Slots, p: Path, data: Bytes) {
    At(d', p) == Slot(Some(data), true, {}) &&
    forall q :: q != p && !q.Temp? ==> At(d', q) == if DirOf(q) == DirOf(p) then At(d, q).(older := {}) else At(d, q)
  }

  // ----------------------------------------------------------- what has become durable

  /** `p` shows `data` and nothing else can survive there. */
  ghost predicate Holds(d: Slots, p: Path, data: Bytes) {
    Frozen(d, p) && At(d, p).now == Some(data)
  }

  ghost predicate BlobSynced(env: Env, d: Slots, b: BlobDependency) {
    BlobVerifies(env, Now(d), b.digest, b.size) && At(d, Blob(b.digest)).synced
  }

  ghost predicate BlobHeld(env: Env, d: Slots, b: BlobDependency) {
    BlobVerifies(env, Now(d), b.digest, b.size) && Frozen(d, Blob(b.digest))
  }

  ghost predicate BlobsHeld(env: Env, d: Slots, deps: seq<BlobDependency>) {
    forall b :: b in deps ==> BlobHeld(env, d, b)
  }

  lemma SyncBlobStep(env: Env, audit: Files -> bool, d: Slots, done: seq<BlobDependency>, b: BlobDependency)
    requires NoMarker(d) && BlobVerifies(env, Now(d), b.digest, b.size)
    requires forall x :: x in done ==> BlobSynced(env, d, x)
    ensures var d' := FileSynced(d, Blob(b.digest));
            Blob(b.digest) in d && Now(d') == Now(d) && NoMarker(d') && CrashSafe(audit, d') && CrashSafe(audit, d) &&
            forall x :: x in done + [b] ==> BlobSynced(env, d', x)
  {
    var p := Blob(b.digest);
    var d' := FileSynced(d, p);
    FileSyncedWithin(d, p, Now(d)[p], p);
    NoMarkerWithin(audit, d, d', p, {Exact(Now(d)[p])});
    NoMarkerIsSafe(audit, d);
    assert Now(d') == Now(d);
  }

  lemma ContentSynced(env: Env, audit: Files -> bool, d: Slots, deps: seq<BlobDependency>)
    requires NoMarker(d) && forall x :: x in deps ==> BlobSynced(env, d, x)
    ensures var d' := DirSynced(d, Content);
            Now(d') == Now(d) && NoMarker(d') && CrashSafe(audit, d') && CrashSafe(audit, d) && BlobsHeld(env, d', deps)
  {
    var d' := DirSynced(d, Content);
    DirSyncedWithin(d, Content, View, {});
    NoMarkerWithin(audit, d, d', View, {});
    NoMarkerIsSafe(audit, d);
    assert Now(d') == Now(d);
  }

  // -------------------------------------------------------------- what a step leaves

  predicate IsMetadata(p: Path) {
    p.PageFile? || p == DescriptorFile || p == IndexFile
  }

  predicate IsGrant(p: Path) {
    p == OfflineGrant
  }

  /** Files outside `touched` show what they showed, and stay frozen. */
  ghost predicate Keeps(d: Slots, d': Slots, touched: Path -> bool) {
    forall q :: Relevant(q) && !touched(q) ==> At(d', q).now == At(d, q).now && (Frozen(d, q) ==> Frozen(d', q))
  }

  lemma KeepsItself(d: Slots, touched: Path -> bool)
    ensures Keeps(d, d, touched)
  {
  }

  lemma KeepsThrough(d: Slots, e: Slots, f: Slots, p: Path, extra: set<Survivor>, touched: Path -> bool)
    requires Keeps(d, e, touched) && Within(e, f, p, extra) && touched(p)
    ensures Keeps(d, f, touched)
  {
    forall q | Relevant(q) && !touched(q) ensures At(f, q).now == At(d, q).now && (Frozen(d, q) ==> Frozen(f, q)) {
      if Frozen(d, q) {
        FrozenWithin(e, f, q, p, extra);
      }
    }
  }

  ghost predicate PagesHeld(d: Slots, pages: seq<StoredPage>) {
    forall p :: p in pages ==> Holds(d, PageFile(p.pageId), p.bytes)
  }

  ghost predicate MetadataHeld(env: Env, d: Slots, closure: Closure) {
    PagesHeld(d, closure.pages) && Holds(d, DescriptorFile, closure.descriptorBytes) &&
    Holds(d, IndexFile, env.enc(IndexRecord(IndexOf(closure))))
  }

  lemma PagesStayHeld(d: Slots, d': Slots, pages: seq<StoredPage>, p: Path, extra: set<Survivor>)
    requires PagesHeld(d, pages) && Within(d, d', p, extra) && forall x :: x in pages ==> PageFile(x.pageId) != p
    ensures PagesHeld(d', pages)
  {
    forall x | x in pages ensures Holds(d', PageFile(x.pageId), x.bytes) {
      FrozenWithin(d, d', PageFile(x.pageId), p, extra);
    }
  }

  lemma PageHeldStep(d: Slots, d': Slots, pages: seq<StoredPage>, k: nat)
    requires k < |pages| && DistinctPages(PageDeps(pages)) && PagesHeld(d, pages[..k])
    requires Within(d, d', PageFile(pages[k].pageId), {Exact(pages[k].bytes)})
    requires Installed(d, d', PageFile(pages[k].pageId), pages[k].bytes)
    ensures PagesHeld(d', pages[..k + 1])
  {
    forall x | x in pages[..k] ensures x.pageId != pages[k].pageId {
      var i :| 0 <= i < k && pages[i] == x;
      assert PageDeps(pages)[i].pageId != PageDeps(pages)[k].pageId;
    }
    PagesStayHeld(d, d', pages[..k], PageFile(pages[k].pageId), {Exact(pages[k].bytes)});
    SplitAt(pages, k);
  }

  lemma MetadataDirSynced(audit: Files -> bool, d: Slots, pages: seq<StoredPage>)
    requires NoMarker(d) && PagesHeld(d, pages)
    ensures var d' := DirSynced(d, Metadata);
            Within(d, d', DescriptorFile, {}) && NoMarker(d') && CrashSafe(audit, d') && CrashSafe(audit, d) && PagesHeld(d', pages)
  {
    var d' := DirSynced(d, Metadata);
    DirSyncedWithin(d, Metadata, DescriptorFile, {});
    NoMarkerWithin(audit, d, d', DescriptorFile, {});
    NoMarkerIsSafe(audit, d);
    PagesStayHeld(d, d', pages, DescriptorFile, {});
  }

  ghost predicate GrantWritten(env: Env, d: Slots, c: Commit) {
    if c.grant.None? then At(d, OfflineGrant).now.None?
    else Holds(d, OfflineGrant, env.enc(GrantRecord(c.grant.value))) && env.grantFor(c.grant.value, c.view.snapshotId).Ok?
  }

  // -------------------------------------------------------------- stages of the commit

  ghost function Only(p: Path): Path -> bool {
    q => q == p
  }

  lemma KeepsOne(d: Slots, d': Slots, p: Path, extra: set<Survivor>)
    requires Within(d, d', p, extra)
    ensures Keeps(d, d', Only(p))
  {
    KeepsItself(d, Only(p));
    KeepsThrough(d, d, d', p, extra, Only(p));
  }

  /** Files whose content the stage already relies on. */
  predicate StagePath(p: Path, stage: nat) {
    (stage >= 1 && p.Blob?) || (stage >= 2 && (p == ManifestFile || p == View)) ||
    (stage >= 3 && IsMetadata(p)) || (stage >= 4 && p == OfflineGrant)
  }

  ghost predicate ContentHeld(env: Env, d: Slots, c: Commit) {
    BlobsHeld(env, d, Dependencies(c.manifest)) && (c.closure.Some? ==> LinksVerify(env, Now(d), c.manifest))
  }

  /** 1: blobs durable; 2: manifest and view; 3: metadata; 4: grant as wanted. */
  ghost predicate Stage(env: Env, d: Slots, c: Commit, stage: nat) {
    (stage >= 1 ==> ContentHeld(env, d, c)) &&
    (stage >= 2 ==> Holds(d, ManifestFile, env.enc(ManifestRecord(c.manifest))) && Holds(d, View, env.enc(ViewRecord(c.view)))) &&
    (stage >= 3 && c.closure.Some? ==> MetadataHeld(env, d, c.closure.value)) &&
    (stage >= 4 ==> GrantWritten(env, d, c))
  }

  lemma ContentKept(env: Env, d: Slots, d': Slots, c: Commit, touched: Path -> bool)
    requires ContentHeld(env, d, c) && Keeps(d, d', touched) && forall x :: !touched(Blob(x))
    ensures ContentHeld(env, d', c)
  {
    forall x ensures Blob(x) in Now(d) <==> Blob(x) in Now(d')
      ensures Blob(x) in Now(d) ==> Now(d)[Blob(x)] == Now(d')[Blob(x)]
    {
      assert At(d', Blob(x)).now == At(d, Blob(x)).now;
    }
    forall b | b in Dependencies(c.manifest) ensures BlobHeld(env, d', b) {
      assert BlobHeld(env, d, b) && Relevant(Blob(b.digest));
    }
    if c.closure.Some? {
      forall f | f in c.manifest && f.fsKind == "symlink" ensures LinkVerifies(env, Now(d'), f) {
        assert LinkVerifies(env, Now(d), f);
      }
    }
  }

  ghost predicate Avoids(touched: Path -> bool, stage: nat) {
    forall p :: StagePath(p, stage) ==> !touched(p)
  }

  lemma StageKept(env: Env, d: Slots, d': Slots, c: Commit, stage: nat, touched: Path -> bool)
    requires Stage(env, d, c, stage) && Keeps(d, d', touched) && Avoids(touched, stage)
    ensures Stage(env, d', c, stage)
  {
    if stage >= 1 {
      ContentKept(env, d, d', c, touched);
    }
    if stage >= 2 {
      assert Relevant(ManifestFile) && Relevant(View);
    }
    if stage >= 3 && c.closure.Some? {
      MetadataKept(env, d, d', c.closure.value, touched);
    }
    if stage >= 4 {
      assert Relevant(OfflineGrant);
    }
  }

  lemma MetadataKept(env: Env, d: Slots, d': Slots, closure: Closure, touched: Path -> bool)
    requires MetadataHeld(env, d, closure) && Keeps(d, d', touched) && forall p :: IsMetadata(p) ==> !touched(p)
    ensures MetadataHeld(env, d', closure)
  {
    assert Relevant(DescriptorFile) && Relevant(IndexFile) && IsMetadata(DescriptorFile) && IsMetadata(IndexFile);
    forall p | p in closure.pages ensures Holds(d', PageFile(p.pageId), p.bytes) {
      assert Holds(d, PageFile(p.pageId), p.bytes) && Relevant(PageFile(p.pageId)) && IsMetadata(PageFile(p.pageId));
    }
  }

  lemma StageStays(env: Env, d: Slots, d': Slots, c: Commit, stage: nat, p: Path, extra: set<Survivor>)
    requires Stage(env, d, c, stage) && Within(d, d', p, extra) && !StagePath(p, stage)
    ensures Stage(env, d', c, stage)
  {
    KeepsOne(d, d', p, extra);
    StageKept(env, d, d', c, stage, Only(p));
  }

  lemma ManifestStaysHeld(env: Env, d: Slots, d': Slots, c: Commit)
    requires Holds(d, ManifestFile, env.enc(ManifestRecord(c.manifest)))
    requires Installed(d, d', View, env.enc(ViewRecord(c.view)))
    ensures Holds(d', ManifestFile, env.enc(ManifestRecord(c.manifest)))
  {
  }

  // ------------------------------------------------------------------- the marker

  /** The marker is visible, or cannot survive: no removal is left unsynced. */
  ghost predicate Settled(d: Slots) {
    At(d, Complete).now.Some? || NoMarker(d)
  }

  /** All that the marker of `c` binds is frozen on disk. */
  ghost predicate Bound(env: Env, d: Slots, c: Commit) {
    Stage(env, d, c, 4) && Holds(d, PinFile, env.enc(PinRecord(PinOf(env, c)))) && Frozen(d, OfflineGrant)
  }

  /** What the commit has checked of its inputs when it publishes the marker. */
  ghost predicate Acceptable(env: Env, c: Commit) {
    RoundTrips(env) && RealDigests(env) && ValidInput(env, c) && ManifestOk(c.manifest, c.closure.Some?) &&
    (c.closure.Some? ==> SameView(c.view, c.closure.value))
  }

  /** The audit passes whatever a reopen accepts. */
  ghost predicate Admits(env: Env, audit: Files -> bool) {
    forall s :: Verifies(env, s) ==> audit(s)
  }

  /** Whatever the crash, the marker is there and the audit accepts it with the
      committed manifest and kind. */
  ghost predicate Durable(env: Env, d: Slots, c: Commit) {
    forall s :: Outcome(d, s) ==> Complete in s && Accepts(env, s, Committed(KindOf(c), c.manifest))
  }

  lemma RevokeSteps(audit: Files -> bool, d: Slots)
    requires CrashSafe(audit, d) && At(d, Complete).now.Some?
    ensures var removed := Unlinked(d, Complete);
            var gone := DirSynced(removed, Root);
            Within(d, d, Complete, {Absent}) && Within(d, removed, Complete, {Absent}) && Within(d, gone, Complete, {Absent}) &&
            CrashSafe(audit, removed) && CrashSafe(audit, gone) && NoMarker(gone) && At(gone, Complete).now.None?
  {
    var removed := Unlinked(d, Complete);
    var gone := DirSynced(removed, Root);
    UnlinkedWithin(d, Complete);
    SafeWithin(audit, d, removed, Complete, {Absent});
    DirSyncedWithin(removed, Root, Complete, {Absent});
    SafeWithin(audit, removed, gone, Complete, {Absent});
    WithinTransitive(d, removed, gone, Complete, {Absent});
  }

  lemma PinBinds(env: Env, d: Slots, d': Slots, c: Commit)
    requires Stage(env, d', c, 4) && Installed(d, d', PinFile, env.enc(PinRecord(PinOf(env, c))))
    ensures Bound(env, d', c)
  {
    assert At(d', OfflineGrant) == At(d, OfflineGrant).(older := {});
  }

  lemma BoundKept(env: Env, d: Slots, d': Slots, c: Commit, p: Path, extra: set<Survivor>)
    requires Bound(env, d, c) && Within(d, d', p, extra) && (p == Complete || !Relevant(p))
    ensures Bound(env, d', c)
  {
    StageStays(env, d, d', c, 4, p, extra);
    PinStays(d, d', env.enc(PinRecord(PinOf(env, c))), p, extra);
  }

  lemma PinStays(d: Slots, d': Slots, pin: Bytes, p: Path, extra: set<Survivor>)
    requires Holds(d, PinFile, pin) && Frozen(d, OfflineGrant) && Within(d, d', p, extra) && (p == Complete || !Relevant(p))
    ensures Holds(d', PinFile, pin) && Frozen(d', OfflineGrant)
  {
    FrozenWithin(d, d', PinFile, p, extra);
    FrozenWithin(d, d', OfflineGrant, p, extra);
  }

  /** Bound files read back the same after any crash. */
  lemma BoundReadsBack(env: Env, d: Slots, s: Files, c: Commit)
    requires Bound(env, d, c) && OneSize(c.manifest) && Outcome(d, s)
    ensures HoldsBound(env, s, c)
  {
    FrozenOutcome(d, s, View);
    FrozenOutcome(d, s, ManifestFile);
    FrozenOutcome(d, s, PinFile);
    FrozenOutcome(d, s, OfflineGrant);
    BlobsReadBack(env, d, s, c);
    if c.closure.Some? {
      MetadataStays(env, d, s, c.closure.value);
    }
  }

  lemma MetadataStays(env: Env, d: Slots, s: Files, closure: Closure)
    requires MetadataHeld(env, d, closure) && Outcome(d, s)
    ensures HoldsMetadata(env, s, closure)
  {
    FrozenOutcome(d, s, DescriptorFile);
    FrozenOutcome(d, s, IndexFile);
    forall p | p in closure.pages ensures PageFile(p.pageId) in s && s[PageFile(p.pageId)] == p.bytes {
      assert Holds(d, PageFile(p.pageId), p.bytes);
      FrozenOutcome(d, s, PageFile(p.pageId));
    }
  }

  lemma BlobsReadBack(env: Env, d: Slots, s: Files, c: Commit)
    requires ContentHeld(env, d, c) && OneSize(c.manifest) && Outcome(d, s)
    ensures BlobsVerify(env, s, Dependencies(c.manifest))
    ensures c.closure.Some? ==> LinksVerify(env, s, c.manifest)
  {
    forall b | b in Dependencies(c.manifest) ensures BlobVerifies(env, s, b.digest, b.size) {
      assert BlobHeld(env, d, b);
      FrozenOutcome(d, s, Blob(b.digest));
    }
    if c.closure.Some? {
      DependenciesExact(c.manifest);
      forall f | f in c.manifest && f.fsKind == "symlink" ensures LinkVerifies(env, s, f) {
        assert LinkVerifies(env, Now(d), f) && BlobHeld(env, d, BlobDependency(f.contentDigest, f.size));
        FrozenOutcome(d, s, Blob(f.contentDigest));
      }
    }
  }

  lemma MarkerOutcome(env: Env, d: Slots, s: Files, c: Commit)
    requires Bound(env, d, c) && Acceptable(env, c) && Outcome(d, s)
    requires Complete in s && s[Complete] == env.enc(MarkerRecord(MarkerOf(env, c)))
    ensures Accepts(env, s, Committed(KindOf(c), c.manifest))
  {
    BoundReadsBack(env, d, s, c);
    WriterVerifierAgree(env, s, c);
  }

  lemma MarkerIs(d: Slots, d': Slots, s: Files, data: Bytes)
    requires NoMarker(d) && Within(d, d', Complete, {Exact(data)}) && Outcome(d', s) && Complete in s
    ensures s[Complete] == data
  {
    assert PathWithin(d, d', Complete, {Exact(data)});
    assert Possible(d', s, Complete);
  }

  /** Over frozen dependencies a possibly surviving marker always verifies. */
  lemma MarkerSafe(env: Env, audit: Files -> bool, d: Slots, d': Slots, c: Commit)
    requires NoMarker(d) && Bound(env, d, c) && Acceptable(env, c) && Admits(env, audit)
    requires Within(d, d', Complete, {Exact(env.enc(MarkerRecord(MarkerOf(env, c))))})
    ensures CrashSafe(audit, d')
  {
    BoundKept(env, d, d', c, Complete, {Exact(env.enc(MarkerRecord(MarkerOf(env, c))))});
    forall s | Outcome(d', s) && Complete in s ensures Verifies(env, s) {
      MarkerIs(d, d', s, env.enc(MarkerRecord(MarkerOf(env, c))));
      MarkerOutcome(env, d', s, c);
    }
  }

  lemma MarkerSafeSince(env: Env, audit: Files -> bool, trace: seq<Slots>, from: nat, d: Slots, c: Commit)
    requires NoMarker(d) && Bound(env, d, c) && Acceptable(env, c) && Admits(env, audit)
    requires WithinSince(trace, from, d, Complete, {Exact(env.enc(MarkerRecord(MarkerOf(env, c))))})
    ensures SafeSince(audit, trace, from)
  {
    forall i | from <= i < |trace| ensures CrashSafe(audit, trace[i]) {
      MarkerSafe(env, audit, d, trace[i], c);
    }
  }

  lemma MarkerDurable(env: Env, d: Slots, d': Slots, c: Commit)
    requires NoMarker(d) && Bound(env, d, c) && Acceptable(env, c)
    requires Within(d, d', Complete, {Exact(env.enc(MarkerRecord(MarkerOf(env, c))))})
    requires Installed(d, d', Complete, env.enc(MarkerRecord(MarkerOf(env, c))))
    ensures Durable(env, d', c)
  {
    BoundKept(env, d, d', c, Complete, {Exact(env.enc(MarkerRecord(MarkerOf(env, c))))});
    forall s | Outcome(d', s) ensures Complete in s && Accepts(env, s, Committed(KindOf(c), c.manifest)) {
      assert Frozen(d', Complete);
      FrozenOutcome(d', s, Complete);
      MarkerOutcome(env, d', s, c);
    }
  }
}
