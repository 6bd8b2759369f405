/** A disk whose unsynced effects may or may not survive a crash. */
module DurableDisk {
  import opened Base
  import opened CommitRecords

  /** What may be found at a path after a crash. */
  datatype Survivor = Absent | Exact(data: Bytes) | Garbage

  /** One path: the visible content, whether that content is synced, and what
      else may reappear because the directory was not synced since. */
  datatype Slot = Slot(now: Option<Bytes>, synced: bool, older: set<Survivor>)

  type Slots = map<Path, Slot>

  const EMPTY_SLOT := Slot(None, true, {})

  function At(d: Slots, p: Path): Slot {
    if p in d then d[p] else EMPTY_SLOT
  }

  function Latest(s: Slot): Survivor {
    if s.now.None? then Absent else if s.synced then Exact(s.now.value) else Garbage
  }

  function Survivors(s: Slot): set<Survivor> {
    s.older + {Latest(s)}
  }

  function MayBe(d: Slots, p: Path): set<Survivor> {
    Survivors(At(d, p))
  }

  /** Paths the audit reads; journal, repair note and temporaries are not. */
  predicate Relevant(p: Path) {
    !p.Temp? && p != Journal && p != Repair
  }

  /** `s` is a possible content of the disk after a crash in state `d`. */
  ghost predicate Outcome(d: Slots, s: Files) {
    forall p :: Relevant(p) ==> Possible(d, s, p)
  }

  ghost predicate Possible(d: Slots, s: Files, p: Path) {
    if p in s then Garbage in MayBe(d, p) || Exact(s[p]) in MayBe(d, p) else Absent in MayBe(d, p)
  }

  /** The safety property: a completion marker that survives passes the audit. */
  ghost predicate CrashSafe(audit: Files -> bool, d: Slots) {
    forall s :: Outcome(d, s) && Complete in s ==> audit(s)
  }

  /** The audit a reopen performs. */
  ghost predicate Verifies(env: Env, s: Files) {
    exists c :: Accepts(env, s, c)
  }

  ghost function Audit(env: Env): Files -> bool {
    s => Verifies(env, s)
  }

  function Now(d: Slots): Files {
    map p | p in d && d[p].now.Some? :: d[p].now.value
  }

  // --------------------------------------------------------------------- primitives

  function Written(d: Slots, p: Path, data: Bytes): Slots {
    d[p := Slot(Some(data), false, MayBe(d, p))]
  }

  function FileSynced(d: Slots, p: Path): Slots {
    d[p := At(d, p).(synced := true)]
  }

  function Renamed(d: Slots, from: Path, to: Path): Slots {
    d[to := Slot(At(d, from).now, At(d, from).synced, MayBe(d, to))][from := Slot(None, true, MayBe(d, from))]
  }

  function Unlinked(d: Slots, p: Path): Slots {
    d[p := Slot(None, true, MayBe(d, p))]
  }

  /** The state between the rename of an atomic write and its directory sync. */
  function Replaced(d: Slots, tmp: Path, p: Path, data: Bytes): Slots {
    Renamed(FileSynced(Written(d, tmp, data), tmp), tmp, p)
  }

  function DirSynced(d: Slots, dir: Dir): Slots {
    map p | p in d :: if DirOf(p) == dir then d[p].(older := {}) else d[p]
  }

  // ------------------------------------------------------- how states relate in a run

  /** From `d` to `d'` only `p` gained possible survivors, among `extra`, and no
      other path the audit reads changed its visible content. */
  ghost predicate Within(d: Slots, d': Slots, p: Path, extra: set<Survivor>) {
    forall q :: Relevant(q) ==> PathWithin(d, d', q, if q == p then extra else {}) && (q != p ==> At(d', q).now == At(d, q).now)
  }

  ghost predicate PathWithin(d: Slots, d': Slots, q: Path, extra: set<Survivor>) {
    MayBe(d', q) <= MayBe(d, q) + extra
  }

  lemma WithinTransitive(d: Slots, e: Slots, f: Slots, p: Path, extra: set<Survivor>)
    requires Within(d, e, p, extra) && Within(e, f, p, extra)
    ensures Within(d, f, p, extra)
  {
    forall q | Relevant(q) ensures PathWithin(d, f, q, if q == p then extra else {}) && (q != p ==> At(f, q).now == At(d, q).now) {
      assert PathWithin(d, e, q, if q == p then extra else {});
      assert PathWithin(e, f, q, if q == p then extra else {});
    }
  }

  /** The path has exactly one possible content after a crash: what is visible. */
  ghost predicate Frozen(d: Slots, p: Path) {
    MayBe(d, p) == {Latest(At(d, p))} && Latest(At(d, p)) != Garbage
  }

  lemma FrozenOutcome(d: Slots, s: Files, p: Path)
    requires Outcome(d, s) && Relevant(p) && Frozen(d, p)
    ensures p in s <==> p in Now(d)
    ensures p in s ==> s[p] == Now(d)[p]
  {
    assert Possible(d, s, p);
  }

  lemma FrozenWithin(d: Slots, d': Slots, q: Path, p: Path, extra: set<Survivor>)
    requires Within(d, d', p, extra) && Relevant(q) && q != p && Frozen(d, q)
    ensures Frozen(d', q) && At(d', q).now == At(d, q).now
  {
    assert PathWithin(d, d', q, {});
    assert Latest(At(d', q)) in MayBe(d', q);
  }

  /** No marker can survive. */
  ghost predicate NoMarker(d: Slots) {
    MayBe(d, Complete) == {Absent}
  }

  lemma NoMarkerIsSafe(audit: Files -> bool, d: Slots)
    requires NoMarker(d)
    ensures CrashSafe(audit, d)
  {
    forall s | Outcome(d, s) ensures Complete !in s {
      assert Possible(d, s, Complete);
    }
  }

  lemma NoMarkerWithin(audit: Files -> bool, d: Slots, d': Slots, p: Path, extra: set<Survivor>)
    requires NoMarker(d) && Within(d, d', p, extra) && p != Complete
    ensures NoMarker(d') && CrashSafe(audit, d')
  {
    assert PathWithin(d, d', Complete, {});
    assert Latest(At(d', Complete)) in MayBe(d', Complete);
    NoMarkerIsSafe(audit, d');
  }

  /** Losing possible survivors keeps safety, and so does the marker possibly
      being gone. */
  lemma SafeWithin(audit: Files -> bool, d: Slots, d': Slots, p: Path, extra: set<Survivor>)
    requires CrashSafe(audit, d) && Within(d, d', p, extra)
    requires extra == {} || !Relevant(p) || (p == Complete && extra <= {Absent})
    ensures CrashSafe(audit, d')
  {
    forall s | Outcome(d', s) && Complete in s ensures audit(s) {
      forall q | Relevant(q) ensures Possible(d, s, q) {
        assert Possible(d', s, q);
        assert PathWithin(d, d', q, if q == p then extra else {});
      }
    }
  }

  // ------------------------------------------------------- each primitive stays within

  lemma WrittenWithin(d: Slots, p: Path, data: Bytes)
    requires !Relevant(p)
    ensures forall q, extra :: Within(d, Written(d, p, data), q, extra)
  {
    forall q, extra ensures Within(d, Written(d, p, data), q, extra) {
      forall r | Relevant(r) ensures PathWithin(d, Written(d, p, data), r, if r == q then extra else {}) { }
    }
  }

  lemma UnlinkedWithin(d: Slots, p: Path)
    ensures Within(d, Unlinked(d, p), p, {Absent})
  {
    forall r | Relevant(r) ensures PathWithin(d, Unlinked(d, p), r, if r == p then {Absent} else {}) { }
  }

  lemma DirSyncedWithin(d: Slots, dir: Dir, p: Path, extra: set<Survivor>)
    ensures Within(d, DirSynced(d, dir), p, extra)
  {
    forall r | Relevant(r) ensures PathWithin(d, DirSynced(d, dir), r, if r == p then extra else {}) { }
  }

  lemma FileSyncedWithin(d: Slots, p: Path, data: Bytes, q: Path)
    requires At(d, p).now == Some(data)
    requires !Relevant(p) || Exact(data) in MayBe(d, p) || q == p
    ensures Within(d, FileSynced(d, p), q, {Exact(data)})
    ensures At(FileSynced(d, p), q).now == At(d, q).now
  {
    forall r | Relevant(r) ensures PathWithin(d, FileSynced(d, p), r, if r == q then {Exact(data)} else {}) { }
  }

  lemma RenamedWithin(d: Slots, from: Path, to: Path, data: Bytes)
    requires !Relevant(from) && from != to && At(d, from).now == Some(data) && At(d, from).synced
    ensures Within(d, Renamed(d, from, to), to, {Exact(data)})
  {
    forall r | Relevant(r) ensures PathWithin(d, Renamed(d, from, to), r, if r == to then {Exact(data)} else {}) { }
  }
}
