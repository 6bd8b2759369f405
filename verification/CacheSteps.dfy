/** Every step that changes a managed scope: owners and writers under the shared
    fence, the collector under the exclusive one. A step is one effect on the
    scope's files, so any interleaving of operations is a sequence of steps. */
module CacheSteps {
  import opened Base
  import opened CacheLayout
  import opened CacheProof
  import opened CachePlan
  import opened ClosureReopen

  /** The collector, while it has the fence: proving, or carrying out a plan. */
  datatype Phase = Away | Proving | Deleting(start: Files, plan: seq<Path>, done: nat)

  datatype State = State(files: Files, dirs: set<Path>, owners: seq<Owner>, maxBytes: nat, shared: nat, collector: Phase)

  datatype Action =
    | Enter | Exit                                // a guard of the shared fence is taken, dropped
    | Discover(owners: seq<Owner>)                // owners are admitted, released or exposed again
    | MakeDirectory(dir: Path)
    | Write(path: Path, data: Bytes)              // a temporary, an intent, an owner's own file
    | Erase(path: Path)                           // a temporary, an intent, a marker or a pin
    | Publish(temp: Path, path: Path)             // the rename of a finished temporary
    | Register(owner: Owner)                      // also on reopening
    | Retain(owner: Owner, closure: Closure)      // the record that makes an owner's root known
    | Retire(owner: Owner)
    | Lock                                        // the collector takes the fence
    | Plan(plan: seq<Path>)
    | Unlink
    | Unlock                                      // the collection ends, fails or crashes

  function UsePath(root: Path): Path {
    root + [USE_RECORD]
  }

  predicate IsUseRecord(p: Path) {
    |p| == 4 && p[3] == USE_RECORD
  }

  /** A blob or page in the cache. */
  predicate IsObject(p: Path) {
    |p| == 2 && (p[0] == "blobs" || p[0] == "pages") && CanonicalHex(p[1])
  }

  /** A use whose root is not known yet. */
  function UnknownUse(o: Owner): WorkspaceUse {
    WorkspaceUse(1, o.binding, false, None, [])
  }

  function RetainedUse(env: Env, o: Owner, c: Closure): WorkspaceUse {
    WorkspaceUse(1, o.binding, false, Some(env.sha(c.descriptorBytes)), PageDeps(c.pages))
  }

  function UseOf(env: Env, files: Files, o: Owner): Option<WorkspaceUse> {
    UseFor(env, Mine(files, o.root), o)
  }

  /** A use is registered where there is none, or again where it was retired. */
  predicate MayRegister(env: Env, files: Files, o: Owner) {
    UsePath(o.root) !in files || (UseOf(env, files, o).Some? && UseOf(env, files, o).value.retired)
  }

  ghost predicate MayRetain(env: Env, files: Files, o: Owner, c: Closure) {
    UseOf(env, files, o).Some? && !UseOf(env, files, o).value.retired && Fits(o, c) &&
    Reopens(env.validator, c.descriptorBytes, PageMap(c.pages), c)
  }

  predicate MayRetire(env: Env, files: Files, o: Owner) {
    UseOf(env, files, o).Some? && RetiredOk(Mine(files, o.root), o)
  }

  /** Owner discovery never loses an owner, whatever becomes of its pin. */
  predicate SameOwner(o: Owner, o': Owner) {
    o.binding == o'.binding && o.root == o'.root
  }

  predicate Owned(owners: seq<Owner>, o: Owner) {
    exists o' :: o' in owners && SameOwner(o, o')
  }

  predicate Covered(owners: seq<Owner>, owners': seq<Owner>) {
    forall o :: o in owners ==> Owned(owners', o)
  }

  function ContextIn(s: State): Context {
    ContextOf(s.owners, s.maxBytes)
  }

  /** Under the shared fence objects only ever appear, and a use record changes only
      through its owner's three operations. Under the exclusive fence a collection
      needs a proven scope, and deletes what it planned in the planned order. */
  ghost predicate Enabled(env: Env, s: State, a: Action) {
    match a
    case Enter => s.collector == Away
    case Exit => s.shared > 0
    case Discover(owners) => s.shared > 0 && Covered(s.owners, owners) && Discovered(ContextOf(owners, s.maxBytes))
    case MakeDirectory(dir) => s.shared > 0
    case Write(p, data) => s.shared > 0 && !IsObject(p) && !IsUseRecord(p)
    case Erase(p) => s.shared > 0 && !IsObject(p) && !IsUseRecord(p)
    case Publish(t, p) => s.shared > 0 && t in s.files && !IsObject(t) && !IsUseRecord(t) && !IsUseRecord(p)
    case Register(o) => s.shared > 0 && o in s.owners && MayRegister(env, s.files, o)
    case Retain(o, c) => s.shared > 0 && o in s.owners && MayRetain(env, s.files, o, c)
    case Retire(o) => s.shared > 0 && o in s.owners && MayRetire(env, s.files, o)
    case Lock => s.shared == 0 && s.collector == Away
    case Plan(plan) => s.collector == Proving && Collectable(env, s.files, s.dirs, ContextIn(s)) && PlanOk(env, s.files, ContextIn(s), plan)
    case Unlink => s.collector.Deleting? && s.collector.done < |s.collector.plan|
    case Unlock => s.collector != Away
  }

  function NextFiles(env: Env, s: State, a: Action): Files {
    match a
    case Write(p, data) => s.files[p := data]
    case Erase(p) => s.files - {p}
    case Publish(t, p) => if t in s.files then s.files[p := s.files[t]] - {t} else s.files
    case Register(o) => s.files[UsePath(o.root) := env.encodeUse(UnknownUse(o))]
    case Retain(o, c) => s.files[UsePath(o.root) := env.encodeUse(RetainedUse(env, o, c))]
    case Retire(o) =>
      var use := UseOf(env, s.files, o);
      if use.None? then s.files else s.files[UsePath(o.root) := env.encodeUse(use.value.(retired := true))]
    case Unlink =>
      if s.collector.Deleting? && s.collector.done < |s.collector.plan| then s.files - {s.collector.plan[s.collector.done]} else s.files
    case _ => s.files
  }

  function NextPhase(s: State, a: Action): Phase {
    match a
    case Lock => Proving
    case Plan(plan) => Deleting(s.files, plan, 0)
    case Unlink => if s.collector.Deleting? then s.collector.(done := s.collector.done + 1) else s.collector
    case Unlock => Away
    case _ => s.collector
  }

  function Next(env: Env, s: State, a: Action): State {
    s.(files := NextFiles(env, s, a),
       dirs := if a.MakeDirectory? then s.dirs + {a.dir} else s.dirs,
       owners := if a.Discover? then a.owners else s.owners,
       shared := if a.Enter? then s.shared + 1 else if a.Exit? then Max(s.shared - 1, 0) else s.shared,
       collector := NextPhase(s, a))
  }

  /** The actions lead from one state to the other. */
  ghost predicate Reaches(env: Env, s: State, acts: seq<Action>, t: State)
    decreases |acts|
  {
    if acts == [] then s == t else Enabled(env, s, acts[0]) && Reaches(env, Next(env, s, acts[0]), acts[1..], t)
  }

  lemma {:induction false} ReachesThen(env: Env, s: State, acts: seq<Action>, t: State, more: seq<Action>, u: State)
    requires Reaches(env, s, acts, t) && Reaches(env, t, more, u)
    ensures Reaches(env, s, acts + more, u)
    decreases |acts|
  {
    if acts == [] {
      assert acts + more == more;
    } else {
      var mid, all := Next(env, s, acts[0]), acts + more;
      ReachesThen(env, mid, acts[1..], t, more, u);
      assert all[0] == acts[0] && all[1..] == acts[1..] + more;
      assert Reaches(env, mid, all[1..], u);
    }
  }

  lemma ReachesOne(env: Env, s: State, a: Action)
    requires Enabled(env, s, a)
    ensures Reaches(env, s, [a], Next(env, s, a))
  {
    assert [a][1..] == [];
  }

  /** One more action. */
  lemma ReachesMore(env: Env, s: State, acts: seq<Action>, t: State, a: Action)
    requires Reaches(env, s, acts, t) && Enabled(env, t, a)
    ensures Reaches(env, s, acts + [a], Next(env, t, a))
  {
    ReachesOne(env, t, a);
    ReachesThen(env, s, acts, t, [a], Next(env, t, a));
  }
}
