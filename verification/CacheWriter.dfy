/** A managed write: the declaration first, then the temporary, then the rename, and
    the declaration taken back last. Wherever it stops, the scope stays one that a
    collection accepts. */
module CacheWriter {
  import opened Base
  import opened CacheLayout
  import opened CacheProof
  import opened CachePlan
  import opened CacheSteps
  import opened CacheSweep

  // --------------------------------------------------------------- files stay known

  /** A new file, or a new content, is harmless if it is itself known, replaces no
      declaration, and is no larger than a declaration of it allows. */
  lemma AddKnown(env: Env, files: Files, x: Context, p: Path, data: Bytes)
    requires FilesKnown(env, files, x) && FileKnown(env, files[p := data], x, p) && (p in files ==> WriterAt(env, files, p).None?)
    requires forall q :: q in files && q != p && Declares(env, files, q, p) ==> |data| <= WriterAt(env, files, q).value.maximumBytes
    ensures FilesKnown(env, files[p := data], x)
  {
    var files' := files[p := data];
    forall q | q in files' ensures FileKnown(env, files', x, q) {
      if q != p {
        assert FileKnown(env, files, x, q);
        KnownBeside(env, files, x, p, data, q);
      }
    }
  }

  lemma KnownBeside(env: Env, files: Files, x: Context, p: Path, data: Bytes, q: Path)
    requires q in files && q != p && FileKnown(env, files, x, q) && (p in files ==> WriterAt(env, files, p).None?)
    requires Declares(env, files, q, p) ==> |data| <= WriterAt(env, files, q).value.maximumBytes
    ensures FileKnown(env, files[p := data], x, q)
  {
    var files' := files[p := data];
    assert files'[q] == files[q] && WriterAt(env, files', q) == WriterAt(env, files, q);
    if !RawControlTemporary(q) && !(|q| == 2 && q[0] == INTENTS) && Declared(env, files, q) {
      var d :| d in files && Declares(env, files, d, q);
      assert Declares(env, files', d, q);
    }
  }

  /** A file may go if no temporary needs it as its declaration. */
  lemma DropKnown(env: Env, files: Files, x: Context, p: Path)
    requires FilesKnown(env, files, x) && TidyAt(env, files, [], p)
    ensures FilesKnown(env, files - {p}, x)
  {
    var plan := [p];
    assert plan[..0] == [] && Tidy(env, files, plan) && Gone(plan) == {p};
    forall q | q in files - {p} ensures FileKnown(env, files - {p}, x, q) {
      FileStaysKnown(env, files, x, plan, q);
    }
  }

  // ------------------------------------------------------------------ names of a write

  function IntentOf(w: WriterIntent): Path {
    [INTENTS, w.operationId + ".json"]
  }

  function ControlOf(w: WriterIntent, id: string): Path {
    [INTENTS, TemporaryName(w.operationId + ".json", id)]
  }

  lemma UuidJson(id: string)
    requires CanonicalUuid(id)
    ensures StripSuffix(id + ".json", ".hydrate.json").None? && StripSuffix(id + ".json", ".json") == Some(id)
    ensures UuidFile(id + ".json", ".hydrate.json", ".json")
  {
    var name := id + ".json";
    assert name[|name| - 5..] == ".json" && name[..|name| - 5] == id;
    assert name[|name| - 13..][0] == id[28] && HexDigit(id[28]);
  }

  /** The declaration is written through a control temporary. */
  lemma ControlName(w: WriterIntent, id: string)
    requires CanonicalUuid(w.operationId) && CanonicalUuid(id)
    ensures RawControlTemporary(ControlOf(w, id))
  {
    var final := w.operationId + ".json";
    UuidHasNoDot(id);
    RSplitJoin(final, id);
    UuidJson(w.operationId);
    assert TemporaryName(final, id)[1..] == final + ".tmp." + id;
  }

  /** An intent's name is not a control temporary's. */
  lemma IntentName(w: WriterIntent)
    requires CanonicalUuid(w.operationId)
    ensures IntentPath(IntentOf(w))
  {
    assert FileName(IntentOf(w)) == w.operationId + ".json";
    assert (w.operationId + ".json")[0] == w.operationId[0] && w.operationId[0] != '.';
  }

  lemma FinalIsNoControl(p: Path, roots: set<Path>)
    requires ValidFinalFile(p, roots)
    ensures !RawControlTemporary(p) && !(|p| == 2 && p[0] == INTENTS)
  {
    if |p| == 1 {
      assert p[0] in SCOPE_FILES && p[0][0] != '.';
    } else if |p| == 2 {
      assert Parent(p) == [p[0]];
    }
  }

  // --------------------------------------------------------------- one step at a time

  /** Every state on the way passes a check of its files. */
  ghost predicate PassesAlong(env: Env, s: State, acts: seq<Action>, check: Files -> bool)
    decreases |acts|
  {
    check(s.files) && (acts != [] ==> PassesAlong(env, Next(env, s, acts[0]), acts[1..], check))
  }

  lemma {:induction false} PassesMore(env: Env, s: State, acts: seq<Action>, t: State, a: Action, check: Files -> bool)
    requires PassesAlong(env, s, acts, check) && Reaches(env, s, acts, t) && check(Next(env, t, a).files)
    ensures PassesAlong(env, s, acts + [a], check)
    decreases |acts|
  {
    if acts == [] {
      assert [] + [a] == [a] && [a][1..] == [];
    } else {
      PassesMore(env, Next(env, s, acts[0]), acts[1..], t, a, check);
      assert (acts + [a])[0] == acts[0] && (acts + [a])[1..] == acts[1..] + [a];
    }
  }

  /** What has been done so far, and that every state passed. */
  ghost predicate Progressed(env: Env, s: State, acts: seq<Action>, files: Files, check: Files -> bool) {
    Reaches(env, s, acts, s.(files := files)) && PassesAlong(env, s, acts, check) && check(files)
  }

  lemma Progress(env: Env, s: State, acts: seq<Action>, files: Files, check: Files -> bool, a: Action, files': Files)
    requires Progressed(env, s, acts, files, check) && Enabled(env, s.(files := files), a) && (a.Write? || a.Erase? || a.Publish?)
    requires files' == NextFiles(env, s.(files := files), a) && check(files')
    ensures Progressed(env, s, acts + [a], files', check)
  {
    ReachesMore(env, s, acts, s.(files := files), a);
    PassesMore(env, s, acts, s.(files := files), a, check);
  }

  /** Paths that an ordinary write or removal may concern. */
  predicate Plain(p: Path) {
    !IsObject(p) && !IsUseRecord(p)
  }

  /** As much of the data as an interrupted write got down. */
  method Interrupted(data: Bytes) returns (part: Bytes)
    ensures |part| <= |data| && part <= data
  {
    var n: int := *;
    part := if 0 <= n < |data| then data[..n] else data;
  }

  method Put(scope: ManagedScope, ghost env: Env, p: Path, data: Bytes, ghost s: State, ghost acts0: seq<Action>, ghost check: Files -> bool)
    returns (ok: bool, ghost acts: seq<Action>)
    requires Progressed(env, s, acts0, scope.files, check) && s.shared > 0 && Plain(p) && check(scope.files[p := data])
    modifies scope`files
    ensures Progressed(env, s, acts, scope.files, check)
    ensures scope.files == if ok then old(scope.files)[p := data] else old(scope.files)
  {
    ok, acts := *, acts0;
    if ok {
      Progress(env, s, acts, scope.files, check, Write(p, data), scope.files[p := data]);
      scope.files, acts := scope.files[p := data], acts + [Write(p, data)];
    }
  }

  method Remove(scope: ManagedScope, ghost env: Env, p: Path, ghost s: State, ghost acts0: seq<Action>, ghost check: Files -> bool)
    returns (ok: bool, ghost acts: seq<Action>)
    requires Progressed(env, s, acts0, scope.files, check) && s.shared > 0 && Plain(p) && check(scope.files - {p})
    modifies scope`files
    ensures Progressed(env, s, acts, scope.files, check)
    ensures scope.files == if ok then old(scope.files) - {p} else old(scope.files)
  {
    ok, acts := *, acts0;
    if ok {
      Progress(env, s, acts, scope.files, check, Erase(p), scope.files - {p});
      scope.files, acts := scope.files - {p}, acts + [Erase(p)];
    }
  }

  method Move(scope: ManagedScope, ghost env: Env, t: Path, p: Path, ghost s: State, ghost acts0: seq<Action>, ghost check: Files -> bool)
    returns (ok: bool, ghost acts: seq<Action>)
    requires Progressed(env, s, acts0, scope.files, check) && s.shared > 0 && t in scope.files && Plain(t) && !IsUseRecord(p)
    requires check(scope.files[p := scope.files[t]] - {t})
    modifies scope`files
    ensures Progressed(env, s, acts, scope.files, check)
    ensures scope.files == if ok then old(scope.files)[p := old(scope.files)[t]] - {t} else old(scope.files)
  {
    ok, acts := *, acts0;
    if ok {
      ghost var files' := scope.files[p := scope.files[t]] - {t};
      Progress(env, s, acts, scope.files, check, Publish(t, p), files');
      scope.files, acts := scope.files[p := scope.files[t]] - {t}, acts + [Publish(t, p)];
    }
  }

  // ---------------------------------------------------- each step keeps the files known

  lemma ControlKnown(env: Env, files: Files, x: Context, w: WriterIntent, id: string, part: Bytes)
    requires FilesKnown(env, files, x) && CanonicalUuid(w.operationId) && CanonicalUuid(id) && ControlOf(w, id) !in files && |part| <= CONTROL_BYTES
    ensures FilesKnown(env, files[ControlOf(w, id) := part], x)
  {
    var p := ControlOf(w, id);
    ControlName(w, id);
    forall q | q in files ensures !Declares(env, files, q, p) {
      if WriterAt(env, files, q).Some? {
        assert FileKnown(env, files, x, q);
        TempElsewhere(env, files, x, q);
      }
    }
    AddKnown(env, files, x, p, part);
  }

  /** Neither an object, nor a use record, nor an intent. */
  lemma TempIsPlain(w: WriterIntent)
    requires CanonicalUuid(w.operationId) && w.temporaryName == TemporaryName(w.finalName, w.operationId)
    ensures !IsObject(TempOf(w)) && !IsUseRecord(TempOf(w)) && TempOf(w) != TargetOf(w)
  {
    var t := TempOf(w);
    assert t[|t| - 1] == w.temporaryName && |w.temporaryName| >= 42 && w.temporaryName[0] == '.';
    assert TargetOf(w)[|TargetOf(w)| - 1] == w.finalName && |w.temporaryName| > |w.finalName|;
    assert !HexDigit('.');
  }

  lemma TempOutside(w: WriterIntent, roots: set<Path>)
    requires ValidFinalFile(TargetOf(w), roots)
    ensures !(|TempOf(w)| == 2 && TempOf(w)[0] == INTENTS)
  {
    var dir := RelativeParts(w.relativeDirectory);
    assert Parent(TargetOf(w)) == dir && FileName(TargetOf(w)) == w.finalName;
  }

  /** The declaration, once in place, is in order. */
  lemma IntentKnown(env: Env, files: Files, x: Context, w: WriterIntent, intent: Bytes)
    requires FilesKnown(env, files, x) && env.writer(intent) == Some(w) && |intent| <= CONTROL_BYTES && CanonicalUuid(w.operationId)
    requires WriterOk(w, w.operationId, x.maxBytes, x.roots) && IntentOf(w) !in files && TempOf(w) !in files
    ensures FilesKnown(env, files[IntentOf(w) := intent], x)
  {
    var p := IntentOf(w);
    var files' := files[p := intent];
    IntentName(w);
    UuidJson(w.operationId);
    TempOutside(w, x.roots);
    assert WriterAt(env, files', p) == Some(w);
    forall q | q in files ensures !Declares(env, files, q, p) {
      if WriterAt(env, files, q).Some? {
        assert FileKnown(env, files, x, q);
        TempElsewhere(env, files, x, q);
      }
    }
    assert FileKnown(env, files', x, p);
    AddKnown(env, files, x, p, intent);
  }

  /** The temporary is declared, by one intent only. */
  lemma TempKnown(env: Env, files: Files, x: Context, w: WriterIntent, part: Bytes)
    requires FilesKnown(env, files, x) && IntentOf(w) in files && WriterAt(env, files, IntentOf(w)) == Some(w) && |part| <= w.maximumBytes
    requires !RawControlTemporary(TempOf(w)) && ValidFinalFile(TargetOf(w), x.roots)
    ensures FilesKnown(env, files[TempOf(w) := part], x)
  {
    var t, p := TempOf(w), IntentOf(w);
    var files' := files[t := part];
    TempOutside(w, x.roots);
    assert WriterAt(env, files', p) == Some(w) && Declares(env, files', p, t);
    assert Declared(env, files', t);
    forall q | q in files && q != t && Declares(env, files, q, t) ensures |part| <= WriterAt(env, files, q).value.maximumBytes {
      assert FileKnown(env, files, x, q) && FileKnown(env, files, x, p);
      SameTemp(env, files, x, q, p);
    }
    AddKnown(env, files, x, t, part);
  }

  /** Publishing the temporary under its final name. */
  lemma TargetKnown(env: Env, files: Files, x: Context, w: WriterIntent, data: Bytes)
    requires FilesKnown(env, files, x) && ValidFinalFile(TargetOf(w), x.roots) && TempOf(w) in files
    requires !(|TempOf(w)| == 2 && TempOf(w)[0] == INTENTS)
    ensures FilesKnown(env, files[TargetOf(w) := data] - {TempOf(w)}, x)
  {
    var p := TargetOf(w);
    FinalIsNoControl(p, x.roots);
    forall q | q in files ensures !Declares(env, files, q, p) {
      if Declares(env, files, q, p) {
        assert Declared(env, files, p);
        DeclaredNotFinal(env, files, x, p, x.roots);
      }
    }
    AddKnown(env, files, x, p, data);
    DropKnown(env, files[p := data], x, TempOf(w));
  }

  // ------------------------------------------------- the same, as checks of the files

  /** The check is the collector's own check of names. Only a mention of that check
      brings the equivalence into play. */
  ghost predicate Tests(env: Env, x: Context, check: Files -> bool) {
    forall files {:trigger FilesKnown(env, files, x)} :: check(files) <==> FilesKnown(env, files, x)
  }

  /** A declared write, by what its steps need of it: a well-formed declaration, whose
      names are told apart from one another and from what only other steps touch. */
  ghost predicate Writable(env: Env, x: Context, w: WriterIntent, intent: Bytes, id: string) {
    env.writer(intent) == Some(w) && |intent| <= CONTROL_BYTES && CanonicalUuid(w.operationId) && CanonicalUuid(id) &&
    WriterOk(w, w.operationId, x.maxBytes, x.roots) && !RawControlTemporary(TempOf(w)) && !IsUseRecord(TargetOf(w))
  }

  /** All that the steps themselves rely on. */
  datatype Names = Names(intent: Path, control: Path, temp: Path, target: Path)

  function NamesOf(w: WriterIntent, id: string): Names {
    Names(IntentOf(w), ControlOf(w, id), TempOf(w), TargetOf(w))
  }

  predicate Apart(n: Names) {
    Plain(n.intent) && Plain(n.control) && Plain(n.temp) && !IsUseRecord(n.target) &&
    n.intent != n.control && n.intent != n.temp && n.intent != n.target && n.control != n.temp && n.temp != n.target
  }

  lemma NamesApart(env: Env, x: Context, w: WriterIntent, intent: Bytes, id: string)
    requires Writable(env, x, w, intent, id)
    ensures Apart(NamesOf(w, id))
  {
    TempIsPlain(w);
    TempOutside(w, x.roots);
    FinalIsNoControl(TargetOf(w), x.roots);
    ControlName(w, id);
    IntentName(w);
  }

  /** A write, its names, and the check its steps are to pass. */
  ghost predicate Job(env: Env, x: Context, w: WriterIntent, intent: Bytes, id: string, n: Names, check: Files -> bool) {
    Writable(env, x, w, intent, id) && n == NamesOf(w, id) && Tests(env, x, check)
  }

  ghost predicate DeclaredIn(files: Files, n: Names, intent: Bytes) {
    n.intent in files && files[n.intent] == intent
  }

  lemma DeclaredAs(env: Env, x: Context, files: Files, w: WriterIntent, intent: Bytes, id: string, n: Names, check: Files -> bool)
    requires Job(env, x, w, intent, id, n, check) && DeclaredIn(files, n, intent)
    ensures WriterAt(env, files, n.intent) == Some(w)
  {
    IntentName(w);
    UuidJson(w.operationId);
  }

  lemma ControlPasses(env: Env, x: Context, files: Files, w: WriterIntent, intent: Bytes, id: string, n: Names, check: Files -> bool, part: Bytes)
    requires Job(env, x, w, intent, id, n, check) && check(files) && n.control !in files && |part| <= |intent|
    ensures check(files[n.control := part])
  {
    assert FilesKnown(env, files, x);
    ControlKnown(env, files, x, w, id, part);
  }

  lemma ControlDrops(env: Env, x: Context, files: Files, w: WriterIntent, intent: Bytes, id: string, n: Names, check: Files -> bool)
    requires Job(env, x, w, intent, id, n, check) && check(files)
    ensures check(files - {n.control})
  {
    assert FilesKnown(env, files, x);
    ControlName(w, id);
    DropKnown(env, files, x, n.control);
  }

  lemma InstallPasses(env: Env, x: Context, files: Files, w: WriterIntent, intent: Bytes, id: string, n: Names, check: Files -> bool)
    requires Job(env, x, w, intent, id, n, check) && check(files) && n.intent !in files && n.temp !in files
    ensures check(files[n.intent := intent] - {n.control})
  {
    assert FilesKnown(env, files, x);
    IntentKnown(env, files, x, w, intent);
    ControlDrops(env, x, files[n.intent := intent], w, intent, id, n, check);
  }

  lemma TempPasses(env: Env, x: Context, files: Files, w: WriterIntent, intent: Bytes, id: string, n: Names, check: Files -> bool, part: Bytes)
    requires Job(env, x, w, intent, id, n, check) && check(files) && DeclaredIn(files, n, intent) && |part| <= w.maximumBytes
    ensures check(files[n.temp := part])
  {
    assert FilesKnown(env, files, x);
    DeclaredAs(env, x, files, w, intent, id, n, check);
    TempKnown(env, files, x, w, part);
  }

  lemma TargetPasses(env: Env, x: Context, files: Files, w: WriterIntent, intent: Bytes, id: string, n: Names, check: Files -> bool, data: Bytes)
    requires Job(env, x, w, intent, id, n, check) && check(files) && n.temp in files
    ensures check(files[n.target := data] - {n.temp})
  {
    assert FilesKnown(env, files, x);
    TempOutside(w, x.roots);
    TargetKnown(env, files, x, w, data);
  }

  lemma TempDrops(env: Env, x: Context, files: Files, w: WriterIntent, intent: Bytes, id: string, n: Names, check: Files -> bool)
    requires Job(env, x, w, intent, id, n, check) && check(files)
    ensures check(files - {n.temp})
  {
    assert FilesKnown(env, files, x);
    TempOutside(w, x.roots);
    DropKnown(env, files, x, n.temp);
  }

  lemma IntentDrops(env: Env, x: Context, files: Files, w: WriterIntent, intent: Bytes, id: string, n: Names, check: Files -> bool)
    requires Job(env, x, w, intent, id, n, check) && check(files) && DeclaredIn(files, n, intent) && n.temp !in files
    ensures check(files - {n.intent})
  {
    assert FilesKnown(env, files, x);
    DeclaredAs(env, x, files, w, intent, id, n, check);
    DropKnown(env, files, x, n.intent);
  }

  // ------------------------------------------------------------------- the whole write

  /** Nothing but these files changed. */
  ghost predicate Elsewhere(before: Files, after: Files, names: set<Path>) {
    forall p :: p !in names ==> (p in before <==> p in after) && (p in before ==> after[p] == before[p])
  }

  lemma ElsewhereThen(a: Files, b: Files, c: Files, m: set<Path>, k: set<Path>, all: set<Path>)
    requires Elsewhere(a, b, m) && Elsewhere(b, c, k) && m <= all && k <= all
    ensures Elsewhere(a, c, all)
  {
  }

  lemma Installed(files: Files, n: Names, intent: Bytes)
    requires Apart(n) && n.control !in files
    ensures files[n.control := intent][n.intent := intent] - {n.control} == files[n.intent := intent]
  {
  }

  /** Write the control temporary, in part or whole. */
  method PutControl(scope: ManagedScope, ghost env: Env, ghost x: Context, ghost w: WriterIntent, intent: Bytes, ghost id: string, n: Names,
                    ghost s: State, ghost check: Files -> bool)
    returns (ok: bool, ghost acts: seq<Action>)
    requires Job(env, x, w, intent, id, n, check) && Apart(n) && s.files == scope.files && s.shared > 0 && check(scope.files) && n.control !in scope.files
    modifies scope`files
    ensures Progressed(env, s, acts, scope.files, check) && Elsewhere(old(scope.files), scope.files, {n.control})
    ensures ok ==> scope.files == old(scope.files)[n.control := intent]
  {
    var part := Interrupted(intent);
    ControlPasses(env, x, scope.files, w, intent, id, n, check, part);
    ok, acts := Put(scope, env, n.control, part, s, [], check);
    ok := ok && part == intent;
  }

  /** Give up before the declaration is in place. */
  method DropControl(scope: ManagedScope, ghost env: Env, ghost x: Context, ghost w: WriterIntent, ghost intent: Bytes, ghost id: string, n: Names,
                     ghost s: State, ghost acts0: seq<Action>, ghost check: Files -> bool)
    returns (ghost acts: seq<Action>)
    requires Job(env, x, w, intent, id, n, check) && Apart(n) && s.shared > 0 && Progressed(env, s, acts0, scope.files, check)
    modifies scope`files
    ensures Progressed(env, s, acts, scope.files, check) && Elsewhere(old(scope.files), scope.files, {n.control})
  {
    ControlDrops(env, x, scope.files, w, intent, id, n, check);
    var removed;
    removed, acts := Remove(scope, env, n.control, s, acts0, check);
  }

  /** Declare a write. Success leaves the declaration and no control temporary. */
  method Declare(scope: ManagedScope, ghost env: Env, ghost x: Context, ghost w: WriterIntent, intent: Bytes, ghost id: string, n: Names,
                 ghost s: State, ghost check: Files -> bool)
    returns (ok: bool, ghost acts: seq<Action>)
    requires Job(env, x, w, intent, id, n, check) && Apart(n) && s.files == scope.files && s.shared > 0 && check(scope.files)
    requires n.intent !in scope.files && n.control !in scope.files && n.temp !in scope.files
    modifies scope`files
    ensures Progressed(env, s, acts, scope.files, check)
    ensures ok ==> scope.files == old(scope.files)[n.intent := intent]
    ensures !ok ==> Elsewhere(old(scope.files), scope.files, {n.control})
  {
    ghost var start := scope.files;
    ok, acts := PutControl(scope, env, x, w, intent, id, n, s, check);
    if ok {
      InstallPasses(env, x, scope.files, w, intent, id, n, check);
      Installed(start, n, intent);
      ok, acts := Move(scope, env, n.control, n.intent, s, acts, check);
    }
    if !ok {
      ghost var put := scope.files;
      acts := DropControl(scope, env, x, w, intent, id, n, s, acts, check);
      ElsewhereThen(start, put, scope.files, {n.control}, {n.control}, {n.control});
    }
  }

  /** Write the declared temporary and rename it into place. */
  method Transfer(scope: ManagedScope, ghost env: Env, ghost x: Context, ghost w: WriterIntent, ghost intent: Bytes, ghost id: string, n: Names, data: Bytes,
                  ghost s: State, ghost acts0: seq<Action>, ghost check: Files -> bool)
    returns (ok: bool, ghost acts: seq<Action>)
    requires Job(env, x, w, intent, id, n, check) && Apart(n) && s.shared > 0 && |data| <= w.maximumBytes
    requires Progressed(env, s, acts0, scope.files, check) && DeclaredIn(scope.files, n, intent)
    modifies scope`files
    ensures Progressed(env, s, acts, scope.files, check) && Elsewhere(old(scope.files), scope.files, {n.temp, n.target})
    ensures ok ==> n.target in scope.files && scope.files[n.target] == data
  {
    var part := Interrupted(data);
    TempPasses(env, x, scope.files, w, intent, id, n, check, part);
    ok, acts := Put(scope, env, n.temp, part, s, acts0, check);
    ok := ok && part == data;
    if ok {
      TargetPasses(env, x, scope.files, w, intent, id, n, check, data);
      ok, acts := Move(scope, env, n.temp, n.target, s, acts, check);
    }
  }

  /** Take back what is left of a write, the declaration only once nothing needs it. */
  method Retract(scope: ManagedScope, ghost env: Env, ghost x: Context, ghost w: WriterIntent, ghost intent: Bytes, ghost id: string, n: Names,
                 ghost s: State, ghost acts0: seq<Action>, ghost check: Files -> bool)
    returns (ghost acts: seq<Action>)
    requires Job(env, x, w, intent, id, n, check) && Apart(n) && s.shared > 0
    requires Progressed(env, s, acts0, scope.files, check) && DeclaredIn(scope.files, n, intent)
    modifies scope`files
    ensures Progressed(env, s, acts, scope.files, check) && Elsewhere(old(scope.files), scope.files, {n.intent, n.temp})
  {
    acts := acts0;
    var gone := n.temp !in scope.files;
    if !gone {
      TempDrops(env, x, scope.files, w, intent, id, n, check);
      gone, acts := Remove(scope, env, n.temp, s, acts, check);
    }
    if gone {
      IntentDrops(env, x, scope.files, w, intent, id, n, check);
      var removed;
      removed, acts := Remove(scope, env, n.intent, s, acts, check);
    }
  }

  function AllNames(n: Names): set<Path> {
    {n.intent, n.control, n.temp, n.target}
  }

  /** A managed write. Whatever fails, and wherever it stops, the steps are those of
      the scope's protocol, every state passes the collector's check of names, and
      nothing but the write's own files has changed; success publishes the data. */
  method WriteManaged(scope: ManagedScope, ghost env: Env, ghost x: Context, w: WriterIntent, intent: Bytes, id: string, data: Bytes,
                      ghost s: State, ghost check: Files -> bool)
    returns (ok: bool, ghost acts: seq<Action>)
    requires Writable(env, x, w, intent, id) && Tests(env, x, check) && |data| <= w.maximumBytes
    requires s.files == scope.files && s.shared > 0 && FilesKnown(env, scope.files, x)
    requires IntentOf(w) !in scope.files && ControlOf(w, id) !in scope.files && TempOf(w) !in scope.files
    modifies scope`files
    ensures Progressed(env, s, acts, scope.files, check) && Elsewhere(old(scope.files), scope.files, AllNames(NamesOf(w, id)))
    ensures ok ==> TargetOf(w) in scope.files && scope.files[TargetOf(w)] == data
  {
    var n := NamesOf(w, id);
    NamesApart(env, x, w, intent, id);
    ok, acts := RunWrite(scope, env, x, w, intent, id, n, data, s, check);
  }

  method RunWrite(scope: ManagedScope, ghost env: Env, ghost x: Context, ghost w: WriterIntent, intent: Bytes, ghost id: string, n: Names, data: Bytes,
                  ghost s: State, ghost check: Files -> bool)
    returns (ok: bool, ghost acts: seq<Action>)
    requires Job(env, x, w, intent, id, n, check) && Apart(n) && s.files == scope.files && s.shared > 0 && check(scope.files)
    requires n.intent !in scope.files && n.control !in scope.files && n.temp !in scope.files && |data| <= w.maximumBytes
    modifies scope`files
    ensures Progressed(env, s, acts, scope.files, check) && Elsewhere(old(scope.files), scope.files, AllNames(n))
    ensures ok ==> n.target in scope.files && scope.files[n.target] == data
  {
    ghost var start := scope.files;
    ok, acts := Declare(scope, env, x, w, intent, id, n, s, check);
    ghost var declared := scope.files;
    if !ok {
      ElsewhereThen(start, start, declared, {}, {n.control}, AllNames(n));
      return;
    }
    ElsewhereThen(start, start, declared, {}, {n.intent}, AllNames(n));
    ok, acts := Carry(scope, env, x, w, intent, id, n, data, s, acts, check);
    ElsewhereThen(start, declared, scope.files, AllNames(n), AllNames(n), AllNames(n));
  }

  /** The part of a write that follows its declaration. */
  method Carry(scope: ManagedScope, ghost env: Env, ghost x: Context, ghost w: WriterIntent, ghost intent: Bytes, ghost id: string, n: Names, data: Bytes,
               ghost s: State, ghost acts0: seq<Action>, ghost check: Files -> bool)
    returns (ok: bool, ghost acts: seq<Action>)
    requires Job(env, x, w, intent, id, n, check) && Apart(n) && s.shared > 0 && |data| <= w.maximumBytes
    requires Progressed(env, s, acts0, scope.files, check) && DeclaredIn(scope.files, n, intent)
    modifies scope`files
    ensures Progressed(env, s, acts, scope.files, check) && Elsewhere(old(scope.files), scope.files, AllNames(n))
    ensures ok ==> n.target in scope.files && scope.files[n.target] == data
  {
    ghost var declared := scope.files;
    ok, acts := Transfer(scope, env, x, w, intent, id, n, data, s, acts0, check);
    ghost var moved := scope.files;
    acts := Retract(scope, env, x, w, intent, id, n, s, acts, check);
    ElsewhereThen(declared, moved, scope.files, {n.temp, n.target}, {n.intent, n.temp}, AllNames(n));
  }
}
