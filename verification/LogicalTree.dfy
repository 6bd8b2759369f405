/** The path-level content of an unfolded directory tree, and the reference
    walk: what the validator must compute if it kept no memo tables. */
module LogicalTree {
  import opened Base
  import opened Ordering
  import opened PageGraph

  function DirPath(d: SnapshotDirectory): string {
    d.relPath
  }

  function Join(rel: string, name: string): string {
    if rel == "" then name else rel + "/" + name
  }

  function FullPath(scope: string, rel: string): string {
    if rel == "" then scope else if scope == "/" then "/" + rel else scope + "/" + rel
  }

  /** A file's kind as manifests spell it. */
  function KindText(kind: EntryKind): string {
    match kind
    case Regular => "regular"
    case Executable => "executable"
    case Symlink => "symlink"
    case Directory => "directory"
  }

  function FileAt(path: string, e: Entry): SnapshotFile {
    SnapshotFile(path, KindText(e.kind), e.size, e.contentId)
  }

  // ---------------------------------------------------------- declarative lists

  /** Every logical directory below `rel`, in walk order. */
  function DirsIn(rel: string, l: Listing): seq<SnapshotDirectory>
    decreases l
  {
    match l
    case End => []
    case File(_, rest) => DirsIn(rel, rest)
    case Dir(e, sub, rest) =>
      [SnapshotDirectory(Join(rel, e.name), e.childRoot)] + DirsIn(Join(rel, e.name), sub) + DirsIn(rel, rest)
  }

  /** Every file below `rel`, in walk order. */
  function FilesIn(rel: string, l: Listing): seq<SnapshotFile>
    decreases l
  {
    match l
    case End => []
    case File(e, rest) => [FileAt(Join(rel, e.name), e)] + FilesIn(rel, rest)
    case Dir(e, sub, rest) => FilesIn(Join(rel, e.name), sub) + FilesIn(rel, rest)
  }

  /** Every logical path below `rel`, in walk order. */
  function PathsIn(rel: string, l: Listing): seq<string>
    decreases l
  {
    match l
    case End => []
    case File(e, rest) => [Join(rel, e.name)] + PathsIn(rel, rest)
    case Dir(e, sub, rest) => [Join(rel, e.name)] + PathsIn(Join(rel, e.name), sub) + PathsIn(rel, rest)
  }

  /** Names are UTF-8 and composed paths are valid scopes. */
  ghost predicate NamesOk(c: Codec, scope: string, rel: string, l: Listing)
    decreases l
  {
    match l
    case End => true
    case File(e, rest) =>
      c.utf8(e.name) && c.scopeOk(FullPath(scope, Join(rel, e.name))) && NamesOk(c, scope, rel, rest)
    case Dir(e, sub, rest) =>
      c.utf8(e.name) && c.scopeOk(FullPath(scope, Join(rel, e.name))) &&
      NamesOk(c, scope, Join(rel, e.name), sub) && NamesOk(c, scope, rel, rest)
  }

  ghost predicate Distinct(ps: seq<string>) {
    forall i, j :: 0 <= i < j < |ps| ==> ps[i] != ps[j]
  }

  ghost predicate OneSizePerDigest(fs: seq<SnapshotFile>) {
    forall i, j :: 0 <= i < j < |fs| && fs[i].contentDigest == fs[j].contentDigest ==> fs[i].size == fs[j].size
  }

  // -------------------------------------------------------------- reference walk

  datatype WalkState = WalkState(
    paths: set<string>,
    sizes: map<Digest, nat>,
    dirs: seq<SnapshotDirectory>,
    files: seq<SnapshotFile>)

  const EMPTY_WALK := WalkState({}, map[], [], [])

  /** Enter the directory `rel`; None marks an integrity violation. */
  ghost function WalkDir(c: Codec, scope: string, st: WalkState, rel: string, root: PageId, l: Listing): Option<WalkState>
    decreases l, 1
  {
    if !c.scopeOk(FullPath(scope, rel)) || rel in st.paths then None
    else WalkIn(c, scope, WithDir(st, rel, root), rel, l)
  }

  /** A file whose path was seen, or whose digest was seen with another size. */
  ghost predicate Conflicts(st: WalkState, path: string, e: Entry) {
    path in st.paths || (e.contentId in st.sizes && st.sizes[e.contentId] != e.size)
  }

  ghost function WalkFile(c: Codec, scope: string, st: WalkState, rel: string, e: Entry): Option<WalkState> {
    var path := Join(rel, e.name);
    if !c.utf8(e.name) || !c.scopeOk(FullPath(scope, path)) || Conflicts(st, path, e) then None
    else Some(WithFile(st, path, e))
  }

  ghost function WalkIn(c: Codec, scope: string, st: WalkState, rel: string, l: Listing): Option<WalkState>
    decreases l, 0
  {
    match l
    case End => Some(st)
    case File(e, rest) =>
      var next := WalkFile(c, scope, st, rel, e);
      if next.None? then None else WalkIn(c, scope, next.value, rel, rest)
    case Dir(e, sub, rest) =>
      if !c.utf8(e.name) then None
      else
        var next := WalkDir(c, scope, st, Join(rel, e.name), e.childRoot, sub);
        if next.None? then None else WalkIn(c, scope, next.value, rel, rest)
  }

  // ------------------------------------- the reference walk is the declarative one

  ghost predicate Fresh(seen: set<string>, ps: seq<string>)
    decreases |ps|
  {
    ps == [] || (ps[0] !in seen && Fresh(seen + {ps[0]}, ps[1..]))
  }

  ghost function AddPaths(seen: set<string>, ps: seq<string>): set<string> {
    seen + set p | p in ps
  }

  ghost predicate Agree(m: map<Digest, nat>, fs: seq<SnapshotFile>)
    decreases |fs|
  {
    fs == [] ||
    ((fs[0].contentDigest in m ==> m[fs[0].contentDigest] == fs[0].size) &&
     Agree(m[fs[0].contentDigest := fs[0].size], fs[1..]))
  }

  ghost function AddSizes(m: map<Digest, nat>, fs: seq<SnapshotFile>): map<Digest, nat>
    decreases |fs|
  {
    if fs == [] then m else AddSizes(m[fs[0].contentDigest := fs[0].size], fs[1..])
  }

  lemma {:induction false} FreshAppend(seen: set<string>, a: seq<string>, b: seq<string>)
    ensures Fresh(seen, a + b) == (Fresh(seen, a) && Fresh(AddPaths(seen, a), b))
    decreases |a|
  {
    if a == [] {
      assert a + b == b && AddPaths(seen, a) == seen;
    } else {
      FreshAppend(seen + {a[0]}, a[1..], b);
      assert (a + b)[1..] == a[1..] + b;
      assert AddPaths(seen + {a[0]}, a[1..]) == AddPaths(seen, a) by {
        assert a == [a[0]] + a[1..];
      }
    }
  }

  lemma {:induction false} FreshMeans(seen: set<string>, ps: seq<string>)
    ensures Fresh(seen, ps) <==> Distinct(ps) && forall p :: p in ps ==> p !in seen
    decreases |ps|
  {
    if ps != [] {
      FreshMeans(seen + {ps[0]}, ps[1..]);
      assert ps == [ps[0]] + ps[1..];
      if Fresh(seen, ps) {
        forall i, j | 0 <= i < j < |ps| ensures ps[i] != ps[j] {
          assert ps[j] == ps[1..][j - 1];
          if i > 0 {
            assert ps[i] == ps[1..][i - 1];
          }
        }
      }
      if Distinct(ps) {
        forall i, j | 0 <= i < j < |ps[1..]| ensures ps[1..][i] != ps[1..][j] {
          assert ps[i + 1] != ps[j + 1];
        }
      }
    }
  }

  lemma {:induction false} AgreeAppend(m: map<Digest, nat>, a: seq<SnapshotFile>, b: seq<SnapshotFile>)
    ensures Agree(m, a + b) == (Agree(m, a) && Agree(AddSizes(m, a), b))
    ensures AddSizes(m, a + b) == AddSizes(AddSizes(m, a), b)
    decreases |a|
  {
    if a == [] {
      assert a + b == b;
    } else {
      AgreeAppend(m[a[0].contentDigest := a[0].size], a[1..], b);
      assert (a + b)[1..] == a[1..] + b;
    }
  }

  ghost predicate FitsSizes(m: map<Digest, nat>, fs: seq<SnapshotFile>) {
    forall f :: f in fs && f.contentDigest in m ==> m[f.contentDigest] == f.size
  }

  lemma {:induction false} AgreeOnlyIf(m: map<Digest, nat>, fs: seq<SnapshotFile>)
    requires Agree(m, fs)
    ensures OneSizePerDigest(fs) && FitsSizes(m, fs)
    decreases |fs|
  {
    if fs != [] {
      AgreeOnlyIf(m[fs[0].contentDigest := fs[0].size], fs[1..]);
      assert fs == [fs[0]] + fs[1..];
      forall i, j | 0 <= i < j < |fs| && fs[i].contentDigest == fs[j].contentDigest ensures fs[i].size == fs[j].size {
        assert fs[j] == fs[1..][j - 1];
        if i > 0 {
          assert fs[i] == fs[1..][i - 1];
        }
      }
    }
  }

  lemma {:induction false} AgreeIf(m: map<Digest, nat>, fs: seq<SnapshotFile>)
    requires OneSizePerDigest(fs) && FitsSizes(m, fs)
    ensures Agree(m, fs)
    decreases |fs|
  {
    if fs != [] {
      var m', tail := m[fs[0].contentDigest := fs[0].size], fs[1..];
      forall f | f in tail && f.contentDigest in m' ensures m'[f.contentDigest] == f.size {
        var k :| 0 <= k < |tail| && tail[k] == f;
        assert fs[k + 1] == f;
      }
      forall i, j | 0 <= i < j < |tail| && tail[i].contentDigest == tail[j].contentDigest ensures tail[i].size == tail[j].size {
        assert fs[i + 1].contentDigest == fs[j + 1].contentDigest;
      }
      AgreeIf(m', tail);
    }
  }

  lemma AgreeMeans(m: map<Digest, nat>, fs: seq<SnapshotFile>)
    ensures Agree(m, fs) <==> OneSizePerDigest(fs) && FitsSizes(m, fs)
  {
    if Agree(m, fs) {
      AgreeOnlyIf(m, fs);
    } else if OneSizePerDigest(fs) && FitsSizes(m, fs) {
      AgreeIf(m, fs);
    }
  }

  ghost predicate Accepts(c: Codec, scope: string, st: WalkState, rel: string, l: Listing) {
    NamesOk(c, scope, rel, l) && Fresh(st.paths, PathsIn(rel, l)) && Agree(st.sizes, FilesIn(rel, l))
  }

  ghost function Effect(st: WalkState, rel: string, l: Listing): WalkState {
    WalkState(AddPaths(st.paths, PathsIn(rel, l)), AddSizes(st.sizes, FilesIn(rel, l)),
              st.dirs + DirsIn(rel, l), st.files + FilesIn(rel, l))
  }

  ghost function WithFile(st: WalkState, path: string, e: Entry): WalkState {
    WalkState(st.paths + {path}, st.sizes[e.contentId := e.size], st.dirs, st.files + [FileAt(path, e)])
  }

  ghost function WithDir(st: WalkState, path: string, root: PageId): WalkState {
    st.(paths := st.paths + {path}, dirs := st.dirs + [SnapshotDirectory(path, root)])
  }

  lemma AddPathsAppend(seen: set<string>, a: seq<string>, b: seq<string>)
    ensures AddPaths(seen, a + b) == AddPaths(AddPaths(seen, a), b)
  {
  }

  lemma FileStep(c: Codec, scope: string, st: WalkState, rel: string, e: Entry, rest: Listing)
    ensures Accepts(c, scope, st, rel, File(e, rest)) <==>
      WalkFile(c, scope, st, rel, e).Some? && Accepts(c, scope, WithFile(st, Join(rel, e.name), e), rel, rest)
    ensures Effect(st, rel, File(e, rest)) == Effect(WithFile(st, Join(rel, e.name), e), rel, rest)
  {
    var path := Join(rel, e.name);
    FreshAppend(st.paths, [path], PathsIn(rel, rest));
    AgreeAppend(st.sizes, [FileAt(path, e)], FilesIn(rel, rest));
    AddPathsAppend(st.paths, [path], PathsIn(rel, rest));
    assert AddPaths(st.paths, [path]) == st.paths + {path};
    assert Agree(st.sizes, [FileAt(path, e)]) <==> (e.contentId in st.sizes ==> st.sizes[e.contentId] == e.size);
    assert AddSizes(st.sizes, [FileAt(path, e)]) == st.sizes[e.contentId := e.size];
    assert st.files + [FileAt(path, e)] + FilesIn(rel, rest) == st.files + ([FileAt(path, e)] + FilesIn(rel, rest));
  }

  lemma DirStepAccepts(c: Codec, scope: string, st: WalkState, rel: string, e: Entry, sub: Listing, rest: Listing)
    ensures var path := Join(rel, e.name);
      Accepts(c, scope, st, rel, Dir(e, sub, rest)) <==>
        c.utf8(e.name) && c.scopeOk(FullPath(scope, path)) && path !in st.paths &&
        Accepts(c, scope, WithDir(st, path, e.childRoot), path, sub) &&
        Accepts(c, scope, Effect(WithDir(st, path, e.childRoot), path, sub), rel, rest)
  {
    var path := Join(rel, e.name);
    var inside, after := PathsIn(path, sub), PathsIn(rel, rest);
    FreshAppend(st.paths, [path] + inside, after);
    FreshAppend(st.paths, [path], inside);
    AddPathsAppend(st.paths, [path], inside);
    assert AddPaths(st.paths, [path]) == st.paths + {path};
    AgreeAppend(st.sizes, FilesIn(path, sub), FilesIn(rel, rest));
  }

  lemma AppendAssociates<T>(a: seq<T>, b: seq<T>, c: seq<T>)
    ensures (a + b) + c == a + (b + c)
  {
  }

  lemma DirStepEffect(st: WalkState, rel: string, e: Entry, sub: Listing, rest: Listing)
    ensures var path := Join(rel, e.name);
      Effect(st, rel, Dir(e, sub, rest)) == Effect(Effect(WithDir(st, path, e.childRoot), path, sub), rel, rest)
  {
    var path := Join(rel, e.name);
    var here := [SnapshotDirectory(path, e.childRoot)];
    var one, two := WithDir(st, path, e.childRoot), Effect(WithDir(st, path, e.childRoot), path, sub);
    var whole, last := Effect(st, rel, Dir(e, sub, rest)), Effect(two, rel, rest);
    assert whole.paths == last.paths by {
      AddPathsAppend(st.paths, [path], PathsIn(path, sub));
      AddPathsAppend(st.paths, [path] + PathsIn(path, sub), PathsIn(rel, rest));
      assert AddPaths(st.paths, [path]) == one.paths;
    }
    assert whole.sizes == last.sizes by {
      AgreeAppend(st.sizes, FilesIn(path, sub), FilesIn(rel, rest));
    }
    assert whole.files == last.files by {
      AppendAssociates(st.files, FilesIn(path, sub), FilesIn(rel, rest));
    }
    assert whole.dirs == last.dirs by {
      AppendAssociates(st.dirs, here, DirsIn(path, sub));
      AppendAssociates(st.dirs, here + DirsIn(path, sub), DirsIn(rel, rest));
    }
  }

  /** When the reference walk accepts, and what it then returns. */
  lemma {:induction false} WalkInExact(c: Codec, scope: string, st: WalkState, rel: string, l: Listing)
    ensures WalkIn(c, scope, st, rel, l) ==
            if Accepts(c, scope, st, rel, l) then Some(Effect(st, rel, l)) else None
    decreases l
  {
    match l
    case End =>
      assert AddPaths(st.paths, []) == st.paths;
      assert st.dirs + [] == st.dirs && st.files + [] == st.files;
    case File(e, rest) =>
      FileStep(c, scope, st, rel, e, rest);
      WalkInExact(c, scope, WithFile(st, Join(rel, e.name), e), rel, rest);
    case Dir(e, sub, rest) =>
      var path := Join(rel, e.name);
      var inside := WithDir(st, path, e.childRoot);
      DirStepAccepts(c, scope, st, rel, e, sub, rest);
      DirStepEffect(st, rel, e, sub, rest);
      WalkInExact(c, scope, inside, path, sub);
      WalkInExact(c, scope, Effect(inside, path, sub), rel, rest);
  }

  /** A tree is acceptable from its root: valid names, no path twice, and one
      size for each content digest. */
  ghost predicate Acceptable(c: Codec, scope: string, l: Listing) {
    c.scopeOk(scope) && NamesOk(c, scope, "", l) &&
    Distinct([""] + PathsIn("", l)) && OneSizePerDigest(FilesIn("", l))
  }

  /** The reference walk from an empty state accepts exactly the acceptable
      trees, and collects their directories and files. */
  lemma WalkAcceptsExactly(c: Codec, scope: string, root: PageId, l: Listing)
    ensures WalkDir(c, scope, EMPTY_WALK, "", root, l).Some? <==> Acceptable(c, scope, l)
    ensures WalkDir(c, scope, EMPTY_WALK, "", root, l).Some? ==>
      WalkDir(c, scope, EMPTY_WALK, "", root, l).value.dirs == [SnapshotDirectory("", root)] + DirsIn("", l) &&
      WalkDir(c, scope, EMPTY_WALK, "", root, l).value.files == FilesIn("", l)
  {
    var st := WithDir(EMPTY_WALK, "", root);
    assert st.paths == {""} && st.sizes == map[] && st.dirs == [SnapshotDirectory("", root)];
    var ps, fs := PathsIn("", l), FilesIn("", l);
    WalkInExact(c, scope, st, "", l);
    RootFresh(ps);
    AgreeMeans(map[], fs);
    assert st.files + fs == fs;
  }

  lemma RootFresh(ps: seq<string>)
    ensures Fresh({""}, ps) <==> Distinct([""] + ps)
  {
    FreshMeans({}, [""] + ps);
    FreshAppend({}, [""], ps);
    assert AddPaths({}, [""]) == {""};
  }

  // -------------------------------------------- relative files and entry counts

  function Prefixed(name: string, fs: seq<SnapshotFile>): seq<SnapshotFile> {
    seq(|fs|, i requires 0 <= i < |fs| => fs[i].(relPath := name + "/" + fs[i].relPath))
  }

  /** Files of a tree, with paths relative to its own root. */
  function RelFiles(l: Listing): seq<SnapshotFile> {
    match l
    case End => []
    case File(e, rest) => [FileAt(e.name, e)] + RelFiles(rest)
    case Dir(e, sub, rest) => Prefixed(e.name, RelFiles(sub)) + RelFiles(rest)
  }

  function Count(l: Listing): nat {
    match l
    case End => 0
    case File(_, rest) => 1 + Count(rest)
    case Dir(_, sub, rest) => 1 + Count(sub) + Count(rest)
  }

  /** The count is every logical path once: each directory and each file. */
  lemma {:induction false} CountIsPaths(rel: string, l: Listing)
    ensures Count(l) == |PathsIn(rel, l)| == |DirsIn(rel, l)| + |FilesIn(rel, l)|
    decreases l
  {
    match l
    case End =>
    case File(_, rest) => CountIsPaths(rel, rest);
    case Dir(e, sub, rest) =>
      CountIsPaths(Join(rel, e.name), sub);
      CountIsPaths(rel, rest);
  }

  ghost predicate PlainName(name: string) {
    name != "" && '/' !in name
  }

  /** Every name of the tree is non-empty and has no separator. */
  ghost predicate Plain(l: Listing) {
    match l
    case End => true
    case File(e, rest) => PlainName(e.name) && Plain(rest)
    case Dir(e, sub, rest) => PlainName(e.name) && Plain(sub) && Plain(rest)
  }

  lemma PrefixedJoin(rel: string, name: string, fs: seq<SnapshotFile>)
    requires rel != ""
    ensures Prefixed(Join(rel, name), fs) == Prefixed(rel, Prefixed(name, fs))
  {
    forall i | 0 <= i < |fs| ensures Join(rel, name) + "/" + fs[i].relPath == rel + "/" + (name + "/" + fs[i].relPath) { }
  }

  lemma PrefixedAppend(name: string, a: seq<SnapshotFile>, b: seq<SnapshotFile>)
    ensures Prefixed(name, a + b) == Prefixed(name, a) + Prefixed(name, b)
  {
  }

  /** Absolute files are the relative ones under their directory's path. */
  lemma {:induction false} FilesInUnder(rel: string, l: Listing)
    requires Plain(l)
    ensures FilesIn(rel, l) == if rel == "" then RelFiles(l) else Prefixed(rel, RelFiles(l))
    decreases l
  {
    match l
    case End =>
    case File(e, rest) =>
      FilesInUnder(rel, rest);
      PrefixedAppend(rel, [FileAt(e.name, e)], RelFiles(rest));
      assert rel != "" ==> Prefixed(rel, [FileAt(e.name, e)]) == [FileAt(Join(rel, e.name), e)];
    case Dir(e, sub, rest) =>
      FilesInUnder(Join(rel, e.name), sub);
      FilesInUnder(rel, rest);
      PrefixedAppend(rel, Prefixed(e.name, RelFiles(sub)), RelFiles(rest));
      if rel != "" {
        PrefixedJoin(rel, e.name, RelFiles(sub));
      }
  }
}
