/** Whole-closure results: validation is exact, and the memoised facts of every
    subtree agree with the full walk. */
module ClosureTheorems {
  import opened Base
  import opened Ordering
  import opened PageGraph
  import opened LogicalTree
  import opened ClosureValidation

  /** Decoded entry names are non-empty and hold no separator. */
  ghost predicate DecodesPlainNames(c: Codec) {
    forall b, e :: c.decode(b).Some? && e in Own(c.decode(b).value) ==> PlainName(e.name)
  }

  // ------------------------------------------------------------- trees of a graph

  /** Each subdirectory of the tree is the unfolding of its own root. */
  ghost predicate Faithful(g: Graph, l: Listing) {
    match l
    case End => true
    case File(_, rest) => Faithful(g, rest)
    case Dir(e, sub, rest) => ListingOf(g, e.childRoot) == Some(sub) && Faithful(g, sub) && Faithful(g, rest)
  }

  lemma {:induction false} EntriesFaithful(g: Graph, es: seq<Entry>, l: Listing)
    requires EntriesOf(g, es) == Some(l)
    ensures Faithful(g, l)
    decreases l
  {
    if es != [] {
      EntriesFaithful(g, es[1..], l.rest);
      if es[0].kind == Directory {
        ListingUnfold(g, es[0].childRoot);
        EntriesFaithful(g, RadixOf(g, es[0].childRoot).value, l.sub);
      }
    }
  }

  lemma {:induction false} EntriesPlain(g: Graph, es: seq<Entry>, l: Listing)
    requires EntriesOf(g, es) == Some(l)
    requires forall id, e :: id in g.decoded && e in Own(g.decoded[id]) ==> PlainName(e.name)
    requires forall e :: e in es ==> PlainName(e.name)
    ensures Plain(l)
    decreases l
  {
    if es != [] {
      EntriesPlain(g, es[1..], l.rest);
      if es[0].kind == Directory {
        ListingUnfold(g, es[0].childRoot);
        RadixPlain(g, es[0].childRoot);
        EntriesPlain(g, RadixOf(g, es[0].childRoot).value, l.sub);
      }
    }
  }

  lemma RadixPlain(g: Graph, id: PageId)
    requires RadixOf(g, id).Some?
    requires forall id, e :: id in g.decoded && e in Own(g.decoded[id]) ==> PlainName(e.name)
    ensures forall e :: e in RadixOf(g, id).value ==> PlainName(e.name)
  {
    var n: nat :| RadixWithin(g, id, n).Some?;
    RadixAgrees(g, id, n);
    forall e | e in RadixOf(g, id).value ensures PlainName(e.name) {
      var at := RadixOrigin(g, id, n, e);
    }
  }

  lemma ListingProperties(g: Graph, root: PageId, l: Listing)
    requires ListingOf(g, root) == Some(l)
    requires forall id, e :: id in g.decoded && e in Own(g.decoded[id]) ==> PlainName(e.name)
    ensures Faithful(g, l) && Plain(l)
  {
    ListingUnfold(g, root);
    EntriesFaithful(g, RadixOf(g, root).value, l);
    RadixPlain(g, root);
    EntriesPlain(g, RadixOf(g, root).value, l);
  }

  lemma {:induction false} RootsOfDirs(rel: string, l: Listing, known: set<PageId>)
    requires forall d :: d in DirsIn(rel, l) ==> d.directoryRoot in known
    ensures RootsIn(l, known)
    decreases l
  {
    match l
    case End =>
    case File(_, rest) => RootsOfDirs(rel, rest, known);
    case Dir(e, sub, rest) =>
      var path := Join(rel, e.name);
      assert SnapshotDirectory(path, e.childRoot) in DirsIn(rel, l);
      RootsOfDirs(path, sub, known);
      RootsOfDirs(rel, rest, known);
  }

  lemma {:induction false} NamesAreUtf8(c: Codec, scope: string, rel: string, l: Listing)
    requires NamesOk(c, scope, rel, l)
    ensures Utf8Names(c, l)
    decreases l
  {
    match l
    case End =>
    case File(_, rest) => NamesAreUtf8(c, scope, rel, rest);
    case Dir(e, sub, rest) =>
      NamesAreUtf8(c, scope, Join(rel, e.name), sub);
      NamesAreUtf8(c, scope, rel, rest);
  }

  // ----------------------------------------------------------- paths below a path

  function Below(p: string, fs: seq<SnapshotFile>): seq<SnapshotFile> {
    if fs == [] then []
    else if Ancestor(p, fs[0].relPath) then [fs[0]] + Below(p, fs[1..])
    else Below(p, fs[1..])
  }

  lemma {:induction false} BelowAppend(p: string, a: seq<SnapshotFile>, b: seq<SnapshotFile>)
    ensures Below(p, a + b) == Below(p, a) + Below(p, b)
  {
    if a == [] {
      assert a + b == b;
    } else {
      BelowAppend(p, a[1..], b);
      assert (a + b)[1..] == a[1..] + b;
    }
  }

  lemma {:induction false} BelowMembers(p: string, fs: seq<SnapshotFile>)
    ensures forall f :: f in Below(p, fs) <==> f in fs && Ancestor(p, f.relPath)
  {
    if fs != [] {
      BelowMembers(p, fs[1..]);
      assert fs == [fs[0]] + fs[1..];
    }
  }

  lemma {:induction false} BelowAll(p: string, fs: seq<SnapshotFile>)
    requires forall f :: f in fs ==> Ancestor(p, f.relPath)
    ensures Below(p, fs) == fs
  {
    if fs != [] {
      BelowAll(p, fs[1..]);
      assert fs == [fs[0]] + fs[1..];
    }
  }

  lemma {:induction false} BelowNone(p: string, fs: seq<SnapshotFile>)
    requires forall f :: f in fs ==> !Ancestor(p, f.relPath)
    ensures Below(p, fs) == []
  {
    if fs != [] {
      BelowNone(p, fs[1..]);
    }
  }

  lemma {:induction false} BelowKeepsOrder(p: string, fs: seq<SnapshotFile>)
    requires StrictlySorted(FilePath, fs)
    ensures StrictlySorted(FilePath, Below(p, fs))
  {
    if fs != [] {
      var tail := Below(p, fs[1..]);
      BelowKeepsOrder(p, fs[1..]);
      BelowMembers(p, fs[1..]);
      if Ancestor(p, fs[0].relPath) {
        forall j | 0 <= j < |tail| ensures Lt(FilePath(fs[0]), FilePath(tail[j])) {
          assert tail[j] in tail;
          var k :| 1 <= k < |fs| && fs[k] == tail[j];
        }
      }
    }
  }

  lemma AncestorTransitive(p: string, q: string, r: string)
    requires Ancestor(p, q) && Ancestor(q, r)
    ensures Ancestor(p, r)
  {
    assert r[..|p|] == r[..|q|][..|p|];
    assert r[|p|] == r[..|q|][|p|];
  }

  /** `q` is the child `name` of `rel`, or lies below that child. */
  ghost predicate Under(rel: string, name: string, q: string) {
    q == Join(rel, name) || Ancestor(Join(rel, name), q)
  }

  /** Two different names of one directory own disjoint sets of paths. */
  lemma NamesOwnPaths(rel: string, n1: string, n2: string, q: string)
    requires PlainName(n1) && PlainName(n2)
    requires Under(rel, n1, q) && Under(rel, n2, q)
    ensures n1 == n2
  {
    var pre := if rel == "" then "" else rel + "/";
    var k := |pre|;
    assert Join(rel, n1) == pre + n1 && Join(rel, n2) == pre + n2;
    assert q[k..k + |n1|] == n1 by {
      assert q[..k + |n1|] == pre + n1;
    }
    assert q[k..k + |n2|] == n2 by {
      assert q[..k + |n2|] == pre + n2;
    }
    assert |n1| == |n2|;
  }

  /** Names of the entries of the directory itself. */
  ghost function TopNames(l: Listing): set<string> {
    match l
    case End => {}
    case File(e, rest) => {e.name} + TopNames(rest)
    case Dir(e, _, rest) => {e.name} + TopNames(rest)
  }

  lemma {:induction false} PathsUnderNames(rel: string, l: Listing, q: string) returns (name: string)
    requires Plain(l) && q in PathsIn(rel, l)
    ensures name in TopNames(l) && PlainName(name) && Under(rel, name, q)
    decreases l
  {
    match l
    case File(e, rest) =>
      if q == Join(rel, e.name) {
        name := e.name;
      } else {
        name := PathsUnderNames(rel, rest, q);
      }
    case Dir(e, sub, rest) =>
      var path := Join(rel, e.name);
      if q == path {
        name := e.name;
      } else if q in PathsIn(path, sub) {
        name := e.name;
        var inner := PathsUnderNames(path, sub, q);
        assert Ancestor(path, Join(path, inner));
        if q != Join(path, inner) {
          AncestorTransitive(path, Join(path, inner), q);
        }
      } else {
        name := PathsUnderNames(rel, rest, q);
      }
  }

  lemma {:induction false} TopNamesArePaths(rel: string, l: Listing, name: string)
    requires name in TopNames(l)
    ensures Join(rel, name) in PathsIn(rel, l)
    decreases l
  {
    match l
    case File(e, rest) =>
      if name != e.name {
        TopNamesArePaths(rel, rest, name);
      }
    case Dir(e, sub, rest) =>
      if name != e.name {
        TopNamesArePaths(rel, rest, name);
      }
  }

  lemma {:induction false} ListedPaths(rel: string, l: Listing)
    ensures forall f :: f in FilesIn(rel, l) ==> f.relPath in PathsIn(rel, l)
    ensures forall d :: d in DirsIn(rel, l) ==> d.relPath in PathsIn(rel, l)
    decreases l
  {
    match l
    case End =>
    case File(_, rest) => ListedPaths(rel, rest);
    case Dir(e, sub, rest) =>
      ListedPaths(Join(rel, e.name), sub);
      ListedPaths(rel, rest);
  }

  lemma DistinctParts(a: seq<string>, b: seq<string>)
    requires Distinct(a + b)
    ensures Distinct(a) && Distinct(b)
    ensures forall p :: p in a ==> p !in b
  {
    forall i, j | 0 <= i < j < |a| ensures a[i] != a[j] {
      assert (a + b)[i] != (a + b)[j];
    }
    forall i, j | 0 <= i < j < |b| ensures b[i] != b[j] {
      assert (a + b)[|a| + i] != (a + b)[|a| + j];
    }
    forall i, j | 0 <= i < |a| && 0 <= j < |b| ensures a[i] != b[j] {
      assert (a + b)[i] != (a + b)[|a| + j];
    }
  }

  /** The first entry's name is not used again in the same directory. */
  lemma FirstNameFresh(rel: string, name: string, inside: seq<string>, rest: Listing)
    requires Distinct([Join(rel, name)] + inside + PathsIn(rel, rest))
    ensures name !in TopNames(rest)
    ensures Distinct(inside) && Distinct(PathsIn(rel, rest))
  {
    DistinctParts([Join(rel, name)] + inside, PathsIn(rel, rest));
    DistinctParts([Join(rel, name)], inside);
    if name in TopNames(rest) {
      TopNamesArePaths(rel, rest, name);
    }
  }

  lemma {:induction false} FilesDistinct(rel: string, l: Listing)
    requires Distinct(PathsIn(rel, l))
    ensures DistinctKeys(FilePath, FilesIn(rel, l))
    decreases l
  {
    match l
    case End =>
    case File(e, rest) =>
      DistinctParts([Join(rel, e.name)], PathsIn(rel, rest));
      FilesDistinct(rel, rest);
      ListedPaths(rel, rest);
    case Dir(e, sub, rest) =>
      var path := Join(rel, e.name);
      DistinctParts([path] + PathsIn(path, sub), PathsIn(rel, rest));
      DistinctParts([path], PathsIn(path, sub));
      FilesDistinct(path, sub);
      FilesDistinct(rel, rest);
      ListedPaths(path, sub);
      ListedPaths(rel, rest);
  }

  // ------------------------------------------------ one directory inside the closure

  /** Files of another name's subtree are not below a directory of this one. */
  lemma OtherNameNotBelow(rel: string, name: string, p: string, other: string, q: string)
    requires PlainName(name) && PlainName(other) && name != other
    requires Under(rel, name, p) && Under(rel, other, q)
    ensures !Ancestor(p, q)
  {
    if Ancestor(p, q) {
      if p != Join(rel, name) {
        AncestorTransitive(Join(rel, name), p, q);
      }
      NamesOwnPaths(rel, name, other, q);
    }
  }

  lemma RestNotBelow(rel: string, name: string, p: string, rest: Listing)
    requires PlainName(name) && Plain(rest) && name !in TopNames(rest) && Under(rel, name, p)
    ensures Below(p, FilesIn(rel, rest)) == []
  {
    ListedPaths(rel, rest);
    forall f | f in FilesIn(rel, rest) ensures !Ancestor(p, f.relPath) {
      var other := PathsUnderNames(rel, rest, f.relPath);
      OtherNameNotBelow(rel, name, p, other, f.relPath);
    }
    BelowNone(p, FilesIn(rel, rest));
  }

  lemma SubNotBelow(rel: string, name: string, sub: Listing, p: string, other: string)
    requires PlainName(name) && Plain(sub) && PlainName(other) && name != other && Under(rel, other, p)
    ensures Below(p, FilesIn(Join(rel, name), sub)) == []
  {
    var path := Join(rel, name);
    SubPathsWithin(rel, name, sub);
    forall f | f in FilesIn(path, sub) ensures !Ancestor(p, f.relPath) {
      OtherNameNotBelow(rel, other, p, name, f.relPath);
    }
    BelowNone(p, FilesIn(path, sub));
  }

  lemma SubPathsWithin(rel: string, name: string, sub: Listing)
    requires PlainName(name) && Plain(sub)
    ensures forall q :: q in PathsIn(Join(rel, name), sub) ==> Ancestor(Join(rel, name), q)
    ensures forall f :: f in FilesIn(Join(rel, name), sub) ==> Ancestor(Join(rel, name), f.relPath)
    ensures forall d :: d in DirsIn(Join(rel, name), sub) ==> Ancestor(Join(rel, name), d.relPath)
  {
    var path := Join(rel, name);
    ListedPaths(path, sub);
    forall q | q in PathsIn(path, sub) ensures Ancestor(path, q) {
      var inner := PathsUnderNames(path, sub, q);
      assert Ancestor(path, Join(path, inner));
      if q != Join(path, inner) {
        AncestorTransitive(path, Join(path, inner), q);
      }
    }
  }

  /** What holds of the whole tree and is inherited by each directory in it. */
  ghost predicate Sound(g: Graph, rel: string, l: Listing, known: set<PageId>) {
    Faithful(g, l) && Plain(l) && Utf8Names(g.codec, l) && RootsIn(l, known) && Distinct(PathsIn(rel, l))
  }

  /** A directory listed in the closure is the unfolding of its root, and the
      closure's files below its path are exactly its own. */
  lemma {:induction false} DirectoryAt(g: Graph, rel: string, l: Listing, known: set<PageId>, d: SnapshotDirectory)
    returns (sub: Listing)
    requires Sound(g, rel, l, known) && d in DirsIn(rel, l)
    ensures ListingOf(g, d.directoryRoot) == Some(sub) && d.directoryRoot in known
    ensures d.relPath != "" && Sound(g, d.relPath, sub, known)
    ensures Below(d.relPath, FilesIn(rel, l)) == FilesIn(d.relPath, sub)
    decreases l
  {
    match l
    case File(e, rest) =>
      assert [Join(rel, e.name)] + [] + PathsIn(rel, rest) == PathsIn(rel, l);
      FirstNameFresh(rel, e.name, [], rest);
      sub := DirectoryAt(g, rel, rest, known, d);
      ListedPaths(rel, rest);
      var other := PathsUnderNames(rel, rest, d.relPath);
      OtherNameNotBelow(rel, other, d.relPath, e.name, Join(rel, e.name));
      BelowAppend(d.relPath, [FileAt(Join(rel, e.name), e)], FilesIn(rel, rest));
    case Dir(e, inner, rest) =>
      var path := Join(rel, e.name);
      FirstNameFresh(rel, e.name, PathsIn(path, inner), rest);
      SubPathsWithin(rel, e.name, inner);
      BelowAppend(d.relPath, FilesIn(path, inner), FilesIn(rel, rest));
      if d == SnapshotDirectory(path, e.childRoot) {
        sub := inner;
        BelowAll(path, FilesIn(path, inner));
        RestNotBelow(rel, e.name, path, rest);
      } else if d in DirsIn(path, inner) {
        sub := DirectoryAt(g, path, inner, known, d);
        RestNotBelow(rel, e.name, d.relPath, rest);
      } else {
        sub := DirectoryAt(g, rel, rest, known, d);
        ListedPaths(rel, rest);
        var other := PathsUnderNames(rel, rest, d.relPath);
        SubNotBelow(rel, e.name, inner, d.relPath, other);
      }
  }

  lemma PrefixedDistinct(p: string, fs: seq<SnapshotFile>)
    ensures DistinctKeys(FilePath, Prefixed(p, fs)) ==> DistinctKeys(FilePath, fs)
  {
    if DistinctKeys(FilePath, Prefixed(p, fs)) {
      forall i, j | 0 <= i < j < |fs| ensures FilePath(fs[i]) != FilePath(fs[j]) {
        assert FilePath(Prefixed(p, fs)[i]) != FilePath(Prefixed(p, fs)[j]);
      }
    }
  }

  lemma PrefixedKeepsOrder(p: string, fs: seq<SnapshotFile>)
    requires StrictlySorted(FilePath, fs)
    ensures StrictlySorted(FilePath, Prefixed(p, fs))
  {
    forall i, j | 0 <= i < j < |fs| ensures Lt(FilePath(Prefixed(p, fs)[i]), FilePath(Prefixed(p, fs)[j])) {
      LePrefix(p + "/", fs[i].relPath, fs[j].relPath);
      assert (p + "/" + fs[i].relPath)[|p| + 1..] == fs[i].relPath;
      assert (p + "/" + fs[j].relPath)[|p| + 1..] == fs[j].relPath;
      assert Lt(FilePath(fs[i]), FilePath(fs[j]));
    }
  }

  /** Relative file paths are distinct wherever absolute ones are. */
  lemma RelFilesDistinct(rel: string, l: Listing)
    requires Plain(l) && Distinct(PathsIn(rel, l))
    ensures DistinctKeys(FilePath, RelFiles(l))
  {
    FilesDistinct(rel, l);
    FilesInUnder(rel, l);
    PrefixedDistinct(rel, RelFiles(l));
  }

  /** Sorting the closure's files and keeping those below a directory gives
      that directory's own files, sorted and prefixed by its path. */
  lemma SortedBelow(rel: string, l: Listing, path: string, sub: Listing)
    requires Plain(l) && Distinct(PathsIn(rel, l)) && path != "" && Plain(sub) && Distinct(PathsIn(path, sub))
    requires Below(path, FilesIn(rel, l)) == FilesIn(path, sub)
    ensures Below(path, SortBy(FilePath, FilesIn(rel, l))) == Prefixed(path, SortBy(FilePath, RelFiles(sub)))
  {
    var all, own := FilesIn(rel, l), RelFiles(sub);
    var left, right := Below(path, SortBy(FilePath, all)), Prefixed(path, SortBy(FilePath, own));
    assert StrictlySorted(FilePath, left) by {
      FilesDistinct(rel, l);
      SortDistinct(FilePath, all);
      BelowKeepsOrder(path, SortBy(FilePath, all));
    }
    assert StrictlySorted(FilePath, right) by {
      RelFilesDistinct(path, sub);
      SortDistinct(FilePath, own);
      PrefixedKeepsOrder(path, SortBy(FilePath, own));
    }
    forall f ensures f in left <==> f in right {
      SortPermutes(FilePath, all);
      MultisetMembers(SortBy(FilePath, all), all);
      BelowMembers(path, all);
      BelowMembers(path, SortBy(FilePath, all));
      FilesInUnder(path, sub);
      PrefixedSort(path, own);
      MultisetMembers(right, Prefixed(path, own));
    }
    StrictlySortedUnique(FilePath, left, right);
  }

  // ---------------------------------------------------------------- main theorems

  ghost function GraphOf(c: Codec, pages: map<PageId, Bytes>): Graph
    requires Authentic(c, pages)
  {
    Graph(c, pages, Decoded(c, pages))
  }

  /** What it means for pages to be the complete closure of a root: authentic,
      with a finite acceptable unfolding, and none of them unreachable. */
  ghost predicate IsClosure(c: Codec, scope: string, root: PageId, pages: map<PageId, Bytes>) {
    Authentic(c, pages) && ListingOf(GraphOf(c, pages), root).Some? &&
    Acceptable(c, scope, ListingOf(GraphOf(c, pages), root).value) &&
    forall id :: id in pages ==> Reachable(GraphOf(c, pages), root, id)
  }

  ghost function TreeOf(c: Codec, scope: string, root: PageId, pages: map<PageId, Bytes>): Listing
    requires IsClosure(c, scope, root, pages)
  {
    ListingOf(GraphOf(c, pages), root).value
  }

  /** The lists of a closure, and its subtree facts if they were asked for. */
  datatype Walked = Walked(directories: seq<SnapshotDirectory>, files: seq<SnapshotFile>, facts: map<PageId, Facts>)

  /** No reachable page is missing from a closure. */
  lemma ClosureIsComplete(c: Codec, scope: string, root: PageId, pages: map<PageId, Bytes>)
    requires IsClosure(c, scope, root, pages)
    ensures forall id :: Reachable(GraphOf(c, pages), root, id) <==> id in pages
  {
    var g := GraphOf(c, pages);
    var s := set id | id in g.decoded && Needed(g, root, id);
    ListingUnfold(g, root);
    RadixKeeps(g, root);
    ReachesItself(g, root);
    assert Needed(g, root, root);
    forall a, b | a in s && Edge(g, a, b) ensures b in s {
      NeededStep(g, root, a, b);
    }
    ClosedHoldsReachable(g, s, root);
  }

  lemma SamePages(c: Codec, scope: string, root: PageId, pages: map<PageId, Bytes>, pages': map<PageId, Bytes>)
    requires CollisionFree(c.pageId) && IsClosure(c, scope, root, pages) && IsClosure(c, scope, root, pages')
    ensures forall id :: id in pages ==> id in pages' && pages'[id] == pages[id]
  {
    var g, g' := GraphOf(c, pages), GraphOf(c, pages');
    ClosureIsComplete(c, scope, root, pages);
    ClosureIsComplete(c, scope, root, pages');
    ReachesItself(g, root);
    ReachesItself(g', root);
    var s := pages.Keys * pages'.Keys;
    forall id | id in s ensures pages[id] == pages'[id] {
      assert c.pageId(pages[id]) == c.pageId(pages'[id]);
    }
    forall a, b | a in s && Edge(g, a, b) ensures b in s {
      assert Edge(g', a, b);
      ReachStep(g, root, a, b);
      ReachStep(g', root, a, b);
    }
    ClosedHoldsReachable(g, s, root);
  }

  /** A root determines its closure: the same pages, and so the same tree. */
  lemma ClosureUnique(c: Codec, scope: string, root: PageId, pages: map<PageId, Bytes>, pages': map<PageId, Bytes>)
    requires CollisionFree(c.pageId) && IsClosure(c, scope, root, pages) && IsClosure(c, scope, root, pages')
    ensures pages == pages'
  {
    SamePages(c, scope, root, pages, pages');
    SamePages(c, scope, root, pages', pages);
  }

  /** `id` is a page of the radix tree of a directory that unfolds. */
  ghost predicate Needed(g: Graph, root: PageId, id: PageId) {
    id in g.decoded && RadixOf(g, id).Some? &&
    exists d :: RadixPart(g, d, id) && ListingOf(g, d).Some?
  }

  lemma NeededStep(g: Graph, root: PageId, a: PageId, b: PageId)
    requires Needed(g, root, a) && Edge(g, a, b)
    ensures Needed(g, root, b)
  {
    var d :| RadixPart(g, d, a) && ListingOf(g, d).Some?;
    if c :| c in Children(g.decoded[a]) && c.childPageId == b {
      RadixPartChild(g, d, a, c);
    } else {
      var e :| e in Own(g.decoded[a]) && e.kind == Directory && e.childRoot == b;
      RadixKeeps(g, a);
      ListingUnfold(g, d);
      EntriesHaveListings(g, RadixOf(g, d).value, e);
      ListingUnfold(g, b);
      RadixPartItself(g, b);
    }
  }

  lemma {:induction false} EntriesHaveListings(g: Graph, es: seq<Entry>, e: Entry)
    requires EntriesOf(g, es).Some? && e in es && e.kind == Directory
    ensures ListingOf(g, e.childRoot).Some?
  {
    if es[0] != e {
      EntriesHaveListings(g, es[1..], e);
    }
  }

  /** Each page of a closure is the canonical build of the sorted entries below
      it, and each branch child declares the true number of its entries. */
  lemma ClosurePagesAreCanonical(c: Codec, scope: string, root: PageId, pages: map<PageId, Bytes>, id: PageId)
    requires IsClosure(c, scope, root, pages) && id in pages
    ensures var g := GraphOf(c, pages);
            RadixOf(g, id).Some? && c.build(RadixOf(g, id).value) == Some(pages[id]) && Sorted(Name, RadixOf(g, id).value) &&
            forall k :: k in Children(g.decoded[id]) ==>
              RadixOf(g, k.childPageId).Some? && |RadixOf(g, k.childPageId).value| == k.subtreeEntries
  {
    var g := GraphOf(c, pages);
    var s := set p | p in g.decoded && Needed(g, root, p);
    ListingUnfold(g, root);
    RadixPartItself(g, root);
    assert Needed(g, root, root);
    forall a, b | a in s && Edge(g, a, b) ensures b in s {
      NeededStep(g, root, a, b);
    }
    ClosedHoldsReachable(g, s, root);
    assert Needed(g, root, id);
    RadixIsCanonicalBuild(g, id);
    RadixKeeps(g, id);
  }

  /** The tree of a closure has every property the fact computation needs. */
  lemma ClosureSound(c: Codec, scope: string, root: PageId, pages: map<PageId, Bytes>, known: set<PageId>)
    requires DecodesPlainNames(c) && IsClosure(c, scope, root, pages)
    requires forall d :: d in DirsIn("", TreeOf(c, scope, root, pages)) ==> d.directoryRoot in known
    ensures Sound(GraphOf(c, pages), "", TreeOf(c, scope, root, pages), known)
  {
    var g, l := GraphOf(c, pages), TreeOf(c, scope, root, pages);
    ListingProperties(g, root, l);
    RootsOfDirs("", l, known);
    NamesAreUtf8(c, scope, "", l);
    DistinctParts([""], PathsIn("", l));
  }

  /** Subtree facts agree with the full walk. For every directory of the closure,
      its facts' files prefixed by its path are, in order, exactly the closure's
      files below that path; its count is every directory and file below it. */
  lemma FactsAgreeWithWalk(c: Codec, scope: string, root: PageId, pages: map<PageId, Bytes>, d: SnapshotDirectory, sub: Listing, f: Facts)
    requires DecodesPlainNames(c) && IsClosure(c, scope, root, pages)
    requires d == SnapshotDirectory("", root) || d in DirsIn("", TreeOf(c, scope, root, pages))
    requires ListingOf(GraphOf(c, pages), d.directoryRoot) == Some(sub)
    requires FactsFor(GraphOf(c, pages), d.directoryRoot, sub, f)
    ensures var all := SortBy(FilePath, FilesIn("", TreeOf(c, scope, root, pages)));
            if d.relPath == "" then f.files == all else Prefixed(d.relPath, f.files) == Below(d.relPath, all)
    ensures f.totalEntries == |DirsIn(d.relPath, sub)| + |FilesIn(d.relPath, sub)|
  {
    var g, l := GraphOf(c, pages), TreeOf(c, scope, root, pages);
    var known := set x | x in DirsIn("", l) :: x.directoryRoot;
    ClosureSound(c, scope, root, pages, known);
    CountIsPaths(d.relPath, sub);
    if d in DirsIn("", l) {
      var at := DirectoryAt(g, "", l, known, d);
      SortedBelow("", l, d.relPath, sub);
    } else {
      FilesInUnder("", l);
    }
  }

  /** Memoised radix pages and the roots of a walked tree hold everything
      reachable: a walk that succeeds has reached its whole closure. */
  lemma WalkReachesAll(g: Graph, root: PageId, l: Listing, known: set<PageId>)
    requires ListingOf(g, root) == Some(l) && root in known && RootsIn(l, known) && Faithful(g, l)
    requires forall id :: id in known ==> RadixOf(g, id).Some? && ChildrenWithin(g, id, known)
    ensures forall id :: Reachable(g, root, id) ==> id in known
  {
    var s := set id | id in known && InDirectory(g, root, l, id);
    ListingUnfold(g, root);
    RadixPartItself(g, root);
    assert InDirectory(g, root, l, root);
    forall a, b | a in s && Edge(g, a, b) ensures b in s {
      var d :| (d == root || d in Roots(l)) && RadixPart(g, d, a);
      if c :| c in Children(g.decoded[a]) && c.childPageId == b {
        RadixPartChild(g, d, a, c);
      } else {
        var e :| e in Own(g.decoded[a]) && e.kind == Directory && e.childRoot == b;
        RadixKeeps(g, a);
        RootsClosed(g, root, l, d, e);
        RootsKnownIn(l, known);
        RadixPartItself(g, b);
      }
    }
    ClosedHoldsReachable(g, s, root);
  }

  /** Roots of the subdirectories of a tree. */
  ghost function Roots(l: Listing): set<PageId> {
    match l
    case End => {}
    case File(_, rest) => Roots(rest)
    case Dir(e, sub, rest) => {e.childRoot} + Roots(sub) + Roots(rest)
  }

  ghost predicate InDirectory(g: Graph, root: PageId, l: Listing, id: PageId) {
    exists d :: (d == root || d in Roots(l)) && RadixPart(g, d, id)
  }

  lemma {:induction false} RootsKnownIn(l: Listing, known: set<PageId>)
    requires RootsIn(l, known)
    ensures Roots(l) <= known
  {
    match l
    case End =>
    case File(_, rest) => RootsKnownIn(rest, known);
    case Dir(_, sub, rest) =>
      RootsKnownIn(sub, known);
      RootsKnownIn(rest, known);
  }

  lemma {:induction false} RootsHoldTrees(g: Graph, l: Listing, d: PageId)
    requires Faithful(g, l) && d in Roots(l)
    ensures ListingOf(g, d).Some? && Roots(ListingOf(g, d).value) <= Roots(l)
  {
    match l
    case File(_, rest) => RootsHoldTrees(g, rest, d);
    case Dir(e, sub, rest) =>
      if d in Roots(sub) {
        RootsHoldTrees(g, sub, d);
      } else if d in Roots(rest) {
        RootsHoldTrees(g, rest, d);
      }
  }

  lemma {:induction false} EntryInRoots(g: Graph, es: seq<Entry>, l: Listing, e: Entry)
    requires EntriesOf(g, es) == Some(l) && e in es && e.kind == Directory
    ensures e.childRoot in Roots(l)
  {
    if es[0] != e {
      EntryInRoots(g, es[1..], l.rest, e);
    }
  }

  lemma RootsClosed(g: Graph, root: PageId, l: Listing, d: PageId, e: Entry)
    requires ListingOf(g, root) == Some(l) && Faithful(g, l) && (d == root || d in Roots(l))
    requires RadixOf(g, d).Some? && e in RadixOf(g, d).value && e.kind == Directory
    ensures e.childRoot in Roots(l)
  {
    if d in Roots(l) {
      RootsHoldTrees(g, l, d);
    }
    ListingUnfold(g, d);
    EntryInRoots(g, RadixOf(g, d).value, ListingOf(g, d).value, e);
  }

  lemma {:induction false} DirsDistinct(rel: string, l: Listing)
    requires Distinct(PathsIn(rel, l))
    ensures DistinctKeys(DirPath, DirsIn(rel, l))
    decreases l
  {
    match l
    case End =>
    case File(e, rest) =>
      DistinctParts([Join(rel, e.name)], PathsIn(rel, rest));
      DirsDistinct(rel, rest);
    case Dir(e, sub, rest) =>
      var path := Join(rel, e.name);
      DistinctParts([path] + PathsIn(path, sub), PathsIn(rel, rest));
      DistinctParts([path], PathsIn(path, sub));
      DirsDistinct(path, sub);
      DirsDistinct(rel, rest);
      ListedPaths(path, sub);
      ListedPaths(rel, rest);
  }

  lemma ListsStrict(root: PageId, l: Listing)
    requires Distinct([""] + PathsIn("", l))
    ensures StrictlySorted(DirPath, SortBy(DirPath, [SnapshotDirectory("", root)] + DirsIn("", l)))
    ensures StrictlySorted(FilePath, SortBy(FilePath, FilesIn("", l)))
  {
    DistinctParts([""], PathsIn("", l));
    FilesDistinct("", l);
    SortDistinct(FilePath, FilesIn("", l));
    DirsWithRoot(root, l);
    SortDistinct(DirPath, [SnapshotDirectory("", root)] + DirsIn("", l));
  }

  /** The root's own path is no other directory's. */
  lemma DirsWithRoot(root: PageId, l: Listing)
    requires Distinct([""] + PathsIn("", l)) && Distinct(PathsIn("", l)) && forall p :: p in [""] ==> p !in PathsIn("", l)
    ensures DistinctKeys(DirPath, [SnapshotDirectory("", root)] + DirsIn("", l))
  {
    var dirs := DirsIn("", l);
    var all := [SnapshotDirectory("", root)] + dirs;
    DirsDistinct("", l);
    ListedPaths("", l);
    forall i, j | 0 <= i < j < |all| ensures DirPath(all[i]) != DirPath(all[j]) {
      assert all[j] == dirs[j - 1] && dirs[j - 1] in dirs;
      assert "" in [""];
      if i > 0 {
        assert all[i] == dirs[i - 1];
      }
    }
  }

  /** The lists of a closure, sorted by path, have no path twice, and each
      content digest has one size in them. */
  lemma ClosureListsAreStrict(c: Codec, scope: string, root: PageId, pages: map<PageId, Bytes>)
    requires IsClosure(c, scope, root, pages)
    ensures var l := TreeOf(c, scope, root, pages);
            StrictlySorted(DirPath, SortBy(DirPath, [SnapshotDirectory("", root)] + DirsIn("", l))) &&
            StrictlySorted(FilePath, SortBy(FilePath, FilesIn("", l))) &&
            OneSizePerDigest(FilesIn("", l))
  {
    ListsStrict(root, TreeOf(c, scope, root, pages));
  }

  /** What the validator holds after a successful walk from the root. */
  ghost predicate WalkDone(v: ClosureValidator, scope: string, root: PageId)
    reads v
  {
    v.Valid() && Authentic(v.codec, v.bytes) && v.Pages() == GraphOf(v.codec, v.bytes) &&
    ListingOf(v.Pages(), root).Some? && root in v.entries &&
    Acceptable(v.codec, scope, ListingOf(v.Pages(), root).value) &&
    v.directories == [SnapshotDirectory("", root)] + DirsIn("", ListingOf(v.Pages(), root).value) &&
    v.files == FilesIn("", ListingOf(v.Pages(), root).value) &&
    (forall d :: d in v.directories ==> d.directoryRoot in v.entries) &&
    forall p :: p in v.reached ==> Reachable(v.Pages(), root, p)
  }

  /** A finished walk has reached exactly the pages reachable from its root. */
  lemma ReachedIsReachable(v: ClosureValidator, scope: string, root: PageId)
    requires DecodesPlainNames(v.codec) && WalkDone(v, scope, root)
    ensures forall p :: p in v.reached <==> Reachable(v.Pages(), root, p)
  {
    var g, l := v.Pages(), ListingOf(v.Pages(), root).value;
    ListingProperties(g, root, l);
    forall d | d in DirsIn("", l) ensures d.directoryRoot in v.entries {
      assert d in v.directories;
    }
    RootsOfDirs("", l, v.entries.Keys);
    WalkReachesAll(g, root, l, v.entries.Keys);
  }

  /** The count test is the closure test: as many pages reached as supplied
      means every supplied page is reachable. */
  lemma CountDecidesClosure(v: ClosureValidator, scope: string, root: PageId)
    requires DecodesPlainNames(v.codec) && WalkDone(v, scope, root)
    ensures |v.reached| == |v.bytes| <==> IsClosure(v.codec, scope, root, v.bytes)
  {
    ReachedIsReachable(v, scope, root);
    if |v.reached| == |v.bytes| {
      SameSize(v.reached, v.bytes.Keys);
    } else {
      assert v.reached != v.bytes.Keys;
    }
  }

  lemma SameSize<T>(a: set<T>, b: set<T>)
    requires a <= b && |a| == |b|
    ensures a == b
  {
    assert b == a + (b - a);
    assert |b - a| == 0;
  }

  /** Facts for every directory root of a finished walk. */
  method CollectFacts(v: ClosureValidator, scope: string, root: PageId) returns (r: Result<map<PageId, Facts>>)
    requires DecodesPlainNames(v.codec) && WalkDone(v, scope, root) && |v.reached| == |v.bytes|
    ensures r.Ok? ==> MemoSound(v.Pages(), r.value) && forall d :: d in v.directories ==> d.directoryRoot in r.value
    ensures r.Err? ==> r.code == LimitExceeded
  {
    CountDecidesClosure(v, scope, root);
    var memo: map<PageId, Facts> := map[];
    for k := 0 to |v.directories|
      invariant MemoSound(v.Pages(), memo)
      invariant forall d :: d in v.directories[..k] ==> d.directoryRoot in memo
    {
      SplitAt(v.directories, k);
      var step := FactsOfDirectory(v, scope, root, v.directories[k], memo);
      if step.Err? {
        return Err(step.code);
      }
      memo := step.value;
    }
    assert v.directories[..|v.directories|] == v.directories;
    return Ok(memo);
  }

  method FactsOfDirectory(v: ClosureValidator, scope: string, root: PageId, d: SnapshotDirectory, memo: map<PageId, Facts>)
    returns (r: Result<map<PageId, Facts>>)
    requires DecodesPlainNames(v.codec) && WalkDone(v, scope, root) && IsClosure(v.codec, scope, root, v.bytes)
    requires d in v.directories && MemoSound(v.Pages(), memo)
    ensures r.Ok? ==> MemoSound(v.Pages(), r.value) && d.directoryRoot in r.value && forall id :: id in memo ==> id in r.value
    ensures r.Err? ==> r.code == LimitExceeded
  {
    ghost var sub := DirectoryOf(v, scope, root, d);
    var fact, grown := v.SubtreeFacts(d.directoryRoot, memo, sub);
    if fact.Err? {
      return Err(fact.code);
    }
    return Ok(grown);
  }

  lemma DirectoryOf(v: ClosureValidator, scope: string, root: PageId, d: SnapshotDirectory) returns (sub: Listing)
    requires DecodesPlainNames(v.codec) && WalkDone(v, scope, root) && IsClosure(v.codec, scope, root, v.bytes)
    requires d in v.directories
    ensures ListingOf(v.Pages(), d.directoryRoot) == Some(sub) && d.directoryRoot in v.entries
    ensures RootsIn(sub, v.entries.Keys) && Utf8Names(v.codec, sub) && DistinctKeys(FilePath, RelFiles(sub))
  {
    var g, l := v.Pages(), TreeOf(v.codec, scope, root, v.bytes);
    forall x | x in DirsIn("", l) ensures x.directoryRoot in v.entries {
      assert x in v.directories;
    }
    ClosureSound(v.codec, scope, root, v.bytes, v.entries.Keys);
    if d in DirsIn("", l) {
      sub := DirectoryAt(g, "", l, v.entries.Keys, d);
    } else {
      sub := l;
    }
    RelFilesDistinct(d.relPath, sub);
  }

  /** Validate untrusted pages from a committed root. Success is exactly closure
      membership, up to the configured budgets; the directories and files are
      the path-sorted unfolding, without duplicates. */
  method ValidatePages(c: Codec, scope: string, root: PageId, pages: map<PageId, Bytes>, includeFacts: bool, maxNodes: nat, maxLogicalBytes: nat)
    returns (r: Result<Walked>)
    requires DecodesPlainNames(c)
    ensures r.Ok? ==> IsClosure(c, scope, root, pages)
    ensures r.Err? && r.code != LimitExceeded ==> !IsClosure(c, scope, root, pages)
    ensures r.Ok? ==>
              var l := TreeOf(c, scope, root, pages);
              r.value.directories == SortBy(DirPath, [SnapshotDirectory("", root)] + DirsIn("", l)) &&
              r.value.files == SortBy(FilePath, FilesIn("", l))
    ensures r.Ok? && includeFacts ==>
              MemoSound(GraphOf(c, pages), r.value.facts) &&
              forall d :: d in r.value.directories ==> d.directoryRoot in r.value.facts
  {
    var v := new ClosureValidator(c, pages, maxNodes, maxNodes, maxLogicalBytes);
    var loaded := v.LoadPages();
    if loaded.Err? {
      return Err(loaded.code);
    }
    ghost var g := GraphOf(c, pages);
    assert v.Pages() == g;
    var walked := v.WalkDirectory(scope, "", root, {});
    assert v.Pages() == g;
    if ListingOf(g, root).Some? {
      WalkAcceptsExactly(c, scope, root, ListingOf(g, root).value);
    }
    if walked.Err? {
      return Err(walked.code);
    }
    assert SnapshotDirectory("", root) in v.directories;
    CountDecidesClosure(v, scope, root);
    if |v.reached| != |pages| {
      return Err(IntegrityError);
    }
    var directories, files := SortBy(DirPath, v.directories), SortBy(FilePath, v.files);
    if !includeFacts {
      return Ok(Walked(directories, files, map[]));
    }
    var facts := CollectFacts(v, scope, root);
    if facts.Err? {
      return Err(facts.code);
    }
    SortPermutes(DirPath, v.directories);
    MultisetMembers(directories, v.directories);
    return Ok(Walked(directories, files, facts.value));
  }

  // --------------------------------------------------------- one directory by itself

  /** These pages prove one directory: authentic, the canonical radix tree of the
      root's entries, and nothing else. */
  ghost predicate IsDirectoryProof(c: Codec, root: PageId, pages: map<PageId, Bytes>) {
    Authentic(c, pages) && RadixOf(GraphOf(c, pages), root).Some? &&
    forall id :: id in pages ==> Reachable(RadixOnly(GraphOf(c, pages)), root, id)
  }

  /** The memo after a successful expansion holds every radix page of the root. */
  lemma RadixPagesKnown(g: Graph, entries: map<PageId, seq<Entry>>, reached: set<PageId>, root: PageId)
    requires EntriesSound(g, entries, reached) && root in entries
    ensures forall id :: Reachable(RadixOnly(g), root, id) ==> id in reached
  {
    var r := RadixOnly(g);
    forall a, b | a in entries.Keys && Edge(r, a, b) ensures b in entries.Keys {
      assert ChildrenWithin(g, a, entries.Keys) && Children(r.decoded[a]) == Children(g.decoded[a]);
    }
    ClosedHoldsReachable(r, entries.Keys, root);
  }

  lemma CountDecidesProof(c: Codec, root: PageId, pages: map<PageId, Bytes>, entries: map<PageId, seq<Entry>>, reached: set<PageId>)
    requires Authentic(c, pages) && RadixOf(GraphOf(c, pages), root).Some? && reached <= pages.Keys && root in entries
    requires EntriesSound(GraphOf(c, pages), entries, reached) && ReachedBelow(RadixOnly(GraphOf(c, pages)), {}, reached, root)
    ensures |reached| == |pages| <==> IsDirectoryProof(c, root, pages)
  {
    RadixPagesKnown(GraphOf(c, pages), entries, reached, root);
    if |reached| == |pages| {
      SameSize(reached, pages.Keys);
    } else {
      assert reached != pages.Keys;
    }
  }

  /** Prove one directory from the pages of its radix tree, up to the budget. */
  method VerifyDirectoryPages(c: Codec, root: PageId, pages: map<PageId, Bytes>, maxEntries: nat, maxLogicalBytes: nat)
    returns (r: Result<seq<Entry>>)
    ensures r.Ok? ==> IsDirectoryProof(c, root, pages) && RadixOf(GraphOf(c, pages), root) == Some(r.value)
    ensures r.Err? && r.code != LimitExceeded ==> !IsDirectoryProof(c, root, pages)
  {
    var v := new ClosureValidator(c, pages, maxEntries, maxEntries, maxLogicalBytes);
    var loaded := v.LoadPages();
    if loaded.Err? {
      return Err(loaded.code);
    }
    ghost var g := GraphOf(c, pages);
    assert v.Pages() == g;
    var entries := v.RadixEntries(root, 0, {});
    assert v.Pages() == g;
    if entries.Err? {
      return Err(entries.code);
    }
    CountDecidesProof(c, root, pages, v.entries, v.reached);
    if |v.reached| != |pages| {
      return Err(IntegrityError);
    }
    return entries;
  }
}
