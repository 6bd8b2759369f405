/** Manifest policy: which file lists may be committed, and the unique sorted
    blob dependencies they stand for. */
module Manifest {
  import opened Base
  import opened Ordering

  datatype BlobDependency = BlobDependency(digest: Digest, size: nat)

  function DepDigest(d: BlobDependency): string {
    d.digest
  }

  predicate PartOk(part: string, full: bool) {
    part != "" && part != "." && part != ".." && |part| <= 255 && '\0' !in part && (full || '\\' !in part)
  }

  predicate PathOk(path: string, full: bool) {
    |path| <= 4096 && |Split(path)| <= 256 && forall part :: part in Split(path) ==> PartOk(part, full)
  }

  predicate KindOk(kind: string) {
    kind == "file" || kind == "regular" || kind == "executable" || kind == "symlink"
  }

  predicate FileOk(f: SnapshotFile, full: bool) {
    PathOk(f.relPath, full) && KindOk(f.fsKind) && IsDigest(f.contentDigest)
  }

  function Total(m: seq<SnapshotFile>): nat {
    if m == [] then 0 else Total(m[..|m| - 1]) + m[|m| - 1].size
  }

  predicate Uses(order: seq<BlobDependency>, digest: Digest) {
    exists d :: d in order && d.digest == digest
  }

  /** The dependency is one of the manifest's files. */
  ghost predicate Stems(m: seq<SnapshotFile>, d: BlobDependency) {
    exists f :: f in m && d == BlobDependency(f.contentDigest, f.size)
  }

  /** First use of each content digest, in manifest order. */
  function FirstUses(m: seq<SnapshotFile>): seq<BlobDependency> {
    if m == [] then []
    else
      var f, before := m[|m| - 1], FirstUses(m[..|m| - 1]);
      if Uses(before, f.contentDigest) then before
      else before + [BlobDependency(f.contentDigest, f.size)]
  }

  function Dependencies(m: seq<SnapshotFile>): seq<BlobDependency> {
    SortBy(DepDigest, FirstUses(m))
  }

  ghost predicate DistinctPaths(m: seq<SnapshotFile>) {
    forall i, j :: 0 <= i < j < |m| ==> m[i].relPath != m[j].relPath
  }

  ghost predicate OneSize(m: seq<SnapshotFile>) {
    forall i, j :: 0 <= i < j < |m| && m[i].contentDigest == m[j].contentDigest ==> m[i].size == m[j].size
  }

  ghost predicate NoAncestor(m: seq<SnapshotFile>) {
    forall f, g :: f in m && g in m ==> !Ancestor(f.relPath, g.relPath)
  }

  /** Everything the policy demands of a manifest. */
  ghost predicate ManifestOk(m: seq<SnapshotFile>, full: bool) {
    (forall f :: f in m ==> FileOk(f, full)) && DistinctPaths(m) && OneSize(m) && Total(m) <= U64_MAX && NoAncestor(m)
  }

  lemma {:induction false} TotalPrefix(m: seq<SnapshotFile>, k: nat)
    requires k <= |m|
    ensures Total(m[..k]) <= Total(m)
    decreases |m| - k
  {
    if k < |m| {
      TotalPrefix(m, k + 1);
      assert m[..k + 1][..k] == m[..k];
    } else {
      assert m[..k] == m;
    }
  }

  lemma {:induction false} FirstUsesCover(m: seq<SnapshotFile>)
    ensures forall f :: f in m ==> Uses(FirstUses(m), f.contentDigest)
  {
    if m != [] {
      var f, front := m[|m| - 1], m[..|m| - 1];
      FirstUsesCover(front);
      assert m == front + [f];
      var before, all := FirstUses(front), FirstUses(m);
      forall g | g in m ensures Uses(all, g.contentDigest) {
        if Uses(before, g.contentDigest) {
          var d :| d in before && d.digest == g.contentDigest;
          assert d in all;
        } else {
          assert BlobDependency(f.contentDigest, f.size) in all;
        }
      }
    }
  }

  lemma {:induction false} FirstUsesStem(m: seq<SnapshotFile>)
    ensures forall d :: d in FirstUses(m) ==> Stems(m, d)
  {
    if m != [] {
      var f, front := m[|m| - 1], m[..|m| - 1];
      FirstUsesStem(front);
      assert m == front + [f];
      forall d | d in FirstUses(m) ensures Stems(m, d) {
        if d in FirstUses(front) {
          var g :| g in front && d == BlobDependency(g.contentDigest, g.size);
          assert g in m;
        } else {
          assert f in m;
        }
      }
    }
  }

  lemma {:induction false} FirstUsesDistinct(m: seq<SnapshotFile>)
    ensures DistinctKeys(DepDigest, FirstUses(m))
  {
    if m != [] {
      var f, front := m[|m| - 1], m[..|m| - 1];
      FirstUsesDistinct(front);
      var before, all := FirstUses(front), FirstUses(m);
      forall i, j | 0 <= i < j < |all| ensures DepDigest(all[i]) != DepDigest(all[j]) {
        assert all[i] in before;
      }
    }
  }

  /** The dependencies of a valid manifest are its (digest, size) pairs, each
      once, in strictly increasing digest order. */
  lemma DependenciesExact(m: seq<SnapshotFile>)
    requires OneSize(m)
    ensures StrictlySorted(DepDigest, Dependencies(m))
    ensures forall f :: f in m ==> BlobDependency(f.contentDigest, f.size) in Dependencies(m)
    ensures forall d :: d in Dependencies(m) ==> Stems(m, d)
  {
    FirstUsesStem(m);
    FirstUsesDistinct(m);
    SortDistinct(DepDigest, FirstUses(m));
    SortPermutes(DepDigest, FirstUses(m));
    MultisetMembers(Dependencies(m), FirstUses(m));
    forall f | f in m ensures BlobDependency(f.contentDigest, f.size) in FirstUses(m) {
      UseOf(m, f);
    }
  }

  lemma UseOf(m: seq<SnapshotFile>, f: SnapshotFile)
    requires OneSize(m) && f in m
    ensures BlobDependency(f.contentDigest, f.size) in FirstUses(m)
  {
    FirstUsesCover(m);
    FirstUsesStem(m);
    assert Uses(FirstUses(m), f.contentDigest);
    var d :| d in FirstUses(m) && d.digest == f.contentDigest;
    assert Stems(m, d);
    var g :| g in m && d == BlobDependency(g.contentDigest, g.size);
    SizesEqual(m, f, g);
  }

  lemma SizesEqual(m: seq<SnapshotFile>, f: SnapshotFile, g: SnapshotFile)
    requires OneSize(m) && f in m && g in m && f.contentDigest == g.contentDigest
    ensures f.size == g.size
  {
    var i :| 0 <= i < |m| && m[i] == f;
    var j :| 0 <= j < |m| && m[j] == g;
    if i < j {
      assert m[i].size == m[j].size;
    } else if j < i {
      assert m[j].size == m[i].size;
    }
  }

  /** What the scan over the files has established for a prefix. */
  ghost predicate Scanned(m: seq<SnapshotFile>, full: bool, paths: set<string>, blobs: map<Digest, nat>, order: seq<BlobDependency>, total: nat) {
    (forall f :: f in m ==> FileOk(f, full) && f.relPath in paths) && DistinctPaths(m) &&
    (forall p :: p in paths ==> HasPath(m, p)) &&
    Sized(m, blobs, order) && total == Total(m)
  }

  ghost predicate HasPath(m: seq<SnapshotFile>, p: string) {
    exists f :: f in m && f.relPath == p
  }

  /** `blobs` maps each digest in use to its one size. */
  ghost predicate Sized(m: seq<SnapshotFile>, blobs: map<Digest, nat>, order: seq<BlobDependency>) {
    (forall f :: f in m ==> f.contentDigest in blobs && blobs[f.contentDigest] == f.size) &&
    (forall d :: d in blobs ==> Uses(order, d)) &&
    order == FirstUses(m)
  }

  lemma SizedMeansOneSize(m: seq<SnapshotFile>, blobs: map<Digest, nat>, order: seq<BlobDependency>)
    requires Sized(m, blobs, order)
    ensures OneSize(m)
  {
    forall i, j | 0 <= i < j < |m| && m[i].contentDigest == m[j].contentDigest ensures m[i].size == m[j].size {
      assert m[i] in m && m[j] in m;
    }
  }

  lemma SizedStep(m: seq<SnapshotFile>, f: SnapshotFile, blobs: map<Digest, nat>, order: seq<BlobDependency>)
    requires Sized(m, blobs, order) && (f.contentDigest in blobs ==> blobs[f.contentDigest] == f.size)
    ensures Sized(m + [f], blobs[f.contentDigest := f.size],
                  if f.contentDigest in blobs then order else order + [BlobDependency(f.contentDigest, f.size)])
  {
    var n, grown := m + [f], blobs[f.contentDigest := f.size];
    var order' := if f.contentDigest in blobs then order else order + [BlobDependency(f.contentDigest, f.size)];
    assert n[..|n| - 1] == m && n[|n| - 1] == f;
    FirstUsesStem(m);
    if Uses(order, f.contentDigest) {
      var d :| d in order && d.digest == f.contentDigest;
      assert Stems(m, d);
      var g :| g in m && d == BlobDependency(g.contentDigest, g.size);
      assert f.contentDigest in blobs;
    }
    forall d | d in grown ensures Uses(order', d) {
      if d in blobs {
        assert Uses(order, d);
        var u :| u in order && u.digest == d;
        assert u in order';
      } else {
        assert BlobDependency(f.contentDigest, f.size) in order';
      }
    }
  }

  lemma ScanStep(m: seq<SnapshotFile>, f: SnapshotFile, full: bool, paths: set<string>, blobs: map<Digest, nat>, order: seq<BlobDependency>, total: nat)
    requires Scanned(m, full, paths, blobs, order, total)
    requires FileOk(f, full) && f.relPath !in paths && (f.contentDigest in blobs ==> blobs[f.contentDigest] == f.size)
    ensures Scanned(m + [f], full, paths + {f.relPath}, blobs[f.contentDigest := f.size],
                    if f.contentDigest in blobs then order else order + [BlobDependency(f.contentDigest, f.size)], total + f.size)
  {
    var n := m + [f];
    assert n[..|n| - 1] == m;
    SizedStep(m, f, blobs, order);
    PathsStep(m, f, paths);
  }

  lemma PathsStep(m: seq<SnapshotFile>, f: SnapshotFile, paths: set<string>)
    requires DistinctPaths(m) && (forall g :: g in m ==> g.relPath in paths) && (forall p :: p in paths ==> HasPath(m, p)) && f.relPath !in paths
    ensures DistinctPaths(m + [f]) && (forall g :: g in m + [f] ==> g.relPath in paths + {f.relPath})
    ensures forall p :: p in paths + {f.relPath} ==> HasPath(m + [f], p)
  {
    var n := m + [f];
    forall i, j | 0 <= i < j < |n| ensures n[i].relPath != n[j].relPath {
      assert n[i] in m;
    }
    forall p | p in paths + {f.relPath} ensures HasPath(n, p) {
      if p in paths {
        var g :| g in m && g.relPath == p;
        assert g in n;
      } else {
        assert f in n;
      }
    }
  }

  /** What the scan refuses is outside the policy. */
  lemma ScanRejects(m: seq<SnapshotFile>, k: nat, full: bool, paths: set<string>, blobs: map<Digest, nat>, order: seq<BlobDependency>, total: nat)
    requires k < |m| && Scanned(m[..k], full, paths, blobs, order, total)
    ensures !FileOk(m[k], full) || m[k].relPath in paths ==> !ManifestOk(m, full)
    ensures m[k].contentDigest in blobs && blobs[m[k].contentDigest] != m[k].size ==> !ManifestOk(m, full)
    ensures total + m[k].size > U64_MAX ==> !ManifestOk(m, full)
  {
    var f := m[k];
    assert f in m;
    if f.relPath in paths {
      RepeatedPath(m, k);
    }
    if f.contentDigest in blobs && blobs[f.contentDigest] != f.size {
      ConflictingSize(m, k, blobs, order);
    }
    if total + f.size > U64_MAX {
      TotalPrefix(m, k + 1);
      assert m[..k + 1][..k] == m[..k];
    }
  }

  lemma ScanNext(m: seq<SnapshotFile>, k: nat, full: bool, paths: set<string>, blobs: map<Digest, nat>, order: seq<BlobDependency>, total: nat)
    requires k < |m| && Scanned(m[..k], full, paths, blobs, order, total)
    requires FileOk(m[k], full) && m[k].relPath !in paths && (m[k].contentDigest in blobs ==> blobs[m[k].contentDigest] == m[k].size)
    ensures Scanned(m[..k + 1], full, paths + {m[k].relPath}, blobs[m[k].contentDigest := m[k].size],
                    if m[k].contentDigest in blobs then order else order + [BlobDependency(m[k].contentDigest, m[k].size)], total + m[k].size)
  {
    SplitAt(m, k);
    ScanStep(m[..k], m[k], full, paths, blobs, order, total);
  }

  lemma ScanDone(m: seq<SnapshotFile>, full: bool, paths: set<string>, blobs: map<Digest, nat>, order: seq<BlobDependency>, total: nat)
    requires Scanned(m, full, paths, blobs, order, total) && total <= U64_MAX
    ensures ManifestOk(m, full) <==> NoAncestor(m)
    ensures (SortBy(DepDigest, order), total) == (Dependencies(m), Total(m))
    ensures (forall f :: f in m ==> f.relPath in paths) && forall p :: p in paths ==> HasPath(m, p)
  {
    SizedMeansOneSize(m, blobs, order);
  }

  /** Accepts exactly the manifests of the policy, and returns their unique
      dependencies and byte total. */
  method ValidateManifest(m: seq<SnapshotFile>, full: bool) returns (r: Result<(seq<BlobDependency>, nat)>)
    ensures r.Ok? <==> ManifestOk(m, full)
    ensures r.Ok? ==> r.value == (Dependencies(m), Total(m))
    ensures r.Err? ==> r.code == IntegrityError
  {
    var paths: set<string> := {};
    var blobs: map<Digest, nat> := map[];
    var order: seq<BlobDependency> := [];
    var total: nat := 0;
    for k := 0 to |m|
      invariant Scanned(m[..k], full, paths, blobs, order, total) && total <= U64_MAX
    {
      var f := m[k];
      ScanRejects(m, k, full, paths, blobs, order, total);
      if !FileOk(f, full) {
        return Err(IntegrityError);
      }
      if f.relPath in paths {
        return Err(IntegrityError);
      }
      if f.contentDigest in blobs && blobs[f.contentDigest] != f.size {
        return Err(IntegrityError);
      }
      if total + f.size > U64_MAX {
        return Err(IntegrityError);
      }
      ScanNext(m, k, full, paths, blobs, order, total);
      if f.contentDigest !in blobs {
        order := order + [BlobDependency(f.contentDigest, f.size)];
      }
      paths, blobs, total := paths + {f.relPath}, blobs[f.contentDigest := f.size], total + f.size;
    }
    assert m[..|m|] == m;
    ScanDone(m, full, paths, blobs, order, total);
    var clear := NoneAncestor(m, paths);
    if !clear {
      return Err(IntegrityError);
    }
    return Ok((SortBy(DepDigest, order), total));
  }

  /** The second pass: no manifest path is a directory of another. */
  method NoneAncestor(ghost m: seq<SnapshotFile>, paths: set<string>) returns (clear: bool)
    requires forall f :: f in m ==> f.relPath in paths
    requires forall p :: p in paths ==> HasPath(m, p)
    ensures clear <==> NoAncestor(m)
  {
    var todo := paths;
    while todo != {}
      invariant todo <= paths
      invariant forall p, q :: p in paths && q in paths && q !in todo ==> !Ancestor(p, q)
      decreases |todo|
    {
      var q :| q in todo;
      clear := NoPrefixIn(paths, q);
      if !clear {
        ghost var p :| p in paths && Ancestor(p, q);
        AncestorInManifest(m, p, q);
        return false;
      }
      todo := todo - {q};
    }
    return true;
  }

  lemma AncestorInManifest(m: seq<SnapshotFile>, p: string, q: string)
    requires HasPath(m, p) && HasPath(m, q) && Ancestor(p, q)
    ensures !NoAncestor(m)
  {
    var f :| f in m && f.relPath == p;
    var g :| g in m && g.relPath == q;
    assert Ancestor(f.relPath, g.relPath);
  }

  /** No proper directory prefix of `q` is itself one of the paths. */
  method NoPrefixIn(paths: set<string>, q: string) returns (clear: bool)
    ensures clear <==> forall p :: p in paths ==> !Ancestor(p, q)
  {
    for offset := 0 to |q|
      invariant forall p :: p in paths && |p| < offset ==> !Ancestor(p, q)
    {
      if q[offset] == '/' && q[..offset] in paths {
        assert Ancestor(q[..offset], q);
        return false;
      }
    }
    return true;
  }

  lemma RepeatedPath(m: seq<SnapshotFile>, k: nat)
    requires k < |m| && HasPath(m[..k], m[k].relPath)
    ensures !DistinctPaths(m)
  {
    var g :| g in m[..k] && g.relPath == m[k].relPath;
    var i :| 0 <= i < k && m[i] == g;
    assert m[i].relPath == m[k].relPath;
  }

  lemma ConflictingSize(m: seq<SnapshotFile>, k: nat, blobs: map<Digest, nat>, order: seq<BlobDependency>)
    requires k < |m| && Sized(m[..k], blobs, order)
    requires m[k].contentDigest in blobs && blobs[m[k].contentDigest] != m[k].size
    ensures !OneSize(m)
  {
    FirstUsesStem(m[..k]);
    assert Uses(order, m[k].contentDigest);
    var d :| d in order && d.digest == m[k].contentDigest;
    assert Stems(m[..k], d);
    var g :| g in m[..k] && d == BlobDependency(g.contentDigest, g.size);
    var i :| 0 <= i < k && m[i] == g;
    assert m[i].contentDigest == m[k].contentDigest && m[i].size != m[k].size;
  }
}
