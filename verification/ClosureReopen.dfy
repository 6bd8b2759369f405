/** Reopening a snapshot from canonical descriptor bytes and stored pages, and why
    a snapshot id fixes everything that can be reopened under it. */
module ClosureReopen {
  import opened Base
  import opened Ordering
  import opened PageGraph
  import opened LogicalTree
  import opened ClosureTheorems

  /** What a serving descriptor commits to. */
  datatype Serving = Serving(instanceId: string, namespaceViewId: string, scope: string, metadataRoot: PageId)

  /** Page codec, descriptor codec and descriptor hash. Encoding fails on a
      descriptor outside the supported profile. */
  datatype Validator = Validator(
    pages: Codec,
    decode: Bytes -> Option<Serving>,
    encode: Serving -> Option<Bytes>,
    snapshotId: Serving -> Digest)

  /** The closure was validated from these descriptor bytes and these pages: the
      bytes are canonical, the pages are the complete closure of the committed root,
      and the lists are its path-sorted unfolding. */
  ghost predicate Reopens(v: Validator, bytes: Bytes, table: map<Digest, Bytes>, c: Closure) {
    v.decode(bytes).Some? && v.encode(v.decode(bytes).value) == Some(bytes) &&
    IsClosure(v.pages, v.decode(bytes).value.scope, v.decode(bytes).value.metadataRoot, table) &&
    Describes(v, v.decode(bytes).value, bytes, c) && StrictlySorted(PageKey, c.pages) && PageMap(c.pages) == table &&
    ListsTree(v.decode(bytes).value.metadataRoot, TreeOf(v.pages, v.decode(bytes).value.scope, v.decode(bytes).value.metadataRoot, table), c)
  }

  ghost predicate Describes(v: Validator, s: Serving, bytes: Bytes, c: Closure) {
    c.snapshotId == v.snapshotId(s) && c.namespaceViewId == s.namespaceViewId && c.scope == s.scope && c.descriptorBytes == bytes
  }

  ghost predicate ListsTree(root: PageId, l: Listing, c: Closure) {
    c.directories == SortBy(DirPath, [SnapshotDirectory("", root)] + DirsIn("", l)) && c.files == SortBy(FilePath, FilesIn("", l))
  }

  ghost predicate CanReopen(v: Validator, bytes: Bytes, table: map<Digest, Bytes>) {
    exists c :: Reopens(v, bytes, table, c)
  }

  /** The closure these bytes and pages reopen to, if they do. */
  ghost function Reopened(v: Validator, bytes: Bytes, table: map<Digest, Bytes>): (c: Option<Closure>)
    ensures c.Some? ==> Reopens(v, bytes, table, c.value)
    ensures c.None? ==> !CanReopen(v, bytes, table)
  {
    if CanReopen(v, bytes, table) then var c :| Reopens(v, bytes, table, c); Some(c) else None
  }

  // --------------------------------------------------------------- pages in key order

  /** A table of pages and its listing determine each other. */
  lemma {:induction false} PageMapMembers(pages: seq<StoredPage>)
    requires DistinctKeys(PageKey, pages)
    ensures forall p :: p in pages <==> p.pageId in PageMap(pages) && PageMap(pages)[p.pageId] == p.bytes
  {
    if pages != [] {
      var n := |pages| - 1;
      var front, last := pages[..n], pages[n];
      forall i, j | 0 <= i < j < n ensures PageKey(front[i]) != PageKey(front[j]) {
        assert PageKey(pages[i]) != PageKey(pages[j]);
      }
      PageMapMembers(front);
      assert pages == front + [last];
      forall p | p in front ensures p.pageId != last.pageId {
        var i :| 0 <= i < n && front[i] == p;
        assert PageKey(pages[i]) != PageKey(pages[n]);
      }
    }
  }

  lemma StrictIsDistinct(pages: seq<StoredPage>)
    requires StrictlySorted(PageKey, pages)
    ensures DistinctKeys(PageKey, pages)
  {
    forall i, j | 0 <= i < j < |pages| ensures PageKey(pages[i]) != PageKey(pages[j]) {
      assert Lt(PageKey(pages[i]), PageKey(pages[j]));
    }
  }

  lemma OneListing(a: seq<StoredPage>, b: seq<StoredPage>)
    requires StrictlySorted(PageKey, a) && StrictlySorted(PageKey, b) && PageMap(a) == PageMap(b)
    ensures a == b
  {
    StrictIsDistinct(a);
    StrictIsDistinct(b);
    PageMapMembers(a);
    PageMapMembers(b);
    StrictlySortedUnique(PageKey, a, b);
  }

  /** Pages with the same members make the same table. */
  lemma SameTable(a: seq<StoredPage>, b: seq<StoredPage>)
    requires DistinctKeys(PageKey, a) && DistinctKeys(PageKey, b) && forall p :: p in a <==> p in b
    ensures PageMap(a) == PageMap(b)
  {
    PageMapMembers(a);
    PageMapMembers(b);
    forall id | id in PageMap(a) ensures id in PageMap(b) && PageMap(b)[id] == PageMap(a)[id] {
      assert StoredPage(id, PageMap(a)[id]) in a;
    }
    forall id | id in PageMap(b) ensures id in PageMap(a) {
      assert StoredPage(id, PageMap(b)[id]) in b;
    }
  }

  /** List a table of pages in key order. */
  method ListPages(table: map<Digest, Bytes>) returns (pages: seq<StoredPage>)
    ensures StrictlySorted(PageKey, pages) && PageMap(pages) == table
  {
    var listed: seq<StoredPage>, todo := [], table.Keys;
    while todo != {}
      invariant todo <= table.Keys && PageMap(listed) == (map id | id in table && id !in todo :: table[id])
      invariant DistinctKeys(PageKey, listed) && forall p :: p in listed ==> p.pageId !in todo
      decreases |todo|
    {
      var id :| id in todo;
      var page := StoredPage(id, table[id]);
      assert (listed + [page])[..|listed|] == listed;
      forall i, j | 0 <= i < j < |listed| + 1 ensures PageKey((listed + [page])[i]) != PageKey((listed + [page])[j]) {
        assert j == |listed| ==> listed[i] in listed;
      }
      listed, todo := listed + [page], todo - {id};
    }
    assert PageMap(listed) == table;
    pages := SortBy(PageKey, listed);
    SortDistinct(PageKey, listed);
    SortPermutes(PageKey, listed);
    MultisetMembers(pages, listed);
    StrictIsDistinct(pages);
    SameTable(pages, listed);
  }

  // -------------------------------------------------------------------- the validator

  /** Reopen a closure, within the given budgets. Success and every refusal that is
      not a spent budget decide whether there is one. */
  method FromCanonicalPages(v: Validator, bytes: Bytes, table: map<Digest, Bytes>, maxNodes: nat, maxLogicalBytes: nat) returns (r: Result<Closure>)
    requires DecodesPlainNames(v.pages)
    ensures r.Ok? ==> Reopened(v, bytes, table) == Some(r.value)
    ensures r.Err? && r.code != LimitExceeded ==> Reopened(v, bytes, table).None?
  {
    var serving := v.decode(bytes);
    if serving.None? {
      return Err(IntegrityError);
    }
    var s := serving.value;
    var canonical := v.encode(s);
    if canonical.None? {
      return Err(IntegrityError);
    }
    var walked := ValidatePages(v.pages, s.scope, s.metadataRoot, table, false, maxNodes, maxLogicalBytes);
    if walked.Err? {
      return Err(walked.code);
    }
    if canonical.value != bytes {
      return Err(IntegrityError);
    }
    var pages := ListPages(table);
    var c := Closure(v.snapshotId(s), s.namespaceViewId, s.scope, bytes, pages, walked.value.directories, walked.value.files);
    assert Reopens(v, bytes, table, c);
    SameBytesSameClosure(v, bytes, table, c);
    return Ok(c);
  }

  lemma SameBytesSameClosure(v: Validator, bytes: Bytes, table: map<Digest, Bytes>, c: Closure)
    requires Reopens(v, bytes, table, c)
    ensures Reopened(v, bytes, table) == Some(c)
  {
    assert CanReopen(v, bytes, table);
    OneListing(c.pages, Reopened(v, bytes, table).value.pages);
  }

  /** Content addressing: a snapshot id has one closure, down to its descriptor
      bytes, pages, directories and files. */
  lemma OneClosure(v: Validator, bytes: Bytes, table: map<Digest, Bytes>, bytes': Bytes, table': map<Digest, Bytes>, c: Closure, c': Closure)
    requires CollisionFree(v.snapshotId) && CollisionFree(v.pages.pageId)
    requires Reopens(v, bytes, table, c) && Reopens(v, bytes', table', c') && c.snapshotId == c'.snapshotId
    ensures c == c' && bytes == bytes' && table == table'
  {
    var s, s' := v.decode(bytes).value, v.decode(bytes').value;
    assert s == s';
    ClosureUnique(v.pages, s.scope, s.metadataRoot, table, table');
    OneListing(c.pages, c'.pages);
  }

  /** Every page of a reopened closure is stored under a well-formed digest. */
  lemma PagesAreDigests(v: Validator, bytes: Bytes, table: map<Digest, Bytes>, c: Closure)
    requires Reopens(v, bytes, table, c)
    ensures forall p :: p in c.pages ==> IsDigest(p.pageId) && v.pages.pageId(p.bytes) == p.pageId
  {
    StrictIsDistinct(c.pages);
    PageMapMembers(c.pages);
  }
}
