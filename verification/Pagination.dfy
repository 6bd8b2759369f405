/** Directory listings from an untrusted server, page by page. */
module Pagination {
  import opened Base
  import opened Ordering
  import opened Numerals

  const MAX_FILE_SIZE: nat := 8 * 1024 * 1024 * 1024 * 1024
  const MAX_LINK_SIZE: nat := 4095

  datatype DirEntry = DirEntry(name: string, fsKind: string, size: Option<string>, contentDigest: Option<string>, directoryRoot: Option<string>)

  datatype Page = Page(
    snapshotId: string, path: string, metadataRoot: string, directoryRoot: string, nodeClass: string, lifecycle: string,
    rangeStart: Option<string>, entries: seq<DirEntry>, entryCount: string, nextCursor: Option<string>)

  /** What was asked for. */
  datatype Query = Query(snapshotId: string, path: string, limit: nat, metadataRoot: string)

  function Name(e: DirEntry): string {
    e.name
  }

  // ----------------------------------------------------------------- one page alone

  predicate NameOk(name: string) {
    name != "" && |name| <= 255 && name != "." && name != ".." && '/' !in name && '\0' !in name
  }

  /** A directory digest is not all zeros. */
  predicate DirectoryDigest(digest: string) {
    IsDigest(digest) && exists i :: 7 <= i < |digest| && digest[i] != '0'
  }

  predicate EntryOk(e: DirEntry) {
    NameOk(e.name) &&
    if e.fsKind == "directory" then
      e.size.None? && e.contentDigest.None? && e.directoryRoot.Some? && DirectoryDigest(e.directoryRoot.value)
    else
      (e.fsKind == "regular" || e.fsKind == "executable" || e.fsKind == "symlink") && e.directoryRoot.None? &&
      e.contentDigest.Some? && IsDigest(e.contentDigest.value) && e.size.Some? && ParseCount(e.size.value).Ok? &&
      (if e.fsKind == "symlink" then 0 < ParseCount(e.size.value).value <= MAX_LINK_SIZE
       else ParseCount(e.size.value).value <= MAX_FILE_SIZE)
  }

  /** Names increase, starting above `start`. */
  ghost predicate Chain(start: Option<string>, es: seq<DirEntry>) {
    (es != [] && start.Some? ==> Lt(start.value, es[0].name)) &&
    forall i :: 0 < i < |es| ==> Lt(es[i - 1].name, es[i].name)
  }

  predicate HeaderOk(page: Page, q: Query, cursor: Option<string>) {
    ParseCount(page.entryCount).Ok? && page.snapshotId == q.snapshotId && page.path == q.path &&
    |page.entries| <= q.limit && |page.entries| <= ParseCount(page.entryCount).value &&
    DirectoryDigest(page.metadataRoot) && DirectoryDigest(page.directoryRoot) &&
    page.nodeClass in {"native_tree", "native_checkout_root", "import_root", "import_tree", "aggregate"} &&
    page.lifecycle in {"mutable", "immutable_release"} &&
    (cursor.None? ==> page.rangeStart.None?) && (page.rangeStart.Some? ==> NameOk(page.rangeStart.value)) &&
    (page.nextCursor.Some? ==> page.nextCursor.value != "" && page.nextCursor != cursor && page.entries != [])
  }

  ghost predicate PageOk(page: Page, q: Query, cursor: Option<string>) {
    HeaderOk(page, q, cursor) && Chain(page.rangeStart, page.entries) && forall e :: e in page.entries ==> EntryOk(e)
  }

  /** One entry's own syntax. */
  method CheckEntry(e: DirEntry) returns (r: Result<()>)
    requires NameOk(e.name)
    ensures r.Ok? <==> EntryOk(e)
  {
    if e.fsKind == "directory" {
      if e.size.Some? || e.contentDigest.Some? || e.directoryRoot.None? || !DirectoryDigest(e.directoryRoot.value) {
        return Err(IntegrityError);
      }
      return Ok(());
    }
    if e.fsKind != "regular" && e.fsKind != "executable" && e.fsKind != "symlink" {
      return Err(IntegrityError);
    }
    if e.directoryRoot.Some? || e.contentDigest.None? || !IsDigest(e.contentDigest.value) || e.size.None? {
      return Err(IntegrityError);
    }
    var size := ParseCount(e.size.value);
    if size.Err? {
      return Err(size.code);
    }
    if size.value > if e.fsKind == "symlink" then MAX_LINK_SIZE else MAX_FILE_SIZE {
      return Err(LimitExceeded);
    }
    return if e.fsKind == "symlink" && size.value == 0 then Err(IntegrityError) else Ok(());
  }

  method ValidatePage(page: Page, q: Query, cursor: Option<string>) returns (r: Result<()>)
    ensures r.Ok? <==> PageOk(page, q, cursor)
  {
    if ParseCount(page.entryCount).Err? {
      return Err(ParseCount(page.entryCount).code);
    }
    if !HeaderOk(page, q, cursor) {
      return Err(IntegrityError);
    }
    var previous := page.rangeStart;
    for k := 0 to |page.entries|
      invariant Chain(page.rangeStart, page.entries[..k]) && forall e :: e in page.entries[..k] ==> EntryOk(e)
      invariant previous == if k == 0 then page.rangeStart else Some(page.entries[k - 1].name)
    {
      SplitAt(page.entries, k);
      var e := page.entries[k];
      if !NameOk(e.name) || (previous.Some? && Le(e.name, previous.value)) {
        BrokenChain(page, k, previous);
        return Err(IntegrityError);
      }
      var checked := CheckEntry(e);
      if checked.Err? {
        assert e in page.entries;
        return checked;
      }
      if previous.Some? {
        LeTotal(e.name, previous.value);
      }
      previous := Some(e.name);
    }
    assert page.entries[..|page.entries|] == page.entries;
    return Ok(());
  }

  lemma BrokenChain(page: Page, k: nat, previous: Option<string>)
    requires k < |page.entries| && previous == if k == 0 then page.rangeStart else Some(page.entries[k - 1].name)
    requires !NameOk(page.entries[k].name) || (previous.Some? && Le(page.entries[k].name, previous.value))
    ensures !Chain(page.rangeStart, page.entries) || exists e :: e in page.entries && !EntryOk(e)
  {
    if NameOk(page.entries[k].name) {
      LtNotLe(previous.value, page.entries[k].name);
    } else {
      assert page.entries[k] in page.entries && !EntryOk(page.entries[k]);
    }
  }

  lemma LtNotLe(a: string, b: string)
    requires Le(b, a)
    ensures !Lt(a, b)
  {
    if Le(a, b) {
      LeAntisymmetric(a, b);
    }
  }

  // ------------------------------------------------------------ continuity of a run

  /** What every page of one listing must repeat. */
  datatype Identity = Identity(root: string, count: nat, nodeClass: string, lifecycle: string)

  function IdentityOf(page: Page): Identity
    requires ParseCount(page.entryCount).Ok?
  {
    Identity(page.directoryRoot, ParseCount(page.entryCount).value, page.nodeClass, page.lifecycle)
  }

  function LastName(es: seq<DirEntry>): Option<string> {
    if es == [] then None else Some(es[|es| - 1].name)
  }

  class Progress {
    var root: Option<string>
    var count: Option<nat>
    var nodeClass: Option<string>
    var lifecycle: Option<string>
    var seen: nat
    var last: Option<string>

    constructor (root: Option<string>)
      ensures this.root == root && count.None? && nodeClass.None? && lifecycle.None? && seen == 0 && last.None?
    {
      this.root, count, nodeClass, lifecycle, seen, last := root, None, None, None, 0, None;
    }

    /** The page agrees with all that was fixed before, starts where the last one
        ended, and does not exceed the count; without a cursor it completes it. */
    predicate Admits(page: Page, metadataRoot: string)
      reads this
    {
      ParseCount(page.entryCount).Ok? &&
      var count' := ParseCount(page.entryCount).value;
      page.metadataRoot == metadataRoot && (page.path == "/" ==> page.directoryRoot == metadataRoot) &&
      (root.Some? ==> root.value == page.directoryRoot) && (count.Some? ==> count.value == count') &&
      (nodeClass.Some? ==> nodeClass.value == page.nodeClass) && (lifecycle.Some? ==> lifecycle.value == page.lifecycle) &&
      page.rangeStart == last && seen + |page.entries| <= count' &&
      (page.nextCursor.None? ==> seen + |page.entries| == count')
    }

    method Accept(page: Page, metadataRoot: string) returns (r: Result<()>)
      modifies this
      ensures r.Ok? <==> old(Admits(page, metadataRoot))
      ensures r.Err? ==> unchanged(this)
      ensures r.Ok? ==>
                root == Some(page.directoryRoot) && count == Some(ParseCount(page.entryCount).value) &&
                nodeClass == Some(page.nodeClass) && lifecycle == Some(page.lifecycle) &&
                seen == old(seen) + |page.entries| && last == LastName(page.entries)
    {
      var counted := ParseCount(page.entryCount);
      if counted.Err? {
        return Err(counted.code);
      }
      if seen + |page.entries| > U64_MAX || !Admits(page, metadataRoot) {
        return Err(IntegrityError);
      }
      root := Some(page.directoryRoot);
      count := Some(counted.value);
      nodeClass := Some(page.nodeClass);
      lifecycle := Some(page.lifecycle);
      seen := seen + |page.entries|;
      last := LastName(page.entries);
      return Ok(());
    }
  }

  /** The entries of the first `n` pages a server sent. */
  function Merged(pages: nat -> Page, n: nat): seq<DirEntry> {
    if n == 0 then [] else Merged(pages, n - 1) + pages(n - 1).entries
  }

  function CursorAt(pages: nat -> Page, i: nat): Option<string> {
    if i == 0 then None else pages(i - 1).nextCursor
  }

  /** Page `i` is sound by itself and continues the pages before it. */
  ghost predicate Continues(pages: nat -> Page, q: Query, i: nat) {
    var page := pages(i);
    PageOk(page, q, CursorAt(pages, i)) && ParseCount(pages(0).entryCount).Ok? && IdentityOf(page) == IdentityOf(pages(0)) &&
    page.metadataRoot == q.metadataRoot && (page.path == "/" ==> page.directoryRoot == q.metadataRoot) &&
    page.rangeStart == LastName(Merged(pages, i)) && |Merged(pages, i + 1)| <= IdentityOf(page).count &&
    (page.nextCursor.None? ==> |Merged(pages, i + 1)| == IdentityOf(page).count)
  }

  /** The first `n` pages are a whole listing: each continues, only the last has
      no cursor. */
  ghost predicate WholeListing(pages: nat -> Page, q: Query, n: nat) {
    n > 0 && AllContinue(pages, q, n) && AllCursored(pages, n - 1) && pages(n - 1).nextCursor.None?
  }

  ghost predicate AllContinue(pages: nat -> Page, q: Query, n: nat) {
    forall i {:trigger Continues(pages, q, i)} :: 0 <= i < n ==> Continues(pages, q, i)
  }

  ghost predicate AllCursored(pages: nat -> Page, n: nat) {
    forall i {:trigger Cursored(pages, i)} :: 0 <= i < n ==> Cursored(pages, i)
  }

  predicate Cursored(pages: nat -> Page, i: nat) {
    pages(i).nextCursor.Some?
  }

  /** Every page but the last brings an entry, so few pages can come. */
  lemma {:induction false} PagesBounded(pages: nat -> Page, n: nat)
    requires forall i :: 0 <= i < n ==> pages(i).entries != []
    ensures n <= |Merged(pages, n)|
  {
    if n > 0 {
      PagesBounded(pages, n - 1);
    }
  }

  lemma {:induction false} MergedChains(pages: nat -> Page, q: Query, n: nat)
    requires AllContinue(pages, q, n)
    ensures Chain(None, Merged(pages, n))
  {
    if n > 0 {
      MergedChains(pages, q, n - 1);
      assert Continues(pages, q, n - 1);
      ChainsJoin(Merged(pages, n - 1), pages(n - 1).entries);
    }
  }

  lemma ChainsJoin(a: seq<DirEntry>, b: seq<DirEntry>)
    requires Chain(None, a) && Chain(LastName(a), b)
    ensures Chain(None, a + b)
  {
    var c := a + b;
    forall i | 0 < i < |c| ensures Lt(c[i - 1].name, c[i].name) {
      if i < |a| {
        assert c[i - 1] == a[i - 1] && c[i] == a[i];
      } else if i > |a| {
        assert c[i - 1] == b[i - |a| - 1] && c[i] == b[i - |a|];
      }
    }
  }

  lemma {:induction false} ChainSorted(es: seq<DirEntry>, i: nat, j: nat)
    requires Chain(None, es) && i < j < |es|
    ensures Lt(es[i].name, es[j].name)
    decreases j
  {
    if i + 1 < j {
      ChainSorted(es, i, j - 1);
      LtTransitive(es[i].name, es[j - 1].name, es[j].name);
    }
  }

  lemma ChainStrict(es: seq<DirEntry>)
    requires Chain(None, es)
    ensures StrictlySorted(Name, es)
  {
    forall i, j | 0 <= i < j < |es| ensures Lt(Name(es[i]), Name(es[j])) {
      ChainSorted(es, i, j);
    }
  }

  /** The page announces this root and this many entries. */
  predicate Announces(page: Page, root: string, count: nat) {
    page.directoryRoot == root && ParseCount(page.entryCount) == Ok(count)
  }

  lemma SameAnnouncement(pages: nat -> Page, q: Query, n: nat, i: nat)
    requires WholeListing(pages, q, n) && i < n
    ensures Announces(pages(i), pages(0).directoryRoot, |Merged(pages, n)|)
  {
    assert Continues(pages, q, i) && Continues(pages, q, n - 1);
  }

  lemma FewPages(pages: nat -> Page, q: Query, n: nat)
    requires WholeListing(pages, q, n)
    ensures n <= |Merged(pages, n)| + 1
  {
    forall i | 0 <= i < n - 1 ensures pages(i).entries != [] {
      assert Continues(pages, q, i) && Cursored(pages, i);
    }
    PagesBounded(pages, n - 1);
  }

  /** A whole listing, whoever sent it: strictly increasing names under one root,
      exactly as many as every page announced, in at most one page more. */
  lemma ListingSound(pages: nat -> Page, q: Query, n: nat)
    requires WholeListing(pages, q, n)
    ensures StrictlySorted(Name, Merged(pages, n))
    ensures forall i :: 0 <= i < n ==> Announces(pages(i), pages(0).directoryRoot, |Merged(pages, n)|)
    ensures n <= |Merged(pages, n)| + 1
  {
    MergedChains(pages, q, n);
    ChainStrict(Merged(pages, n));
    forall i | 0 <= i < n ensures Announces(pages(i), pages(0).directoryRoot, |Merged(pages, n)|) {
      SameAnnouncement(pages, q, n, i);
    }
    FewPages(pages, q, n);
  }

  /** The listing so far: pages before `k` all continue and all have a cursor, and
      the checker remembers what they fixed. */
  ghost predicate SoFar(pages: nat -> Page, q: Query, k: nat, progress: Progress)
    reads progress
  {
    AllContinue(pages, q, k) && AllCursored(pages, k) &&
    progress.seen == |Merged(pages, k)| && progress.last == LastName(Merged(pages, k)) &&
    if k == 0 then progress.root.None? && progress.count.None? && progress.nodeClass.None? && progress.lifecycle.None?
    else
      ParseCount(pages(0).entryCount).Ok? &&
      progress.root == Some(pages(0).directoryRoot) && progress.count == Some(IdentityOf(pages(0)).count) &&
      progress.nodeClass == Some(pages(0).nodeClass) && progress.lifecycle == Some(pages(0).lifecycle)
  }

  /** The checker admits exactly the pages that continue. */
  lemma AdmitsContinues(pages: nat -> Page, q: Query, k: nat, progress: Progress)
    requires SoFar(pages, q, k, progress) && PageOk(pages(k), q, CursorAt(pages, k))
    ensures progress.Admits(pages(k), q.metadataRoot) <==> Continues(pages, q, k)
  {
    if k > 0 {
      assert Continues(pages, q, 0);
    }
  }

  lemma NoOtherEnd(pages: nat -> Page, q: Query, k: nat)
    requires AllCursored(pages, k) && !Continues(pages, q, k)
    ensures forall n :: !WholeListing(pages, q, n)
  {
    forall n: nat ensures !WholeListing(pages, q, n) {
      assert n > k ==> (WholeListing(pages, q, n) ==> Continues(pages, q, k));
      assert 0 < n <= k ==> Cursored(pages, n - 1);
    }
  }

  lemma LastOfMerged(pages: nat -> Page, k: nat)
    requires pages(k).entries != []
    ensures LastName(Merged(pages, k + 1)) == LastName(pages(k).entries)
  {
  }

  /** Check one more page: it is taken exactly when it continues. */
  method TakePage(pages: nat -> Page, q: Query, k: nat, cursor: Option<string>, progress: Progress) returns (r: Result<()>)
    requires SoFar(pages, q, k, progress) && cursor == CursorAt(pages, k)
    modifies progress
    ensures r.Ok? <==> Continues(pages, q, k)
    ensures r.Ok? && pages(k).nextCursor.Some? ==> SoFar(pages, q, k + 1, progress)
  {
    var valid := ValidatePage(pages(k), q, cursor);
    if valid.Err? {
      return valid;
    }
    AdmitsContinues(pages, q, k, progress);
    r := progress.Accept(pages(k), q.metadataRoot);
    if r.Ok? && pages(k).nextCursor.Some? {
      LastOfMerged(pages, k);
    }
  }

  function Missing(pages: nat -> Page, k: nat): int {
    if ParseCount(pages(0).entryCount).Ok? then IdentityOf(pages(0)).count - |Merged(pages, k)| else 0
  }

  lemma MissingShrinks(pages: nat -> Page, q: Query, k: nat)
    requires Continues(pages, q, k) && pages(k).nextCursor.Some?
    ensures 0 <= Missing(pages, k + 1) < Missing(pages, k)
  {
  }

  /** One page of a listing: it ends the listing, or brings its end nearer, or shows
      that there is none. */
  method Follow(pages: nat -> Page, q: Query, k: nat, cursor: Option<string>, progress: Progress) returns (r: Result<()>)
    requires SoFar(pages, q, k, progress) && cursor == CursorAt(pages, k)
    modifies progress
    ensures r.Err? ==> forall m :: !WholeListing(pages, q, m)
    ensures r.Ok? && pages(k).nextCursor.None? ==> WholeListing(pages, q, k + 1)
    ensures r.Ok? && pages(k).nextCursor.Some? ==> SoFar(pages, q, k + 1, progress) && 0 <= Missing(pages, k + 1) < Missing(pages, k)
  {
    r := TakePage(pages, q, k, cursor, progress);
    if r.Err? {
      NoOtherEnd(pages, q, k);
    } else if pages(k).nextCursor.Some? {
      MissingShrinks(pages, q, k);
    } else {
      EndsHere(pages, q, k);
    }
  }

  lemma EndsHere(pages: nat -> Page, q: Query, k: nat)
    requires AllContinue(pages, q, k) && AllCursored(pages, k) && Continues(pages, q, k) && pages(k).nextCursor.None?
    ensures WholeListing(pages, q, k + 1)
  {
  }

  /** Follow the cursors to the end. Whatever the server sends, this ends, and it
      returns the merged entries exactly when the pages are a whole listing. */
  method ListDirectory(pages: nat -> Page, q: Query) returns (r: Result<seq<DirEntry>>, ghost n: nat)
    ensures r.Ok? ==> WholeListing(pages, q, n) && r.value == Merged(pages, n)
    ensures r.Err? ==> forall m :: !WholeListing(pages, q, m)
  {
    var progress := new Progress(None);
    var cursor: Option<string>, merged, k: nat := None, [], 0;
    n := 0;
    while true
      invariant SoFar(pages, q, k, progress) && merged == Merged(pages, k) && cursor == CursorAt(pages, k)
      decreases Missing(pages, k)
    {
      var page := pages(k);
      var taken := Follow(pages, q, k, cursor, progress);
      if taken.Err? {
        return Err(taken.code), n;
      }
      merged := merged + page.entries;
      if page.nextCursor.None? {
        n := k + 1;
        return Ok(merged), n;
      }
      cursor := page.nextCursor;
      k := k + 1;
    }
  }
}
