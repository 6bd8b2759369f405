/** The closure validator: it walks an untrusted page graph from a committed
    root with memo tables and active sets, and is proved to compute the meaning
    the graph has without them. */
module ClosureValidation {
  import opened Base
  import opened Ordering
  import opened PageGraph
  import opened LogicalTree

  const MAX_FILE_SIZE: nat := 8 * 1024 * 1024 * 1024 * 1024
  const MAX_DEPTH: nat := 255

  /** The path limits of the serving profile. */
  predicate PathWithinLimits(path: string) {
    |path| <= 4096 &&
    (path == "/" || |Split(TrimSlashes(path))| <= 256) &&
    forall part :: part in Split(path) ==> |part| <= 255
  }

  function ValidatePath(c: Codec, scope: string, rel: string): Result<()> {
    if !PathWithinLimits(FullPath(scope, rel)) then Err(LimitExceeded)
    else if !c.scopeOk(FullPath(scope, rel)) then Err(IntegrityError)
    else Ok(())
  }

  function RebuildAllocation(es: seq<Entry>): nat {
    if es == [] then 0 else (|es[0].name| + 256) * 4 + RebuildAllocation(es[1..])
  }

  class ClosureValidator {
    const codec: Codec
    const bytes: map<PageId, Bytes>
    const maxRadixEntries: nat
    const maxLogicalEntries: nat
    const maxLogicalBytes: nat
    var decoded: map<PageId, Page>
    var entries: map<PageId, seq<Entry>>
    var reached: set<PageId>
    var paths: set<string>
    var contentSizes: map<Digest, nat>
    var directories: seq<SnapshotDirectory>
    var files: seq<SnapshotFile>
    var logicalBytes: nat

    ghost function Pages(): Graph
      reads this
    {
      Graph(codec, bytes, decoded)
    }

    ghost function State(): WalkState
      reads this
    {
      WalkState(paths, contentSizes, directories, files)
    }

    /** The memo table only ever holds the meaning of a page, and with a page
        it holds the pages below it. */
    ghost predicate Valid()
      reads this
    {
      decoded.Keys == bytes.Keys && reached <= decoded.Keys && EntriesSound(Pages(), entries, reached)
    }

    constructor (codec: Codec, bytes: map<PageId, Bytes>, maxRadixEntries: nat, maxLogicalEntries: nat, maxLogicalBytes: nat)
      ensures this.codec == codec && this.bytes == bytes
      ensures this.maxRadixEntries == maxRadixEntries && this.maxLogicalEntries == maxLogicalEntries
      ensures this.maxLogicalBytes == maxLogicalBytes
      ensures decoded == map[] && entries == map[] && reached == {} && State() == EMPTY_WALK
    {
      this.codec, this.bytes := codec, bytes;
      this.maxRadixEntries, this.maxLogicalEntries, this.maxLogicalBytes := maxRadixEntries, maxLogicalEntries, maxLogicalBytes;
      decoded, entries, reached, paths, contentSizes := map[], map[], {}, {}, map[];
      directories, files, logicalBytes := [], [], 0;
    }

    method AdmitAllocation(amount: nat) returns (r: Result<()>)
      modifies this`logicalBytes
      ensures r == if old(logicalBytes) + amount > maxLogicalBytes then Err(LimitExceeded) else Ok(())
      ensures logicalBytes == old(logicalBytes) + amount
    {
      logicalBytes := logicalBytes + amount;
      if logicalBytes > maxLogicalBytes {
        return Err(LimitExceeded);
      }
      return Ok(());
    }

    method AdmitLogicalPath(path: string) returns (r: Result<()>)
      modifies this`logicalBytes
      ensures r == if |paths| >= maxLogicalEntries || old(logicalBytes) + |path| * 4 + 512 > maxLogicalBytes then Err(LimitExceeded) else Ok(())
      ensures logicalBytes == old(logicalBytes) + if |paths| >= maxLogicalEntries then 0 else |path| * 4 + 512
    {
      if |paths| >= maxLogicalEntries {
        return Err(LimitExceeded);
      }
      r := AdmitAllocation(|path| * 4 + 512);
    }

    /** Hash and decode every supplied page before anything is trusted. */
    method LoadPages() returns (r: Result<()>)
      requires decoded == map[]
      modifies this`decoded, this`logicalBytes
      ensures r.Ok? ==> Authentic(codec, bytes) && decoded == Decoded(codec, bytes)
      ensures r.Err? && r.code != LimitExceeded ==> !Authentic(codec, bytes)
    {
      var todo := bytes.Keys;
      while todo != {}
        invariant todo <= bytes.Keys && decoded.Keys == bytes.Keys - todo
        invariant forall id :: id in decoded ==> CheckPage(codec, id, bytes[id]) == Ok(decoded[id])
        decreases |todo|
      {
        var id :| id in todo;
        var admitted := AdmitAllocation(|bytes[id]| * 16 + 512);
        if admitted.Err? {
          return Err(admitted.code);
        }
        var page := CheckPage(codec, id, bytes[id]);
        if page.Err? {
          return Err(page.code);
        }
        todo := todo - {id};
        decoded := decoded[id := page.value];
      }
      return Ok(());
    }

    /** Entries below one radix page. `active` holds the pages being expanded;
        meeting one again is a cycle, and then no finite meaning exists. */
    method RadixEntries(id: PageId, depth: nat, active: set<PageId>) returns (r: Result<seq<Entry>>)
      requires Valid()
      requires forall a :: a in active ==> RadixBelow(Pages(), a, id)
      modifies this`entries, this`reached, this`logicalBytes
      ensures Valid() && old(entries.Keys) <= entries.Keys
      ensures r.Ok? ==> RadixOf(Pages(), id) == Some(r.value) && id in entries
      ensures r.Ok? ==> ReachedBelow(RadixOnly(Pages()), old(reached), reached, id)
      ensures r.Err? ==> r.code == LimitExceeded || (r.code == IntegrityError && RadixOf(Pages(), id).None?)
      decreases |decoded.Keys - active|, 0
    {
      ghost var g := Pages();
      if depth > MAX_DEPTH {
        return Err(LimitExceeded);
      }
      if id in entries {
        return Ok(entries[id]);
      }
      if id in active {
        RadixCycle(g, id);
        return Err(IntegrityError);
      }
      var admitted := AdmitAllocation(if id in bytes then |bytes[id]| * 4 + 256 else 0);
      if admitted.Err? {
        return Err(admitted.code);
      }
      RadixUnfold(g, id);
      if id !in decoded {
        return Err(IntegrityError);
      }
      reached := reached + {id};
      ghost var before := reached;
      ReachesItself(RadixOnly(g), id);
      SmallerWithout(decoded.Keys, active, id);
      var gathered := GatherChildren(id, depth, active + {id});
      assert Pages() == g;
      if gathered.Err? {
        return Err(gathered.code);
      }
      ReachedThrough(RadixOnly(g), old(reached), before, reached, id, id);
      r := Canonicalize(id, gathered.value);
    }

    /** Accept a page only as the canonical build of its sorted entries. */
    method Canonicalize(id: PageId, gathered: seq<Entry>) returns (r: Result<seq<Entry>>)
      requires Valid() && id in decoded && id in reached && ChildrenWithin(Pages(), id, entries.Keys)
      requires GatherOf(Pages(), Own(decoded[id]), Children(decoded[id])) == Some(gathered)
      modifies this`entries, this`logicalBytes
      ensures Valid() && old(entries.Keys) <= entries.Keys
      ensures r.Ok? ==> RadixOf(Pages(), id) == Some(r.value) && id in entries
      ensures r.Err? ==> r.code == LimitExceeded || (r.code == IntegrityError && RadixOf(Pages(), id).None?)
    {
      RadixUnfold(Pages(), id);
      if |gathered| > maxRadixEntries {
        return Err(LimitExceeded);
      }
      var sorted := SortBy(Name, gathered);
      var admitted := AdmitAllocation(RebuildAllocation(sorted));
      if admitted.Err? {
        return Err(admitted.code);
      }
      if codec.build(sorted) != Some(bytes[id]) {
        return Err(IntegrityError);
      }
      EntriesGrow(Pages(), entries, reached, id, sorted);
      entries := entries[id := sorted];
      return Ok(sorted);
    }

    /** The loop over a page's children, accumulating their entries. */
    method GatherChildren(id: PageId, depth: nat, active: set<PageId>) returns (r: Result<seq<Entry>>)
      requires Valid() && id in decoded
      requires forall a :: a in active ==> a == id || RadixBelow(Pages(), a, id)
      modifies this`entries, this`reached, this`logicalBytes
      ensures Valid() && old(entries.Keys) <= entries.Keys
      ensures r.Ok? ==> GatherOf(Pages(), Own(decoded[id]), Children(decoded[id])) == Some(r.value)
      ensures r.Ok? ==> ChildrenWithin(Pages(), id, entries.Keys)
      ensures r.Ok? ==> ReachedBelow(RadixOnly(Pages()), old(reached), reached, id)
      ensures r.Err? ==> r.code == LimitExceeded ||
                         (r.code == IntegrityError && GatherOf(Pages(), Own(decoded[id]), Children(decoded[id])).None?)
      decreases |decoded.Keys - active|, 1, 1
    {
      ghost var g := Pages();
      var es := Own(decoded[id]);
      var cs := Children(decoded[id]);
      ReachesItself(RadixOnly(g), id);
      assert cs[0..] == cs;
      for k := 0 to |cs|
        invariant Pages() == g && Valid() && old(entries.Keys) <= entries.Keys
        invariant GatherOf(g, Own(decoded[id]), cs) == GatherOf(g, es, cs[k..])
        invariant forall c :: c in cs[..k] ==> c.childPageId in entries
        invariant ReachedBelow(RadixOnly(g), old(reached), reached, id)
      {
        var child := cs[k];
        SplitAt(cs, k);
        GatherStep(g, es, cs, k);
        forall a | a in active ensures RadixBelow(g, a, child.childPageId) {
          RadixChildBelow(g, a, id, child);
        }
        ghost var before := reached;
        var sub := ChildEntries(child, |es|, depth, active);
        if sub.Err? {
          return Err(sub.code);
        }
        es := es + sub.value;
        RadixChildReached(g, id, child);
        ReachedThrough(RadixOnly(g), old(reached), before, reached, id, child.childPageId);
      }
      assert cs[..|cs|] == cs;
      return Ok(es);
    }

    /** One child: its entries must be as many as the branch declares. */
    method ChildEntries(child: Child, gathered: nat, depth: nat, active: set<PageId>) returns (r: Result<seq<Entry>>)
      requires Valid()
      requires forall a :: a in active ==> RadixBelow(Pages(), a, child.childPageId)
      modifies this`entries, this`reached, this`logicalBytes
      ensures Valid() && old(entries.Keys) <= entries.Keys
      ensures r.Ok? ==> RadixOf(Pages(), child.childPageId) == Some(r.value) && |r.value| == child.subtreeEntries
      ensures r.Ok? ==> child.childPageId in entries && ReachedBelow(RadixOnly(Pages()), old(reached), reached, child.childPageId)
      ensures r.Err? ==> r.code == LimitExceeded ||
                         (r.code == IntegrityError &&
                          (RadixOf(Pages(), child.childPageId).None? || |RadixOf(Pages(), child.childPageId).value| != child.subtreeEntries))
      decreases |decoded.Keys - active|, 1, 0
    {
      var sub := RadixEntries(child.childPageId, depth + 1, active);
      if sub.Err? {
        return Err(sub.code);
      }
      if |sub.value| != child.subtreeEntries {
        return Err(IntegrityError);
      }
      if gathered + |sub.value| > maxRadixEntries {
        return Err(LimitExceeded);
      }
      var grown := AdmitAllocation(RebuildAllocation(sub.value));
      if grown.Err? {
        return Err(grown.code);
      }
      return sub;
    }

    /** Admit a directory: budget, path profile, cycle and duplicate checks. */
    method EnterDirectory(scope: string, rel: string, root: PageId, active: set<PageId>) returns (r: Result<()>)
      modifies this`logicalBytes, this`paths, this`directories
      ensures r.Ok? ==>
                codec.scopeOk(FullPath(scope, rel)) && root !in active && rel !in old(paths) &&
                State() == WithDir(old(State()), rel, root)
      ensures r.Err? ==> r.code == LimitExceeded ||
                         (r.code == IntegrityError && (!codec.scopeOk(FullPath(scope, rel)) || root in active || rel in old(paths)))
    {
      var admitted := AdmitLogicalPath(rel);
      if admitted.Err? {
        return Err(admitted.code);
      }
      var checked := ValidatePath(codec, scope, rel);
      if checked.Err? {
        return Err(checked.code);
      }
      if root in active || rel in paths {
        return Err(IntegrityError);
      }
      paths := paths + {rel};
      directories := directories + [SnapshotDirectory(rel, root)];
      return Ok(());
    }

    /** Walk one logical directory. It succeeds only as the reference walk of
        the unfolded tree does, with the same directories, files, paths and
        sizes; an integrity error means that tree is missing or unacceptable. */
    method WalkDirectory(scope: string, rel: string, root: PageId, active: set<PageId>) returns (r: Result<()>)
      requires Valid()
      requires forall a :: a in active ==> ListBelow(Pages(), a, root)
      modifies this`entries, this`reached, this`logicalBytes, this`paths, this`contentSizes, this`directories, this`files
      ensures Valid() && old(entries.Keys) <= entries.Keys
      ensures r.Ok? ==> Walked(codec, scope, old(State()), State(), rel, root, ListingOf(Pages(), root))
      ensures r.Ok? ==> ReachedBelow(Pages(), old(reached), reached, root)
      ensures r.Ok? ==> RootsKnown(old(directories), directories, entries.Keys)
      ensures r.Err? ==> r.code == LimitExceeded ||
                         (r.code == IntegrityError && !Walkable(codec, scope, old(State()), rel, root, ListingOf(Pages(), root)))
      decreases |decoded.Keys - active|, 0
    {
      ghost var g := Pages();
      if root in active {
        ListCycle(g, root);
      }
      var entered := EnterDirectory(scope, rel, root, active);
      if entered.Err? {
        return Err(entered.code);
      }
      var radix := RadixEntries(root, 0, {});
      assert Pages() == g && State() == WithDir(old(State()), rel, root);
      DirectoryStep(g, scope, old(State()), rel, root);
      if radix.Err? {
        return Err(radix.code);
      }
      SmallerWithout(decoded.Keys, active, root);
      ghost var before, known := reached, entries.Keys;
      ghost var recorded := directories;
      RadixReachedBelow(g, old(reached), before, root);
      assert RootsKnown(old(directories), recorded, known);
      r := WalkEntries(scope, rel, root, radix.value, active + {root});
      assert Pages() == g && known <= entries.Keys;
      if r.Ok? {
        RootsKnownMore(old(directories), recorded, directories, known, entries.Keys);
        ReachesItself(g, root);
        ReachedThrough(g, old(reached), before, reached, root, root);
      }
    }

    /** The loop over a directory's entries. */
    method WalkEntries(scope: string, rel: string, root: PageId, es: seq<Entry>, active: set<PageId>) returns (r: Result<()>)
      requires Valid() && RadixOf(Pages(), root) == Some(es)
      requires forall a :: a in active ==> a == root || ListBelow(Pages(), a, root)
      modifies this`entries, this`reached, this`logicalBytes, this`paths, this`contentSizes, this`directories, this`files
      ensures Valid() && old(entries.Keys) <= entries.Keys
      ensures r.Ok? ==> WalkedIn(codec, scope, old(State()), State(), rel, EntriesOf(Pages(), es))
      ensures r.Ok? ==> ReachedBelow(Pages(), old(reached), reached, root)
      ensures r.Ok? ==> RootsKnown(old(directories), directories, entries.Keys)
      ensures r.Err? ==> r.code == LimitExceeded ||
                         (r.code == IntegrityError && !WalkableIn(codec, scope, old(State()), rel, EntriesOf(Pages(), es)))
      decreases |decoded.Keys - active|, 1, 1
    {
      ghost var g := Pages();
      ReachesItself(g, root);
      assert es[0..] == es;
      for k := 0 to |es|
        invariant Pages() == g && Valid() && old(entries.Keys) <= entries.Keys
        invariant SameWalk(codec, scope, old(State()), EntriesOf(g, es), State(), EntriesOf(g, es[k..]), rel)
        invariant RootsKnown(old(directories), directories, entries.Keys)
        invariant ReachedBelow(g, old(reached), reached, root)
      {
        SplitAt(es, k);
        EntryWalkStep(g, scope, old(State()), EntriesOf(g, es), State(), es[k..], rel);
        ghost var before, known := reached, directories;
        var walked := WalkEntry(scope, rel, root, es[k], active);
        if walked.Err? {
          return Err(walked.code);
        }
        ReachedThrough(g, old(reached), before, reached, root, root);
        RootsKnownThrough(old(directories), known, directories, entries.Keys);
      }
      return Ok(());
    }

    /** One entry: validate its name and path, then descend or record it. */
    method WalkEntry(scope: string, rel: string, root: PageId, entry: Entry, active: set<PageId>) returns (r: Result<()>)
      requires Valid() && RadixOf(Pages(), root).Some? && entry in RadixOf(Pages(), root).value
      requires forall a :: a in active ==> a == root || ListBelow(Pages(), a, root)
      modifies this`entries, this`reached, this`logicalBytes, this`paths, this`contentSizes, this`directories, this`files
      ensures Valid() && old(entries.Keys) <= entries.Keys
      ensures r.Ok? ==> Step(Pages(), scope, old(State()), rel, entry) == Some(State())
      ensures r.Ok? ==> ReachedBelow(Pages(), old(reached), reached, root)
      ensures r.Ok? ==> RootsKnown(old(directories), directories, entries.Keys)
      ensures r.Err? ==> r.code == LimitExceeded ||
                         (r.code == IntegrityError && Step(Pages(), scope, old(State()), rel, entry).None?)
      decreases |decoded.Keys - active|, 1, 0, 1
    {
      if !codec.utf8(entry.name) {
        return Err(IntegrityError);
      }
      var path := Join(rel, entry.name);
      var checked := ValidatePath(codec, scope, path);
      if checked.Err? {
        return Err(checked.code);
      }
      if entry.kind == Directory {
        r := WalkSubdirectory(scope, path, root, entry, active);
      } else {
        r := RecordFile(path, entry);
      }
    }

    /** Descend into one subdirectory of `root`. */
    method WalkSubdirectory(scope: string, path: string, root: PageId, entry: Entry, active: set<PageId>) returns (r: Result<()>)
      requires Valid() && RadixOf(Pages(), root).Some? && entry in RadixOf(Pages(), root).value && entry.kind == Directory
      requires forall a :: a in active ==> a == root || ListBelow(Pages(), a, root)
      modifies this`entries, this`reached, this`logicalBytes, this`paths, this`contentSizes, this`directories, this`files
      ensures Valid() && old(entries.Keys) <= entries.Keys
      ensures r.Ok? ==> Walked(codec, scope, old(State()), State(), path, entry.childRoot, ListingOf(Pages(), entry.childRoot))
      ensures r.Ok? ==> ReachedBelow(Pages(), old(reached), reached, root)
      ensures r.Ok? ==> RootsKnown(old(directories), directories, entries.Keys)
      ensures r.Err? ==> r.code == LimitExceeded ||
                         (r.code == IntegrityError &&
                          !Walkable(codec, scope, old(State()), path, entry.childRoot, ListingOf(Pages(), entry.childRoot)))
      decreases |decoded.Keys - active|, 1, 0, 0
    {
      ghost var g := Pages();
      forall a | a in active ensures ListBelow(g, a, entry.childRoot) {
        ListChildBelow(g, a, root, entry);
      }
      r := WalkDirectory(scope, path, entry.childRoot, active);
      if r.Ok? {
        EntryReaches(g, root, entry);
        assert ReachedBelow(g, old(reached), old(reached), root);
        ReachedThrough(g, old(reached), old(reached), reached, root, entry.childRoot);
      }
    }

    /** Record one file of the directory being walked. */
    method RecordFile(path: string, entry: Entry) returns (r: Result<()>)
      modifies this`logicalBytes, this`paths, this`contentSizes, this`files
      ensures r.Ok? ==> !Conflicts(old(State()), path, entry) && State() == WithFile(old(State()), path, entry)
      ensures r.Err? ==> r.code == LimitExceeded || (r.code == IntegrityError && Conflicts(old(State()), path, entry))
    {
      var admitted := AdmitLogicalPath(path);
      if admitted.Err? {
        return Err(admitted.code);
      }
      if entry.size > MAX_FILE_SIZE || (entry.kind == Symlink && !(1 <= entry.size <= 4095)) {
        return Err(LimitExceeded);
      }
      if path in paths {
        return Err(IntegrityError);
      }
      paths := paths + {path};
      if entry.contentId in contentSizes && contentSizes[entry.contentId] != entry.size {
        return Err(IntegrityError);
      }
      contentSizes := contentSizes[entry.contentId := entry.size];
      files := files + [FileAt(path, entry)];
      return Ok(());
    }

    /** Pages of one directory's radix tree, by a depth-first search that
        prunes on the set it fills and has no other cycle guard. */
    method RadixPageIds(id: PageId, ids: set<PageId>, ghost top: PageId) returns (all: set<PageId>)
      requires Valid() && RadixPart(Pages(), top, id)
      ensures id in all && Explored(Pages(), top, ids, all, {})
      decreases |decoded.Keys - ids|
    {
      if id in ids {
        return ids;
      }
      all := ids + {id};
      SmallerWithout(decoded.Keys, ids, id);
      var cs := Children(decoded[id]);
      for k := 0 to |cs|
        invariant id in all && Explored(Pages(), top, ids, all, {id})
        invariant forall c :: c in cs[..k] ==> c.childPageId in all
      {
        SplitAt(cs, k);
        RadixPartChild(Pages(), top, id, cs[k]);
        FewerOutside(decoded.Keys, ids + {id}, all);
        ghost var before := all;
        all := RadixPageIds(cs[k].childPageId, all, top);
        ExploredFurther(Pages(), top, ids, before, all, {id});
      }
      assert cs[..|cs|] == cs;
      assert ChildrenWithin(Pages(), id, all);
    }

    /** Facts of one directory subtree, memoised by its root. There is no cycle
        check here: the tree `l` that the walk has already proved finite bounds
        the recursion, and every root in it has its entries in the memo. */
    method SubtreeFacts(root: PageId, memo: map<PageId, Facts>, ghost l: Listing)
      returns (r: Result<Facts>, memo': map<PageId, Facts>)
      requires Valid() && ListingOf(Pages(), root) == Some(l)
      requires root in entries && RootsIn(l, entries.Keys)
      requires DistinctKeys(FilePath, RelFiles(l))
      requires MemoSound(Pages(), memo)
      ensures r.Ok? ==> FactsFor(Pages(), root, l, r.value)
      ensures r.Ok? ==> MemoSound(Pages(), memo') && memo.Keys <= memo'.Keys && root in memo' && memo'[root] == r.value
      ensures r.Err? ==> FactsRefused(codec, l, r.code)
      decreases Count(l), 1
    {
      if root in memo {
        return Ok(memo[root]), memo;
      }
      RadixPartItself(Pages(), root);
      var pageIds := RadixPageIds(root, {}, root);
      ListingUnfold(Pages(), root);
      r, memo' := EntryFacts(root, pageIds, memo, l);
      if r.Ok? {
        memo' := memo'[root := r.value];
      }
    }

    /** One entry's files, count and pages. */
    method FactsOfEntry(entry: Entry, soFar: Partial, memo: map<PageId, Facts>, ghost l: Listing, ghost rest: Listing)
      returns (r: Result<Partial>, memo': map<PageId, Facts>)
      requires Valid() && MemoSound(Pages(), memo)
      requires !rest.End? && rest.entry == entry && (rest.Dir? <==> entry.kind == Directory)
      requires rest.Dir? ==> ListingOf(Pages(), entry.childRoot) == Some(rest.sub)
      requires rest.Dir? ==> entry.childRoot in entries && RootsIn(rest.sub, entries.Keys)
      requires FilesSoFar(l, rest, soFar.files, soFar.total) && (Utf8Names(codec, l) ==> Utf8Names(codec, rest))
      ensures r.Ok? ==> FilesSoFar(l, rest.rest, r.value.files, r.value.total) && PagesAdded(Pages(), entry, soFar.pageIds, r.value.pageIds)
      ensures r.Ok? ==> MemoSound(Pages(), memo') && memo.Keys <= memo'.Keys
      ensures r.Err? ==> FactsRefused(codec, l, r.code)
      decreases Count(l), 0, 0
    {
      memo' := memo;
      if soFar.total + 1 > U64_MAX {
        return Err(LimitExceeded), memo;
      }
      if !codec.utf8(entry.name) {
        return Err(IntegrityError), memo;
      }
      if entry.kind != Directory {
        FileFilesStep(l, rest, soFar);
        return Ok(Partial(soFar.pageIds, soFar.files + [FileAt(entry.name, entry)], soFar.total + 1)), memo;
      }
      DirFilesStep(l, rest, soFar);
      var child;
      child, memo' := SubtreeFacts(entry.childRoot, memo, rest.sub);
      if child.Err? {
        RefusedBelow(codec, l, rest, child.code);
        return Err(child.code), memo';
      }
      if soFar.total + 1 + child.value.totalEntries > U64_MAX {
        return Err(LimitExceeded), memo';
      }
      return Ok(Partial(soFar.pageIds + child.value.pageIds,
                        soFar.files + Prefixed(entry.name, child.value.files),
                        soFar.total + 1 + child.value.totalEntries)), memo';
    }

    method EntryFacts(root: PageId, radixPages: set<PageId>, memo: map<PageId, Facts>, ghost l: Listing)
      returns (r: Result<Facts>, memo': map<PageId, Facts>)
      requires Valid() && root in entries && RootsIn(l, entries.Keys) && EntriesOf(Pages(), entries[root]) == Some(l)
      requires DistinctKeys(FilePath, RelFiles(l))
      requires MemoSound(Pages(), memo)
      requires root in radixPages && Explored(Pages(), root, {}, radixPages, {})
      ensures r.Ok? ==> FactsFor(Pages(), root, l, r.value)
      ensures r.Ok? ==> MemoSound(Pages(), memo') && memo.Keys <= memo'.Keys
      ensures r.Err? ==> FactsRefused(codec, l, r.code)
      decreases Count(l), 0, 1
    {
      ghost var g := Pages();
      var es := entries[root];
      var soFar := Partial(radixPages, [], 0);
      memo' := memo;
      ghost var rest := l;
      assert es[0..] == es && es[..0] == [];
      FactsStart(g, root, radixPages, l);
      for k := 0 to |es|
        invariant EntriesLeft(g, es, k, l, rest, entries.Keys) && FilesSoFar(l, rest, soFar.files, soFar.total)
        invariant MemoSound(g, memo') && memo.Keys <= memo'.Keys
        invariant PagesSoFar(g, root, radixPages, es[..k], soFar.pageIds)
      {
        NextEntry(g, es, k, l, rest, entries.Keys);
        var step, grown := FactsOfEntry(es[k], soFar, memo', l, rest);
        if step.Err? {
          return Err(step.code), memo';
        }
        memo' := grown;
        NextPages(g, root, radixPages, es, k, soFar.pageIds, step.value.pageIds);
        soFar := step.value;
        rest := rest.rest;
      }
      assert es[..|es|] == es;
      FactsFinish(g, root, radixPages, l, soFar);
      return Ok(Facts(root, soFar.pageIds, SortBy(FilePath, soFar.files), soFar.total)), memo';
    }
  }

  predicate AuthenticPage(c: Codec, id: PageId, page: Bytes) {
    IsDigest(id) && c.pageId(page) == id && c.decode(page).Some?
  }

  /** Every page hashes to its name and decodes. */
  predicate Authentic(c: Codec, pages: map<PageId, Bytes>) {
    forall id :: id in pages ==> AuthenticPage(c, id, pages[id])
  }

  function Decoded(c: Codec, pages: map<PageId, Bytes>): map<PageId, Page>
    requires Authentic(c, pages)
  {
    map id | id in pages :: c.decode(pages[id]).value
  }

  function CheckPage(c: Codec, id: PageId, page: Bytes): (r: Result<Page>)
    ensures r.Ok? <==> AuthenticPage(c, id, page)
    ensures r.Ok? ==> c.decode(page) == Some(r.value)
    ensures r.Err? ==> r.code == DigestMismatch || r.code == IntegrityError
  {
    if !IsDigest(id) then Err(DigestMismatch)
    else if c.pageId(page) != id || c.decode(page).None? then Err(IntegrityError)
    else Ok(c.decode(page).value)
  }

  // ------------------------------------------------------- what the loops preserve

  /** One step of the loop over a page's children. */
  lemma GatherStep(g: Graph, acc: seq<Entry>, cs: seq<Child>, k: nat)
    requires k < |cs|
    ensures var sub := RadixOf(g, cs[k].childPageId);
            GatherOf(g, acc, cs[k..]) ==
            if sub.None? || |sub.value| != cs[k].subtreeEntries then None else GatherOf(g, acc + sub.value, cs[k + 1..])
  {
    SplitAt(cs, k);
  }

  ghost predicate EntriesSound(g: Graph, entries: map<PageId, seq<Entry>>, reached: set<PageId>) {
    forall id :: id in entries ==>
      id in reached && RadixOf(g, id) == Some(entries[id]) && ChildrenWithin(g, id, entries.Keys)
  }

  lemma EntriesGrow(g: Graph, entries: map<PageId, seq<Entry>>, reached: set<PageId>, id: PageId, es: seq<Entry>)
    requires EntriesSound(g, entries, reached) && id in reached
    requires RadixOf(g, id) == Some(es) && ChildrenWithin(g, id, entries.Keys)
    ensures EntriesSound(g, entries[id := es], reached)
  {
    var grown := entries[id := es];
    forall k | k in grown ensures k in reached && RadixOf(g, k) == Some(grown[k]) && ChildrenWithin(g, k, grown.Keys) {
      assert k != id ==> ChildrenWithin(g, k, entries.Keys);
    }
  }

  /** The reached pages grew only by pages reachable from `root`. */
  ghost predicate ReachedBelow(g: Graph, before: set<PageId>, after: set<PageId>, root: PageId) {
    before <= after && forall p :: p in after ==> p in before || Reachable(g, root, p)
  }

  lemma ReachedThrough(g: Graph, a: set<PageId>, b: set<PageId>, c: set<PageId>, root: PageId, child: PageId)
    requires ReachedBelow(g, a, b, root) && ReachedBelow(g, b, c, child) && Reachable(g, root, child)
    ensures ReachedBelow(g, a, c, root)
  {
    forall p | p in c ensures p in a || Reachable(g, root, p) {
      if p !in b {
        ReachTransitive(g, root, child, p);
      }
    }
  }

  lemma RadixChildReached(g: Graph, id: PageId, c: Child)
    requires id in g.decoded && c in Children(g.decoded[id])
    ensures Reachable(RadixOnly(g), id, c.childPageId)
  {
    var r := RadixOnly(g);
    ReachesItself(r, id);
    assert Children(r.decoded[id]) == Children(g.decoded[id]) && Edge(r, id, c.childPageId);
    ReachStep(r, id, id, c.childPageId);
  }

  lemma RadixReachedBelow(g: Graph, before: set<PageId>, after: set<PageId>, root: PageId)
    requires ReachedBelow(RadixOnly(g), before, after, root)
    ensures ReachedBelow(g, before, after, root)
  {
    forall p | p in after && p !in before ensures Reachable(g, root, p) {
      RadixReaches(g, root, p);
    }
  }

  /** Every directory recorded since `before` has its entries in the memo. */
  ghost predicate RootsKnown(before: seq<SnapshotDirectory>, after: seq<SnapshotDirectory>, known: set<PageId>) {
    forall d :: d in after ==> d in before || d.directoryRoot in known
  }

  ghost predicate Walkable(c: Codec, scope: string, st: WalkState, rel: string, root: PageId, l: Option<Listing>) {
    l.Some? && WalkDir(c, scope, st, rel, root, l.value).Some?
  }

  ghost predicate Walked(c: Codec, scope: string, st: WalkState, st': WalkState, rel: string, root: PageId, l: Option<Listing>) {
    l.Some? && WalkDir(c, scope, st, rel, root, l.value) == Some(st')
  }

  ghost predicate WalkableIn(c: Codec, scope: string, st: WalkState, rel: string, l: Option<Listing>) {
    l.Some? && WalkIn(c, scope, st, rel, l.value).Some?
  }

  ghost predicate WalkedIn(c: Codec, scope: string, st: WalkState, st': WalkState, rel: string, l: Option<Listing>) {
    l.Some? && WalkIn(c, scope, st, rel, l.value) == Some(st')
  }

  /** Walking `l` from `st` comes down to walking the remaining `l'` from `st'`. */
  ghost predicate SameWalk(c: Codec, scope: string, st: WalkState, l: Option<Listing>, st': WalkState, l': Option<Listing>, rel: string) {
    (l.Some? <==> l'.Some?) &&
    (l.Some? ==> WalkIn(c, scope, st, rel, l.value) == WalkIn(c, scope, st', rel, l'.value))
  }

  /** Entering a directory reduces its walk to the walk of its entries. */
  lemma DirectoryStep(g: Graph, scope: string, st: WalkState, rel: string, root: PageId)
    requires g.codec.scopeOk(FullPath(scope, rel)) && rel !in st.paths
    ensures RadixOf(g, root).None? ==> !Walkable(g.codec, scope, st, rel, root, ListingOf(g, root))
    ensures RadixOf(g, root).Some? ==>
              root in g.decoded &&
              ListingOf(g, root) == EntriesOf(g, RadixOf(g, root).value)
    ensures ListingOf(g, root).Some? ==>
              WalkDir(g.codec, scope, st, rel, root, ListingOf(g, root).value) ==
              WalkIn(g.codec, scope, WithDir(st, rel, root), rel, ListingOf(g, root).value)
  {
    ListingUnfold(g, root);
    RadixUnfold(g, root);
  }

  /** What the reference walk does with one entry. */
  ghost function Step(g: Graph, scope: string, st: WalkState, rel: string, e: Entry): Option<WalkState> {
    if e.kind != Directory then WalkFile(g.codec, scope, st, rel, e)
    else if !g.codec.utf8(e.name) || ListingOf(g, e.childRoot).None? then None
    else WalkDir(g.codec, scope, st, Join(rel, e.name), e.childRoot, ListingOf(g, e.childRoot).value)
  }

  lemma EntryWalkStep(g: Graph, scope: string, st: WalkState, l: Option<Listing>, st1: WalkState, es: seq<Entry>, rel: string)
    requires es != [] && SameWalk(g.codec, scope, st, l, st1, EntriesOf(g, es), rel)
    ensures Step(g, scope, st1, rel, es[0]).None? ==> !WalkableIn(g.codec, scope, st, rel, l)
    ensures Step(g, scope, st1, rel, es[0]).Some? ==>
              SameWalk(g.codec, scope, st, l, Step(g, scope, st1, rel, es[0]).value, EntriesOf(g, es[1..]), rel)
  {
  }

  lemma RootsKnownThrough(a: seq<SnapshotDirectory>, b: seq<SnapshotDirectory>, c: seq<SnapshotDirectory>, known: set<PageId>)
    requires RootsKnown(a, b, known) && RootsKnown(b, c, known)
    ensures RootsKnown(a, c, known)
  {
  }

  lemma RootsKnownMore(a: seq<SnapshotDirectory>, b: seq<SnapshotDirectory>, c: seq<SnapshotDirectory>, known: set<PageId>, more: set<PageId>)
    requires RootsKnown(a, b, known) && RootsKnown(b, c, more) && known <= more
    ensures RootsKnown(a, c, more)
  {
  }

  /** Expanding one more page leaves strictly fewer pages to expand. */
  lemma SmallerWithout<T>(all: set<T>, active: set<T>, x: T)
    requires x in all && x !in active
    ensures |all - (active + {x})| < |all - active|
  {
    assert all - active == (all - (active + {x})) + {x};
  }

  // ------------------------------------------------------------------ subtree facts

  datatype Facts = Facts(rootPageId: PageId, pageIds: set<PageId>, files: seq<SnapshotFile>, totalEntries: nat)

  /** What the facts of `root` must say of its unfolded tree. */
  ghost predicate FactsFor(g: Graph, root: PageId, l: Listing, f: Facts) {
    f.rootPageId == root &&
    f.files == SortBy(FilePath, RelFiles(l)) &&
    f.totalEntries == Count(l) &&
    forall p :: p in f.pageIds <==> Reachable(g, root, p)
  }

  ghost predicate MemoSound(g: Graph, memo: map<PageId, Facts>) {
    forall id :: id in memo ==> ListingOf(g, id).Some? && FactsFor(g, id, ListingOf(g, id).value, memo[id])
  }

  ghost predicate RootsIn(l: Listing, known: set<PageId>) {
    match l
    case End => true
    case File(_, rest) => RootsIn(rest, known)
    case Dir(e, sub, rest) => e.childRoot in known && RootsIn(sub, known) && RootsIn(rest, known)
  }

  ghost predicate Utf8Names(c: Codec, l: Listing) {
    match l
    case End => true
    case File(e, rest) => c.utf8(e.name) && Utf8Names(c, rest)
    case Dir(e, sub, rest) => c.utf8(e.name) && Utf8Names(c, sub) && Utf8Names(c, rest)
  }

  /** `p` is a page of `top`'s radix tree: reachable, meaningful, and all its
      entries belong to `top`'s directory. */
  ghost predicate RadixPart(g: Graph, top: PageId, p: PageId) {
    RadixOf(g, top).Some? && RadixOf(g, p).Some? && p in g.decoded && Reachable(g, top, p) &&
    forall e :: e in RadixOf(g, p).value ==> e in RadixOf(g, top).value
  }

  ghost predicate ChildrenWithin(g: Graph, p: PageId, s: set<PageId>) {
    p in g.decoded && forall c :: c in Children(g.decoded[p]) ==> c.childPageId in s
  }

  /** The search grew `before` to `after` by pages of `top`'s radix tree, and
      followed every child of each of them but those still `open`. */
  ghost predicate Explored(g: Graph, top: PageId, before: set<PageId>, after: set<PageId>, open: set<PageId>) {
    before <= after &&
    forall p :: p in after && p !in before ==> RadixPart(g, top, p) && (p in open || ChildrenWithin(g, p, after))
  }

  lemma ExploredFurther(g: Graph, top: PageId, a: set<PageId>, b: set<PageId>, c: set<PageId>, open: set<PageId>)
    requires Explored(g, top, a, b, open) && Explored(g, top, b, c, {})
    ensures Explored(g, top, a, c, open)
  {
    forall p | p in c && p !in a ensures RadixPart(g, top, p) && (p in open || ChildrenWithin(g, p, c)) {
      if p in b && p !in open {
        assert ChildrenWithin(g, p, b);
      }
    }
  }

  lemma RadixPartItself(g: Graph, root: PageId)
    requires RadixOf(g, root).Some?
    ensures RadixPart(g, root, root)
  {
    RadixKeeps(g, root);
    ReachesItself(g, root);
  }

  lemma RadixPartChild(g: Graph, top: PageId, p: PageId, c: Child)
    requires RadixPart(g, top, p) && c in Children(g.decoded[p])
    ensures RadixPart(g, top, c.childPageId)
  {
    RadixKeeps(g, p);
    RadixKeeps(g, c.childPageId);
    ReachStep(g, top, p, c.childPageId);
  }

  lemma FewerOutside<T>(all: set<T>, a: set<T>, b: set<T>)
    requires a <= b
    ensures |all - b| <= |all - a|
  {
    var d := (all - a) - (all - b);
    assert all - a == (all - b) + d;
  }

  /** Why facts can be refused: more entries than a u64 counts, or a name
      that is not UTF-8, which an accepted closure does not have. */
  ghost predicate FactsRefused(c: Codec, l: Listing, code: ErrorCode) {
    (code == LimitExceeded && Count(l) > U64_MAX) || (code == IntegrityError && !Utf8Names(c, l))
  }

  /** What the entry loop sees of the remaining tree. */
  lemma EntriesHead(g: Graph, es: seq<Entry>, l: Listing, known: set<PageId>)
    requires es != [] && EntriesOf(g, es) == Some(l) && RootsIn(l, known)
    ensures !l.End? && l.entry == es[0] && (l.Dir? <==> es[0].kind == Directory)
    ensures EntriesOf(g, es[1..]) == Some(l.rest) && RootsIn(l.rest, known)
    ensures l.Dir? ==> ListingOf(g, es[0].childRoot) == Some(l.sub) && es[0].childRoot in known && RootsIn(l.sub, known)
    ensures Count(l) >= 1
    ensures Utf8Names(g.codec, l) ==> g.codec.utf8(es[0].name) && Utf8Names(g.codec, l.rest)
  {
  }

  /** The listing of the entries from `k` on. */
  ghost predicate EntriesLeft(g: Graph, es: seq<Entry>, k: nat, l: Listing, rest: Listing, known: set<PageId>) {
    k <= |es| && EntriesOf(g, es[k..]) == Some(rest) && RootsIn(rest, known) && (Utf8Names(g.codec, l) ==> Utf8Names(g.codec, rest))
  }

  lemma NextEntry(g: Graph, es: seq<Entry>, k: nat, l: Listing, rest: Listing, known: set<PageId>)
    requires k < |es| && EntriesLeft(g, es, k, l, rest, known)
    ensures !rest.End? && rest.entry == es[k] && (rest.Dir? <==> es[k].kind == Directory) && EntriesLeft(g, es, k + 1, l, rest.rest, known)
    ensures rest.Dir? ==> ListingOf(g, es[k].childRoot) == Some(rest.sub) && es[k].childRoot in known && RootsIn(rest.sub, known)
  {
    SplitAt(es, k);
    EntriesHead(g, es[k..], rest, known);
    assert es[k..][1..] == es[k + 1..];
  }

  lemma NextPages(g: Graph, root: PageId, radix: set<PageId>, es: seq<Entry>, k: nat, s: set<PageId>, s': set<PageId>)
    requires k < |es| && RadixOf(g, root) == Some(es) && PagesSoFar(g, root, radix, es[..k], s) && PagesAdded(g, es[k], s, s')
    ensures PagesSoFar(g, root, radix, es[..k + 1], s')
  {
    SplitAt(es, k);
    PagesGrow(g, root, radix, es[..k], es[k], s, s');
  }

  lemma RefusedBelow(c: Codec, l: Listing, rest: Listing, code: ErrorCode)
    requires rest.Dir? && Count(rest.sub) < Count(l) && FactsRefused(c, rest.sub, code)
    requires Utf8Names(c, l) ==> Utf8Names(c, rest)
    ensures FactsRefused(c, l, code)
  {
  }

  /** Everything reachable from a directory among `es` is in `s`. */
  ghost predicate SubtreesWithin(g: Graph, es: seq<Entry>, s: set<PageId>) {
    forall e, p :: e in es && e.kind == Directory && Reachable(g, e.childRoot, p) ==> p in s
  }

  /** The page set of the entry loop: the radix pages, and the subtrees of the
      directories among the entries `es` already visited. */
  ghost predicate PagesSoFar(g: Graph, root: PageId, radix: set<PageId>, es: seq<Entry>, s: set<PageId>) {
    radix <= s && SubtreesWithin(g, es, s) &&
    forall p :: p in s ==> Reachable(g, root, p) && (p in radix || exists e :: BelowEntry(g, root, e, p))
  }

  /** The pages one entry adds: a directory's whole subtree, a file's none. */
  ghost predicate PagesAdded(g: Graph, e: Entry, s: set<PageId>, s': set<PageId>) {
    if e.kind == Directory then forall p :: p in s' <==> p in s || Reachable(g, e.childRoot, p)
    else s' == s
  }

  lemma PagesGrow(g: Graph, root: PageId, radix: set<PageId>, es: seq<Entry>, e: Entry, s: set<PageId>, s': set<PageId>)
    requires PagesSoFar(g, root, radix, es, s) && PagesAdded(g, e, s, s')
    requires RadixOf(g, root).Some? && e in RadixOf(g, root).value
    ensures PagesSoFar(g, root, radix, es + [e], s')
  {
    if e.kind == Directory {
      EntryReaches(g, root, e);
      forall p | p in s' && p !in s ensures Reachable(g, root, p) && BelowEntry(g, root, e, p) {
        ReachTransitive(g, root, e.childRoot, p);
      }
    }
  }

  /** The radix pages of a directory with all its subtrees are closed under
      page references, hence everything reachable from its root. */
  lemma SubtreeComplete(g: Graph, root: PageId, radix: set<PageId>, s: set<PageId>)
    requires RadixOf(g, root).Some? && root in radix && Explored(g, root, {}, radix, {})
    requires PagesSoFar(g, root, radix, RadixOf(g, root).value, s)
    ensures forall p :: Reachable(g, root, p) <==> p in s
  {
    forall a, b | a in s && Edge(g, a, b) ensures b in s {
      if a in radix {
        assert ChildrenWithin(g, a, radix) && RadixPart(g, root, a);
        if c :| c in Children(g.decoded[a]) && c.childPageId == b {
        } else {
          var e :| e in Own(g.decoded[a]) && e.kind == Directory && e.childRoot == b;
          RadixKeeps(g, a);
          ReachesItself(g, b);
        }
      } else {
        var e :| BelowEntry(g, root, e, a);
        ReachStep(g, e.childRoot, a, b);
      }
    }
    ClosedHoldsReachable(g, s, root);
  }

  datatype Partial = Partial(pageIds: set<PageId>, files: seq<SnapshotFile>, total: nat)

  /** The file list and count of the entry loop, short of the entries `rest`. */
  ghost predicate FilesSoFar(l: Listing, rest: Listing, files: seq<SnapshotFile>, total: nat) {
    DistinctKeys(FilePath, RelFiles(rest)) &&
    multiset(files) + multiset(RelFiles(rest)) == multiset(RelFiles(l)) &&
    total + Count(rest) == Count(l)
  }

  lemma FactsStart(g: Graph, root: PageId, radix: set<PageId>, l: Listing)
    requires DistinctKeys(FilePath, RelFiles(l)) && Explored(g, root, {}, radix, {})
    ensures FilesSoFar(l, l, [], 0) && PagesSoFar(g, root, radix, [], radix)
  {
  }

  lemma FactsFinish(g: Graph, root: PageId, radix: set<PageId>, l: Listing, s: Partial)
    requires RadixOf(g, root).Some? && root in radix && Explored(g, root, {}, radix, {})
    requires PagesSoFar(g, root, radix, RadixOf(g, root).value, s.pageIds)
    requires DistinctKeys(FilePath, RelFiles(l)) && FilesSoFar(l, End, s.files, s.total)
    ensures FactsFor(g, root, l, Facts(root, s.pageIds, SortBy(FilePath, s.files), s.total))
  {
    SortOfPermutation(FilePath, RelFiles(l), s.files);
    SubtreeComplete(g, root, radix, s.pageIds);
  }

  lemma DirFilesStep(l: Listing, rest: Listing, s: Partial)
    requires rest.Dir? && FilesSoFar(l, rest, s.files, s.total)
    ensures DistinctKeys(FilePath, RelFiles(rest.sub)) && Count(rest.sub) < Count(l)
    ensures FilesSoFar(l, rest.rest, s.files + Prefixed(rest.entry.name, SortBy(FilePath, RelFiles(rest.sub))), s.total + 1 + Count(rest.sub))
  {
    DirPartsDistinct(rest.entry.name, RelFiles(rest.sub), RelFiles(rest.rest));
    PrefixedSort(rest.entry.name, RelFiles(rest.sub));
  }

  lemma FileFilesStep(l: Listing, rest: Listing, s: Partial)
    requires rest.File? && FilesSoFar(l, rest, s.files, s.total)
    ensures FilesSoFar(l, rest.rest, s.files + [FileAt(rest.entry.name, rest.entry)], s.total + 1)
  {
    FilePartsDistinct(FileAt(rest.entry.name, rest.entry), RelFiles(rest.rest));
  }

  ghost predicate BelowEntry(g: Graph, root: PageId, e: Entry, p: PageId) {
    RadixOf(g, root).Some? && e in RadixOf(g, root).value && e.kind == Directory && Reachable(g, e.childRoot, p)
  }

  lemma DirPartsDistinct(name: string, sub: seq<SnapshotFile>, rest: seq<SnapshotFile>)
    requires DistinctKeys(FilePath, Prefixed(name, sub) + rest)
    ensures DistinctKeys(FilePath, sub) && DistinctKeys(FilePath, rest)
  {
    var all := Prefixed(name, sub) + rest;
    forall i, j | 0 <= i < j < |sub| ensures FilePath(sub[i]) != FilePath(sub[j]) {
      assert FilePath(all[i]) != FilePath(all[j]);
    }
    forall i, j | 0 <= i < j < |rest| ensures FilePath(rest[i]) != FilePath(rest[j]) {
      assert FilePath(all[|sub| + i]) != FilePath(all[|sub| + j]);
    }
  }

  lemma FilePartsDistinct(f: SnapshotFile, rest: seq<SnapshotFile>)
    requires DistinctKeys(FilePath, [f] + rest)
    ensures DistinctKeys(FilePath, rest)
  {
    forall i, j | 0 <= i < j < |rest| ensures FilePath(rest[i]) != FilePath(rest[j]) {
      assert FilePath(([f] + rest)[i + 1]) != FilePath(([f] + rest)[j + 1]);
    }
  }

  lemma {:induction false} PrefixedInsert(name: string, f: SnapshotFile, fs: seq<SnapshotFile>)
    ensures multiset(Prefixed(name, Insert(FilePath, f, fs))) == multiset(Prefixed(name, [f] + fs))
  {
    if fs != [] && !Le(FilePath(f), FilePath(fs[0])) {
      PrefixedInsert(name, f, fs[1..]);
      PrefixedAppend(name, [fs[0]], Insert(FilePath, f, fs[1..]));
      PrefixedAppend(name, [f], fs[1..]);
      PrefixedAppend(name, [f], fs);
      PrefixedAppend(name, [fs[0]], fs[1..]);
      assert fs == [fs[0]] + fs[1..];
    }
  }

  /** Prefixing sorted files gives the same files as prefixing them unsorted. */
  lemma {:induction false} PrefixedSort(name: string, fs: seq<SnapshotFile>)
    ensures multiset(Prefixed(name, SortBy(FilePath, fs))) == multiset(Prefixed(name, fs))
  {
    if fs != [] {
      var tail := SortBy(FilePath, fs[1..]);
      PrefixedSort(name, fs[1..]);
      PrefixedInsert(name, fs[0], tail);
      PrefixedAppend(name, [fs[0]], tail);
      PrefixedAppend(name, [fs[0]], fs[1..]);
      assert fs == [fs[0]] + fs[1..];
    }
  }
}
