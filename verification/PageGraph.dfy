/** What a set of metadata pages means, independently of how it is walked.

    A directory's entries are spread over a radix tree of pages, and an entry
    of kind Directory names the radix root of another directory. Both relations
    come from untrusted bytes, so the graph may be cyclic; a meaning exists only
    where the unfolding is finite. */
module PageGraph {
  import opened Base
  import opened Ordering

  type PageId = string

  datatype EntryKind = Regular | Executable | Symlink | Directory

  datatype Entry = Entry(name: string, kind: EntryKind, size: nat, contentId: Digest, childRoot: PageId)

  datatype Child = Child(childPageId: PageId, subtreeEntries: nat)

  datatype Page = Leaf(entries: seq<Entry>) | Branch(terminal: Option<Entry>, children: seq<Child>)

  /** The page codec is a parameter: hash, decoder, canonical builder, the
      UTF-8 test and the scope test of its descriptor part. */
  datatype Codec = Codec(
    pageId: Bytes -> PageId,
    decode: Bytes -> Option<Page>,
    build: seq<Entry> -> Option<Bytes>,
    utf8: string -> bool,
    scopeOk: string -> bool)

  datatype Graph = Graph(codec: Codec, bytes: map<PageId, Bytes>, decoded: map<PageId, Page>)

  /** Entries stored in the page itself. */
  function Own(p: Page): seq<Entry> {
    match p
    case Leaf(entries) => entries
    case Branch(terminal, _) => if terminal.Some? then [terminal.value] else []
  }

  function Children(p: Page): seq<Child> {
    match p
    case Leaf(_) => []
    case Branch(_, children) => children
  }

  function Name(e: Entry): string {
    e.name
  }

  // ---------------------------------------------------------------- radix level

  /** Entries below a radix page, unfolding at most `n` levels. None when a page
      is missing, a child's declared count is wrong, a page is not the canonical
      build of its sorted entries, or `n` levels are not enough. */
  ghost function RadixWithin(g: Graph, id: PageId, n: nat): Option<seq<Entry>>
    decreases n, 0
  {
    if n == 0 || id !in g.decoded then None
    else Canonical(g, id, GatherWithin(g, Own(g.decoded[id]), Children(g.decoded[id]), n - 1))
  }

  ghost function GatherWithin(g: Graph, acc: seq<Entry>, cs: seq<Child>, n: nat): Option<seq<Entry>>
    decreases n, |cs|
  {
    if cs == [] then Some(acc)
    else
      var es := RadixWithin(g, cs[0].childPageId, n);
      if es.None? || |es.value| != cs[0].subtreeEntries then None
      else GatherWithin(g, acc + es.value, cs[1..], n)
  }

  /** The sorted entries, provided the page is exactly their canonical build. */
  ghost function Canonical(g: Graph, id: PageId, gathered: Option<seq<Entry>>): Option<seq<Entry>> {
    if gathered.None? then None
    else
      var sorted := SortBy(Name, gathered.value);
      var built := g.codec.build(sorted);
      if id in g.bytes && built == Some(g.bytes[id]) then Some(sorted) else None
  }

  lemma {:induction false} RadixMonotone(g: Graph, id: PageId, n: nat, m: nat)
    requires n <= m && RadixWithin(g, id, n).Some?
    ensures RadixWithin(g, id, m) == RadixWithin(g, id, n)
    decreases n, 0
  {
    GatherMonotone(g, Own(g.decoded[id]), Children(g.decoded[id]), n - 1, m - 1);
  }

  lemma {:induction false} GatherMonotone(g: Graph, acc: seq<Entry>, cs: seq<Child>, n: nat, m: nat)
    requires n <= m && GatherWithin(g, acc, cs, n).Some?
    ensures GatherWithin(g, acc, cs, m) == GatherWithin(g, acc, cs, n)
    decreases n, |cs|
  {
    if cs != [] {
      RadixMonotone(g, cs[0].childPageId, n, m);
      GatherMonotone(g, acc + RadixWithin(g, cs[0].childPageId, n).value, cs[1..], n, m);
    }
  }

  ghost predicate HasRadix(g: Graph, id: PageId) {
    exists n: nat :: RadixWithin(g, id, n).Some?
  }

  /** The meaning of a radix page: its entries in name order, or None when the
      pages below it do not form a finite canonical partition. */
  ghost function RadixOf(g: Graph, id: PageId): Option<seq<Entry>> {
    if HasRadix(g, id) then var n: nat :| RadixWithin(g, id, n).Some?; RadixWithin(g, id, n)
    else None
  }

  ghost function GatherOf(g: Graph, acc: seq<Entry>, cs: seq<Child>): Option<seq<Entry>>
    decreases |cs|
  {
    if cs == [] then Some(acc)
    else
      var es := RadixOf(g, cs[0].childPageId);
      if es.None? || |es.value| != cs[0].subtreeEntries then None
      else GatherOf(g, acc + es.value, cs[1..])
  }

  lemma RadixAgrees(g: Graph, id: PageId, n: nat)
    requires RadixWithin(g, id, n).Some?
    ensures RadixOf(g, id) == RadixWithin(g, id, n)
  {
    var m: nat :| RadixWithin(g, id, m).Some? && RadixOf(g, id) == RadixWithin(g, id, m);
    if n <= m {
      RadixMonotone(g, id, n, m);
    } else {
      RadixMonotone(g, id, m, n);
    }
  }

  lemma {:induction false} GatherAgrees(g: Graph, acc: seq<Entry>, cs: seq<Child>, n: nat)
    requires GatherWithin(g, acc, cs, n).Some?
    ensures GatherOf(g, acc, cs) == GatherWithin(g, acc, cs, n)
    decreases |cs|
  {
    if cs != [] {
      RadixAgrees(g, cs[0].childPageId, n);
      GatherAgrees(g, acc + RadixWithin(g, cs[0].childPageId, n).value, cs[1..], n);
    }
  }

  lemma {:induction false} GatherReached(g: Graph, acc: seq<Entry>, cs: seq<Child>) returns (n: nat)
    requires GatherOf(g, acc, cs).Some?
    ensures GatherWithin(g, acc, cs, n) == GatherOf(g, acc, cs)
    decreases |cs|
  {
    if cs == [] {
      n := 0;
    } else {
      var id := cs[0].childPageId;
      var k: nat :| RadixWithin(g, id, k).Some?;
      RadixAgrees(g, id, k);
      var m := GatherReached(g, acc + RadixOf(g, id).value, cs[1..]);
      n := if k < m then m else k;
      RadixMonotone(g, id, k, n);
      GatherMonotone(g, acc + RadixOf(g, id).value, cs[1..], m, n);
    }
  }

  /** The unfolding equation: one page's meaning in terms of its children's. */
  lemma RadixUnfold(g: Graph, id: PageId)
    ensures RadixOf(g, id) ==
            if id !in g.decoded then None
            else Canonical(g, id, GatherOf(g, Own(g.decoded[id]), Children(g.decoded[id])))
  {
    if id in g.decoded {
      var own, cs := Own(g.decoded[id]), Children(g.decoded[id]);
      if Canonical(g, id, GatherOf(g, own, cs)).Some? {
        var n := GatherReached(g, own, cs);
        RadixAgrees(g, id, n + 1);
      } else if HasRadix(g, id) {
        var n: nat :| RadixWithin(g, id, n).Some?;
        GatherAgrees(g, own, cs, n - 1);
      }
    }
  }

  /** A child of a page that unfolds within `n` unfolds within `n - 1`. */
  lemma {:induction false} GatherChild(g: Graph, acc: seq<Entry>, cs: seq<Child>, n: nat, c: Child)
    requires GatherWithin(g, acc, cs, n).Some? && c in cs
    ensures RadixWithin(g, c.childPageId, n).Some?
    decreases |cs|
  {
    if cs[0] != c {
      GatherChild(g, acc + RadixWithin(g, cs[0].childPageId, n).value, cs[1..], n, c);
    }
  }

  /** Every entry gathered so far, and every entry of a child, is kept. */
  lemma {:induction false} GatherKeeps(g: Graph, acc: seq<Entry>, cs: seq<Child>)
    requires GatherOf(g, acc, cs).Some?
    ensures forall e :: e in acc ==> e in GatherOf(g, acc, cs).value
    ensures forall c :: c in cs ==> RadixOf(g, c.childPageId).Some?
    ensures forall c, e :: c in cs && e in RadixOf(g, c.childPageId).value ==> e in GatherOf(g, acc, cs).value
    decreases |cs|
  {
    if cs != [] {
      var es := RadixOf(g, cs[0].childPageId).value;
      GatherKeeps(g, acc + es, cs[1..]);
      forall c | c in cs ensures c == cs[0] || c in cs[1..] { }
    }
  }

  /** An unfolded page keeps its own entries and those of each child. */
  lemma RadixKeeps(g: Graph, id: PageId)
    requires RadixOf(g, id).Some?
    ensures id in g.decoded
    ensures forall e :: e in Own(g.decoded[id]) ==> e in RadixOf(g, id).value
    ensures forall c :: c in Children(g.decoded[id]) ==>
      RadixOf(g, c.childPageId).Some? && |RadixOf(g, c.childPageId).value| == c.subtreeEntries
    ensures forall c, e ::
              c in Children(g.decoded[id]) && RadixOf(g, c.childPageId).Some? && e in RadixOf(g, c.childPageId).value ==>
                e in RadixOf(g, id).value
  {
    RadixUnfold(g, id);
    var own, cs := Own(g.decoded[id]), Children(g.decoded[id]);
    GatherKeeps(g, own, cs);
    GatherCounts(g, own, cs);
    SortPermutes(Name, GatherOf(g, own, cs).value);
    MultisetMembers(GatherOf(g, own, cs).value, RadixOf(g, id).value);
  }

  lemma {:induction false} GatherCounts(g: Graph, acc: seq<Entry>, cs: seq<Child>)
    requires GatherOf(g, acc, cs).Some?
    ensures forall c :: c in cs ==>
      RadixOf(g, c.childPageId).Some? && |RadixOf(g, c.childPageId).value| == c.subtreeEntries
    decreases |cs|
  {
    if cs != [] {
      GatherCounts(g, acc + RadixOf(g, cs[0].childPageId).value, cs[1..]);
      forall c | c in cs ensures c == cs[0] || c in cs[1..] { }
    }
  }

  /** An unfolded page is the canonical build of its entries, which are in name order,
      and its children's declared counts are true. */
  lemma RadixIsCanonicalBuild(g: Graph, id: PageId)
    requires RadixOf(g, id).Some?
    ensures id in g.bytes && g.codec.build(RadixOf(g, id).value) == Some(g.bytes[id])
    ensures Sorted(Name, RadixOf(g, id).value)
    ensures id in g.decoded && forall c :: c in Children(g.decoded[id]) ==>
              RadixOf(g, c.childPageId).Some? && |RadixOf(g, c.childPageId).value| == c.subtreeEntries
  {
    RadixUnfold(g, id);
    RadixKeeps(g, id);
    SortIsSorted(Name, GatherOf(g, Own(g.decoded[id]), Children(g.decoded[id])).value);
  }

  // -------------------------------------------------------------- logical level

  /** A finite logical directory tree, entry by entry: `rest` holds the entries
      that follow in the same directory, `sub` the content of a subdirectory. */
  datatype Listing =
    | End
    | File(entry: Entry, rest: Listing)
    | Dir(entry: Entry, sub: Listing, rest: Listing)

  ghost function ListWithin(g: Graph, root: PageId, n: nat): Option<Listing>
    decreases n, 0
  {
    if n == 0 || RadixOf(g, root).None? then None
    else EntriesWithin(g, RadixOf(g, root).value, n - 1)
  }

  ghost function EntriesWithin(g: Graph, es: seq<Entry>, n: nat): Option<Listing>
    decreases n, |es|
  {
    if es == [] then Some(End)
    else
      var rest := EntriesWithin(g, es[1..], n);
      if rest.None? then None
      else if es[0].kind != Directory then Some(File(es[0], rest.value))
      else
        var sub := ListWithin(g, es[0].childRoot, n);
        if sub.None? then None else Some(Dir(es[0], sub.value, rest.value))
  }

  lemma {:induction false} ListMonotone(g: Graph, root: PageId, n: nat, m: nat)
    requires n <= m && ListWithin(g, root, n).Some?
    ensures ListWithin(g, root, m) == ListWithin(g, root, n)
    decreases n, 0
  {
    EntriesMonotone(g, RadixOf(g, root).value, n - 1, m - 1);
  }

  lemma {:induction false} EntriesMonotone(g: Graph, es: seq<Entry>, n: nat, m: nat)
    requires n <= m && EntriesWithin(g, es, n).Some?
    ensures EntriesWithin(g, es, m) == EntriesWithin(g, es, n)
    decreases n, |es|
  {
    if es != [] {
      EntriesMonotone(g, es[1..], n, m);
      if es[0].kind == Directory {
        ListMonotone(g, es[0].childRoot, n, m);
      }
    }
  }

  ghost predicate HasListing(g: Graph, root: PageId) {
    exists n: nat :: ListWithin(g, root, n).Some?
  }

  /** The meaning of a directory root: the whole tree below it, or None when
      the directory graph has no finite unfolding from here. */
  ghost function ListingOf(g: Graph, root: PageId): Option<Listing> {
    if HasListing(g, root) then var n: nat :| ListWithin(g, root, n).Some?; ListWithin(g, root, n)
    else None
  }

  ghost function EntriesOf(g: Graph, es: seq<Entry>): Option<Listing> {
    if es == [] then Some(End)
    else
      var rest := EntriesOf(g, es[1..]);
      if rest.None? then None
      else if es[0].kind != Directory then Some(File(es[0], rest.value))
      else
        var sub := ListingOf(g, es[0].childRoot);
        if sub.None? then None else Some(Dir(es[0], sub.value, rest.value))
  }

  lemma ListingAgrees(g: Graph, root: PageId, n: nat)
    requires ListWithin(g, root, n).Some?
    ensures ListingOf(g, root) == ListWithin(g, root, n)
  {
    var m: nat :| ListWithin(g, root, m).Some? && ListingOf(g, root) == ListWithin(g, root, m);
    if n <= m {
      ListMonotone(g, root, n, m);
    } else {
      ListMonotone(g, root, m, n);
    }
  }

  lemma {:induction false} EntriesAgree(g: Graph, es: seq<Entry>, n: nat)
    requires EntriesWithin(g, es, n).Some?
    ensures EntriesOf(g, es) == EntriesWithin(g, es, n)
  {
    if es != [] {
      EntriesAgree(g, es[1..], n);
      if es[0].kind == Directory {
        ListingAgrees(g, es[0].childRoot, n);
      }
    }
  }

  lemma {:induction false} EntriesReached(g: Graph, es: seq<Entry>) returns (n: nat)
    requires EntriesOf(g, es).Some?
    ensures EntriesWithin(g, es, n) == EntriesOf(g, es)
  {
    if es == [] {
      n := 0;
    } else {
      n := EntriesReached(g, es[1..]);
      if es[0].kind == Directory {
        var m := n;
        var k: nat :| ListWithin(g, es[0].childRoot, k).Some?;
        ListingAgrees(g, es[0].childRoot, k);
        n := if k < m then m else k;
        ListMonotone(g, es[0].childRoot, k, n);
        EntriesMonotone(g, es[1..], m, n);
      }
    }
  }

  lemma ListingUnfold(g: Graph, root: PageId)
    ensures ListingOf(g, root) ==
            if RadixOf(g, root).None? then None else EntriesOf(g, RadixOf(g, root).value)
  {
    if RadixOf(g, root).Some? {
      var es := RadixOf(g, root).value;
      if EntriesOf(g, es).Some? {
        var n := EntriesReached(g, es);
        ListingAgrees(g, root, n + 1);
      } else if HasListing(g, root) {
        var n: nat :| ListWithin(g, root, n).Some?;
        EntriesAgree(g, es, n - 1);
      }
    }
  }

  /** A subdirectory of a directory that unfolds within `n` unfolds within `n - 1`. */
  lemma {:induction false} EntriesChild(g: Graph, es: seq<Entry>, n: nat, e: Entry)
    requires EntriesWithin(g, es, n).Some? && e in es && e.kind == Directory
    ensures ListWithin(g, e.childRoot, n).Some?
  {
    if es[0] != e {
      EntriesChild(g, es[1..], n, e);
    }
  }

  // --------------------------------------------------------------- reachability

  /** Page `b` is referenced by the bytes of page `a`: as a radix child, or as
      the root of a directory entry stored in `a`. */
  ghost predicate Edge(g: Graph, a: PageId, b: PageId) {
    a in g.decoded &&
    ((exists c :: c in Children(g.decoded[a]) && c.childPageId == b) ||
     (exists e :: e in Own(g.decoded[a]) && e.kind == Directory && e.childRoot == b))
  }

  ghost predicate IsWalk(g: Graph, p: seq<PageId>) {
    p != [] && forall i :: 0 <= i < |p| - 1 ==> Edge(g, p[i], p[i + 1])
  }

  /** `id` is reached from `root` along page references. */
  ghost predicate Reachable(g: Graph, root: PageId, id: PageId) {
    exists p :: IsWalk(g, p) && p[0] == root && p[|p| - 1] == id
  }

  lemma ReachesItself(g: Graph, id: PageId)
    ensures Reachable(g, id, id)
  {
    assert IsWalk(g, [id]);
  }

  lemma ReachStep(g: Graph, root: PageId, a: PageId, b: PageId)
    requires Reachable(g, root, a) && Edge(g, a, b)
    ensures Reachable(g, root, b)
  {
    var p :| IsWalk(g, p) && p[0] == root && p[|p| - 1] == a;
    var q := p + [b];
    assert IsWalk(g, q);
  }

  /** The same pages without their directory entries: only radix children count. */
  ghost function RadixOnly(g: Graph): Graph {
    Graph(g.codec, g.bytes, map id | id in g.decoded :: Branch(None, Children(g.decoded[id])))
  }

  lemma RadixEdge(g: Graph, a: PageId, b: PageId)
    requires Edge(RadixOnly(g), a, b)
    ensures Edge(g, a, b)
  {
  }

  /** What radix children reach is reached. */
  lemma RadixReaches(g: Graph, root: PageId, id: PageId)
    requires Reachable(RadixOnly(g), root, id)
    ensures Reachable(g, root, id)
  {
    var p :| IsWalk(RadixOnly(g), p) && p[0] == root && p[|p| - 1] == id;
    forall i | 0 <= i < |p| - 1 ensures Edge(g, p[i], p[i + 1]) {
      RadixEdge(g, p[i], p[i + 1]);
    }
    assert IsWalk(g, p);
  }

  lemma ReachTransitive(g: Graph, a: PageId, b: PageId, c: PageId)
    requires Reachable(g, a, b) && Reachable(g, b, c)
    ensures Reachable(g, a, c)
  {
    var p :| IsWalk(g, p) && p[0] == a && p[|p| - 1] == b;
    var q :| IsWalk(g, q) && q[0] == b && q[|q| - 1] == c;
    var r := p + q[1..];
    forall i | 0 <= i < |r| - 1 ensures Edge(g, r[i], r[i + 1]) {
      if i >= |p| - 1 {
        assert r[i] == q[i - (|p| - 1)] && r[i + 1] == q[i + 1 - (|p| - 1)];
      }
    }
    assert IsWalk(g, r);
  }

  /** A set that holds the start and is closed under references holds every
      reachable page. */
  lemma ClosedHoldsReachable(g: Graph, s: set<PageId>, root: PageId)
    requires root in s
    requires forall a, b :: a in s && Edge(g, a, b) ==> b in s
    ensures forall id :: Reachable(g, root, id) ==> id in s
  {
    forall id | Reachable(g, root, id) ensures id in s {
      var p :| IsWalk(g, p) && p[0] == root && p[|p| - 1] == id;
      WalkStaysInside(g, s, p);
    }
  }

  lemma {:induction false} WalkStaysInside(g: Graph, s: set<PageId>, p: seq<PageId>)
    requires IsWalk(g, p) && p[0] in s
    requires forall a, b :: a in s && Edge(g, a, b) ==> b in s
    ensures p[|p| - 1] in s
  {
    if |p| > 1 {
      var q := p[..|p| - 1];
      WalkStaysInside(g, s, q);
      assert Edge(g, p[|p| - 2], p[|p| - 1]);
    }
  }

  /** Every entry of an unfolded radix page is stored in a page it reaches. */
  lemma {:induction false} RadixOrigin(g: Graph, id: PageId, n: nat, e: Entry) returns (at: PageId)
    requires RadixWithin(g, id, n).Some? && e in RadixWithin(g, id, n).value
    ensures Reachable(g, id, at) && at in g.decoded && e in Own(g.decoded[at])
    decreases n, 0
  {
    var own, cs := Own(g.decoded[id]), Children(g.decoded[id]);
    var all := GatherWithin(g, own, cs, n - 1).value;
    SortPermutes(Name, all);
    MultisetMembers(SortBy(Name, all), all);
    ReachesItself(g, id);
    at := GatherOrigin(g, id, own, cs, n - 1, e);
  }

  lemma {:induction false} GatherOrigin(g: Graph, id: PageId, acc: seq<Entry>, cs: seq<Child>, n: nat, e: Entry)
    returns (at: PageId)
    requires id in g.decoded && GatherWithin(g, acc, cs, n).Some? && e in GatherWithin(g, acc, cs, n).value
    requires forall c :: c in cs ==> c in Children(g.decoded[id])
    requires e in acc ==> exists p :: Reachable(g, id, p) && p in g.decoded && e in Own(g.decoded[p])
    ensures Reachable(g, id, at) && at in g.decoded && e in Own(g.decoded[at])
    decreases n, |cs| + 1
  {
    if e in acc {
      at :| Reachable(g, id, at) && at in g.decoded && e in Own(g.decoded[at]);
    } else {
      var es := RadixWithin(g, cs[0].childPageId, n).value;
      if e in es {
        at := RadixOrigin(g, cs[0].childPageId, n, e);
        assert cs[0] in cs;
        ReachesItself(g, id);
        ReachStep(g, id, id, cs[0].childPageId);
        ReachTransitive(g, id, cs[0].childPageId, at);
      } else {
        at := GatherOrigin(g, id, acc + es, cs[1..], n, e);
      }
    }
  }

  /** A directory entry of an unfolded page leads to a reachable page. */
  lemma EntryReaches(g: Graph, id: PageId, e: Entry)
    requires RadixOf(g, id).Some? && e in RadixOf(g, id).value && e.kind == Directory
    ensures Reachable(g, id, e.childRoot)
  {
    var n: nat :| RadixWithin(g, id, n).Some?;
    RadixAgrees(g, id, n);
    var at := RadixOrigin(g, id, n, e);
    ReachStep(g, id, at, e.childRoot);
  }

  // ---------------------------------------------------- strictly deeper unfoldings

  ghost predicate RadixFits(g: Graph, id: PageId, n: nat) {
    RadixWithin(g, id, n).Some?
  }

  ghost predicate ListFits(g: Graph, root: PageId, n: nat) {
    ListWithin(g, root, n).Some?
  }

  /** Whenever `above` unfolds, `id` unfolds with at least one level less. */
  ghost predicate RadixBelow(g: Graph, above: PageId, id: PageId) {
    forall n: nat :: RadixFits(g, above, n) ==> n > 0 && RadixFits(g, id, n - 1)
  }

  ghost predicate ListBelow(g: Graph, above: PageId, root: PageId) {
    forall n: nat :: ListFits(g, above, n) ==> n > 0 && ListFits(g, root, n - 1)
  }

  lemma {:induction false} RadixNoDescent(g: Graph, id: PageId, n: nat)
    requires RadixBelow(g, id, id)
    ensures !RadixFits(g, id, n)
  {
    if n > 0 {
      RadixNoDescent(g, id, n - 1);
    }
  }

  /** A page that would unfold strictly inside itself has no meaning. */
  lemma RadixCycle(g: Graph, id: PageId)
    requires RadixBelow(g, id, id)
    ensures RadixOf(g, id).None?
  {
    forall n: nat ensures RadixWithin(g, id, n).None? {
      RadixNoDescent(g, id, n);
    }
  }

  lemma {:induction false} ListNoDescent(g: Graph, root: PageId, n: nat)
    requires ListBelow(g, root, root)
    ensures !ListFits(g, root, n)
  {
    if n > 0 {
      ListNoDescent(g, root, n - 1);
    }
  }

  lemma ListCycle(g: Graph, root: PageId)
    requires ListBelow(g, root, root)
    ensures ListingOf(g, root).None?
  {
    forall n: nat ensures ListWithin(g, root, n).None? {
      ListNoDescent(g, root, n);
    }
  }

  /** Descending to a child keeps every page being expanded strictly above. */
  lemma RadixChildBelow(g: Graph, above: PageId, id: PageId, c: Child)
    requires id in g.decoded && c in Children(g.decoded[id])
    requires above == id || RadixBelow(g, above, id)
    ensures RadixBelow(g, above, c.childPageId)
  {
    forall n: nat | RadixFits(g, above, n) ensures n > 0 && RadixFits(g, c.childPageId, n - 1) {
      var m: nat := if above == id then n else n - 1;
      assert RadixFits(g, id, m);
      GatherChild(g, Own(g.decoded[id]), Children(g.decoded[id]), m - 1, c);
      RadixMonotone(g, c.childPageId, m - 1, n - 1);
    }
  }

  lemma ListChildBelow(g: Graph, above: PageId, root: PageId, e: Entry)
    requires RadixOf(g, root).Some? && e in RadixOf(g, root).value && e.kind == Directory
    requires above == root || ListBelow(g, above, root)
    ensures ListBelow(g, above, e.childRoot)
  {
    forall n: nat | ListFits(g, above, n) ensures n > 0 && ListFits(g, e.childRoot, n - 1) {
      var m: nat := if above == root then n else n - 1;
      assert ListFits(g, root, m);
      EntriesChild(g, RadixOf(g, root).value, m - 1, e);
      ListMonotone(g, e.childRoot, m - 1, n - 1);
    }
  }
}
