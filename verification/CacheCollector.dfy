/** Mark and sweep over a managed scope: prove every owner and every name, plan,
    then delete one file after the other. */
module CacheCollector {
  import opened Base
  import opened Ordering
  import opened CacheLayout
  import opened CacheProof
  import opened CachePlan
  import opened ClosureReopen
  import ClosureTheorems
  import CacheLedger

  // ----------------------------------------------------------------- what is charged

  /** The charge of a scope's files: their bytes and one entry each. */
  ghost function Weight(files: Files): nat {
    if files == map[] then 0
    else
      var p :| p in files;
      ENTRY_CHARGE + |files[p]| + Weight(files - {p})
  }

  lemma {:induction false} WeightRemove(files: Files, p: Path)
    requires p in files
    ensures Weight(files) == ENTRY_CHARGE + |files[p]| + Weight(files - {p})
    decreases |files|
  {
    var q :| q in files && Weight(files) == ENTRY_CHARGE + |files[q]| + Weight(files - {q});
    if q != p {
      assert (files - {q}).Keys == files.Keys - {q} && (files - {p}).Keys == files.Keys - {p};
      WeightRemove(files - {q}, p);
      WeightRemove(files - {p}, q);
      assert files - {q} - {p} == files - {p} - {q};
    }
  }

  ghost function ChargeOf(files: Files, dirs: set<Path>): nat {
    Weight(files) + 4096 * |dirs|
  }

  // ----------------------------------------------------------------------- inventory

  /** The files in some order, with the total charge. */
  datatype Inventory = Inventory(paths: seq<Path>, dirs: seq<Path>, bytes: nat, entries: nat)

  ghost predicate Lists(paths: seq<Path>, keys: set<Path>) {
    CachePlan.Distinct(paths) && forall p :: p in keys <==> p in paths
  }

  ghost predicate Accounts(inv: Inventory, files: Files, dirs: set<Path>) {
    Lists(inv.paths, files.Keys) && Lists(inv.dirs, dirs) && inv.bytes == ChargeOf(files, dirs) && inv.entries == |files| + |dirs|
  }

  lemma ListsGrow(paths: seq<Path>, keys: set<Path>, p: Path)
    requires Lists(paths, keys) && p !in keys
    ensures Lists(paths + [p], keys + {p})
  {
    assert p !in paths;
  }

  /** What has been seen and what is still to do make up the files. */
  ghost predicate Walking(files: Files, todo: Files, seen: set<Path>) {
    seen + todo.Keys == files.Keys && seen !! todo.Keys && forall p :: p in todo ==> todo[p] == files[p]
  }

  lemma WalkOne(files: Files, todo: Files, seen: set<Path>, p: Path)
    requires Walking(files, todo, seen) && p in todo
    ensures Walking(files, todo - {p}, seen + {p}) && p !in seen && |todo - {p}| == |todo| - 1
    ensures Weight(todo) == ENTRY_CHARGE + |todo[p]| + Weight(todo - {p})
  {
    WeightRemove(todo, p);
    assert todo.Keys == (todo - {p}).Keys + {p};
  }

  /** Walk the files; refuse what exceeds the policy. */
  method ScanFiles(files: Files, l: CacheLedger.Limits) returns (r: Result<(seq<Path>, nat, nat)>)
    ensures r.Ok? ==> Lists(r.value.0, files.Keys) && r.value.1 == Weight(files) && r.value.2 == |files|
    ensures r.Ok? ==> r.value.1 <= l.maxBytes && r.value.2 <= l.maxEntries
    ensures r.Err? ==> r.code == LimitExceeded && (Weight(files) > l.maxBytes || |files| > l.maxEntries)
  {
    var paths: seq<Path>, bytes: nat, entries: nat := [], 0, 0;
    var todo := files;
    ghost var seen: set<Path> := {};
    while todo != map[]
      invariant Walking(files, todo, seen) && Lists(paths, seen) && bytes + Weight(todo) == Weight(files) && entries + |todo| == |files|
      invariant bytes <= l.maxBytes && entries <= l.maxEntries
      decreases |todo|
    {
      var p :| p in todo;
      WalkOne(files, todo, seen, p);
      if entries + 1 > l.maxEntries || bytes + ENTRY_CHARGE + |todo[p]| > l.maxBytes {
        return Err(LimitExceeded);
      }
      ListsGrow(paths, seen, p);
      paths, bytes, entries := paths + [p], bytes + ENTRY_CHARGE + |todo[p]|, entries + 1;
      seen := seen + {p};
      todo := todo - {p};
    }
    assert seen == files.Keys;
    return Ok((paths, bytes, entries));
  }

  method ScanDirs(dirs: set<Path>, bytes0: nat, entries0: nat, l: CacheLedger.Limits) returns (r: Result<(seq<Path>, nat, nat)>)
    requires bytes0 <= l.maxBytes && entries0 <= l.maxEntries
    ensures r.Ok? ==> Lists(r.value.0, dirs) && r.value.1 == bytes0 + 4096 * |dirs| && r.value.2 == entries0 + |dirs|
    ensures r.Ok? ==> r.value.1 <= l.maxBytes && r.value.2 <= l.maxEntries
    ensures r.Err? ==> r.code == LimitExceeded && (bytes0 + 4096 * |dirs| > l.maxBytes || entries0 + |dirs| > l.maxEntries)
  {
    var bytes, entries, list: seq<Path>, todo := bytes0, entries0, [], dirs;
    ghost var seen: set<Path> := {};
    while todo != {}
      invariant seen + todo == dirs && seen !! todo && Lists(list, seen)
      invariant bytes == bytes0 + 4096 * |seen| && entries == entries0 + |seen|
      invariant bytes <= l.maxBytes && entries <= l.maxEntries
      decreases todo
    {
      var d :| d in todo;
      if entries + 1 > l.maxEntries || bytes + ENTRY_CHARGE > l.maxBytes {
        assert |seen + todo| == |seen| + |todo| && |todo| >= 1;
        return Err(LimitExceeded);
      }
      ListsGrow(list, seen, d);
      list, bytes, entries := list + [d], bytes + ENTRY_CHARGE, entries + 1;
      seen, todo := seen + {d}, todo - {d};
    }
    assert seen == dirs;
    return Ok((list, bytes, entries));
  }

  method Scan(files: Files, dirs: set<Path>, l: CacheLedger.Limits) returns (r: Result<Inventory>)
    ensures r.Ok? ==> Accounts(r.value, files, dirs) && r.value.bytes <= l.maxBytes && r.value.entries <= l.maxEntries
    ensures r.Err? ==> r.code == LimitExceeded && (ChargeOf(files, dirs) > l.maxBytes || |files| + |dirs| > l.maxEntries)
  {
    var scanned := ScanFiles(files, l);
    if scanned.Err? {
      return Err(scanned.code);
    }
    var listed := ScanDirs(dirs, scanned.value.1, scanned.value.2, l);
    if listed.Err? {
      return Err(listed.code);
    }
    return Ok(Inventory(scanned.value.0, listed.value.0, listed.value.1, listed.value.2));
  }

  // ------------------------------------------------------------------- owners' shield

  /** Names of blobs and pages some live closure needs, and the retired roots. */
  datatype Shield = Shield(blobs: set<string>, pages: set<string>, retired: set<Path>)

  function ShieldFrom(standing: Owner -> Option<Standing>, owners: seq<Owner>): Shield {
    if owners == [] then Shield({}, {}, {})
    else
      var front, o := ShieldFrom(standing, owners[..|owners| - 1]), owners[|owners| - 1];
      match standing(o)
      case Some(Protecting(c)) => front.(blobs := front.blobs + BlobNames(c), pages := front.pages + PageNames(c))
      case Some(Retired) => front.(retired := front.retired + {o.root})
      case None => front
  }

  ghost function ShieldOf(env: Env, files: Files, owners: seq<Owner>): Shield {
    ShieldFrom(o => Stands(env, files, o), owners)
  }

  predicate Shields(s: Shield, p: Path) {
    |p| == 2 && ((p[0] == "blobs" && p[1] in s.blobs) || (p[0] == "pages" && p[1] in s.pages))
  }

  /** The shield covers exactly what some owner protects, and lists exactly the
      roots of the retired. */
  lemma {:induction false} ShieldExact(standing: Owner -> Option<Standing>, owners: seq<Owner>, p: Path)
    ensures Shields(ShieldFrom(standing, owners), p) <==> exists o :: o in owners && Protects(standing(o), p)
    ensures p in ShieldFrom(standing, owners).retired <==> exists o :: o in owners && standing(o) == Some(Retired) && o.root == p
  {
    if owners != [] {
      var front, last := owners[..|owners| - 1], owners[|owners| - 1];
      ShieldExact(standing, front, p);
      assert owners == front + [last] && last in owners && forall o :: o in front ==> o in owners;
    }
  }

  /** Read an owner's retained pages, each once and with its size. */
  method LoadRetained(mine: Files, root: Path, deps: seq<PageDependency>) returns (r: Option<map<Digest, Bytes>>)
    ensures r == RetainedPages(mine, root, deps)
  {
    var pages: map<Digest, Bytes> := map[];
    for k := 0 to |deps|
      invariant RetainedPages(mine, root, deps[..k]) == Some(pages)
    {
      assert deps[..k + 1][..k] == deps[..k];
      if !PageStored(mine, root, deps[k]) || deps[k].pageId in pages {
        NoPages(mine, root, deps, k + 1);
        return None;
      }
      pages := pages[deps[k].pageId := mine[PagePath(root, deps[k].pageId)]];
    }
    assert deps[..|deps|] == deps;
    return Some(pages);
  }

  lemma {:induction false} NoPages(mine: Files, root: Path, deps: seq<PageDependency>, k: nat)
    requires k <= |deps| && RetainedPages(mine, root, deps[..k]).None?
    ensures RetainedPages(mine, root, deps).None?
    decreases |deps|
  {
    if k < |deps| {
      assert deps[..|deps| - 1][..k] == deps[..k];
      NoPages(mine, root, deps[..|deps| - 1], k);
    } else {
      assert deps[..k] == deps;
    }
  }

  /** Prove one owner from its own files. An unknown root is busy, not an error. */
  method ProveOwner(env: Env, files: Files, o: Owner) returns (r: Result<Standing>)
    requires ClosureTheorems.DecodesPlainNames(env.validator.pages)
    ensures r.Ok? ==> Stands(env, files, o) == Some(r.value)
    ensures r.Err? && r.code != LimitExceeded ==> Stands(env, files, o).None?
  {
    var mine := Mine(files, o.root);
    if o.root + [".hydrate.lock"] !in mine {
      return Err(IntegrityError);
    }
    var use := UseFor(env, mine, o);
    if use.None? {
      return Err(IntegrityError);
    }
    if use.value.retired {
      return if RetiredOk(mine, o) then Ok(Retired) else Err(IntegrityError);
    }
    if use.value.descriptorDigest.None? {
      return Err(NotReady);
    }
    var descriptor := o.root + [RETENTION_DIR, "descriptor.msd2"];
    if !IsDigest(use.value.descriptorDigest.value) || descriptor !in mine || env.sha(mine[descriptor]) != use.value.descriptorDigest.value {
      return Err(IntegrityError);
    }
    var pages := LoadRetained(mine, o.root, use.value.pages);
    if pages.None? {
      return Err(IntegrityError);
    }
    var nodes: nat, bytes: nat := *, *; // what is left of the collection's budgets
    var c := FromCanonicalPages(env.validator, mine[descriptor], pages.value, nodes, bytes);
    if c.Err? {
      return Err(c.code);
    }
    if !WellNamed(c.value) || !Fits(o, c.value) || !PinOk(env, mine, o, c.value) {
      return Err(IntegrityError);
    }
    return Ok(Protecting(c.value));
  }

  /** Prove every owner and gather what they protect. */
  method ProveOwners(env: Env, files: Files, x: Context) returns (r: Result<Shield>)
    requires ClosureTheorems.DecodesPlainNames(env.validator.pages)
    ensures r.Ok? ==> OwnersKnown(env, files, x) && r.value == ShieldOf(env, files, x.owners)
    ensures r.Err? && r.code != LimitExceeded ==> !OwnersKnown(env, files, x)
  {
    var shield := Shield({}, {}, {});
    for k := 0 to |x.owners|
      invariant (forall o :: o in x.owners[..k] ==> Stands(env, files, o).Some?) && shield == ShieldOf(env, files, x.owners[..k])
    {
      SplitAt(x.owners, k);
      assert x.owners[..k + 1][..k] == x.owners[..k];
      var standing := ProveOwner(env, files, x.owners[k]);
      if standing.Err? {
        assert x.owners[k] in x.owners;
        return Err(standing.code);
      }
      if standing.value.Retired? {
        shield := shield.(retired := shield.retired + {x.owners[k].root});
      } else {
        shield := shield.(blobs := shield.blobs + BlobNames(standing.value.closure), pages := shield.pages + PageNames(standing.value.closure));
      }
    }
    assert x.owners[..|x.owners|] == x.owners;
    return Ok(shield);
  }
}
