/** From a proven scope to deletions: candidate groups, a bounded selection, and
    the unlinks themselves. */
module CacheSweep {
  import opened Base
  import opened Ordering
  import opened CacheLayout
  import opened CacheProof
  import opened CachePlan
  import opened CacheCollector
  import ClosureTheorems
  import CacheLedger

  // ------------------------------------------------------------------ groups of files

  function Flat(groups: seq<seq<Path>>): seq<Path> {
    if groups == [] then [] else Flat(groups[..|groups| - 1]) + groups[|groups| - 1]
  }

  lemma {:induction false} FlatMember(groups: seq<seq<Path>>, g: seq<Path>, p: Path)
    requires g in groups && p in g
    ensures p in Flat(groups)
  {
    if g != groups[|groups| - 1] {
      assert groups == groups[..|groups| - 1] + [groups[|groups| - 1]];
      FlatMember(groups[..|groups| - 1], g, p);
    }
  }

  lemma {:induction false} FlatPrefix(groups: seq<seq<Path>>, k: nat)
    requires k <= |groups|
    ensures Flat(groups[..k]) <= Flat(groups)
    decreases |groups|
  {
    if k < |groups| {
      FlatPrefix(groups[..|groups| - 1], k);
      assert groups[..|groups| - 1][..k] == groups[..k];
    } else {
      assert groups[..k] == groups;
    }
  }

  lemma FlatAppend(groups: seq<seq<Path>>, g: seq<Path>)
    ensures Flat(groups + [g]) == Flat(groups) + g
  {
    assert (groups + [g])[..|groups|] == groups;
  }

  lemma {:induction false} FlatConcat(a: seq<seq<Path>>, b: seq<seq<Path>>)
    ensures Flat(a + b) == Flat(a) + Flat(b)
    decreases |b|
  {
    if b == [] {
      assert a + b == a;
    } else {
      assert (a + b)[..|a + b| - 1] == a + b[..|b| - 1];
      FlatConcat(a, b[..|b| - 1]);
    }
  }

  lemma DistinctConcat(a: seq<Path>, b: seq<Path>)
    requires Distinct(a) && Distinct(b) && forall p :: p in a ==> p !in b
    ensures Distinct(a + b)
  {
    var c := a + b;
    forall i, j | 0 <= i < j < |c| ensures c[i] != c[j] {
      if i < |a| && j >= |a| {
        assert c[i] in a && c[j] in b;
      }
    }
  }

  lemma DistinctParts(a: seq<Path>, b: seq<Path>)
    requires Distinct(a + b)
    ensures Distinct(a) && Distinct(b) && forall p :: p in a ==> p !in b
  {
    var c := a + b;
    forall i, j | 0 <= i < j < |b| ensures b[i] != b[j] {
      assert c[|a| + i] == b[i] && c[|a| + j] == b[j];
    }
    forall i, j | 0 <= i < j < |a| ensures a[i] != a[j] {
      assert c[i] == a[i] && c[j] == a[j];
    }
    forall i, j | 0 <= i < |a| && 0 <= j < |b| ensures a[i] != b[j] {
      assert c[i] == a[i] && c[|a| + j] == b[j];
    }
  }

  /** A group may be deleted in its own order. */
  ghost predicate GoodGroup(env: Env, files: Files, x: Context, g: seq<Path>) {
    AllDisposable(env, files, x, g) && Tidy(env, files, g)
  }

  ghost predicate GoodGroups(env: Env, files: Files, x: Context, groups: seq<seq<Path>>) {
    Distinct(Flat(groups)) && forall g :: g in groups ==> GoodGroup(env, files, x, g)
  }

  lemma TidyConcat(env: Env, files: Files, a: seq<Path>, b: seq<Path>)
    requires Tidy(env, files, a) && Tidy(env, files, b)
    ensures Tidy(env, files, a + b)
  {
    var c := a + b;
    forall i | 0 <= i < |c| ensures TidyAt(env, files, c[..i], c[i]) {
      if i < |a| {
        assert c[..i] == a[..i] && TidyAt(env, files, a[..i], a[i]);
      } else {
        assert c[..i] == a + b[..i - |a|] && TidyAt(env, files, b[..i - |a|], b[i - |a|]);
      }
    }
  }

  // ------------------------------------------------------------------ writers' groups

  /** An intent with its temporary, if that is still there. */
  function GroupFor(env: Env, files: Files, q: Path): seq<Path> {
    var w := WriterAt(env, files, q);
    if w.Some? && TempOf(w.value) in files then [TempOf(w.value), q] else [q]
  }

  lemma GroupGood(env: Env, files: Files, x: Context, q: Path)
    requires q in files && IntentPath(q) && IntentOk(env, files, q, x.maxBytes, x.roots, x.bindings)
    ensures GoodGroup(env, files, x, GroupFor(env, files, q)) && Distinct(GroupFor(env, files, q))
  {
    var g := GroupFor(env, files, q);
    if |g| == 2 {
      TempElsewhere(env, files, x, q);
      assert Declares(env, files, q, g[0]);
    }
    forall i | 0 <= i < |g| ensures TidyAt(env, files, g[..i], g[i]) {
      if i == 1 {
        assert g[0] in g[..1];
      } else if |g| == 2 {
        assert WriterAt(env, files, g[0]).None?;
      }
    }
  }

  /** A declared temporary lies outside the directory of intents. */
  lemma TempElsewhere(env: Env, files: Files, x: Context, q: Path)
    requires q in files && IntentOk(env, files, q, x.maxBytes, x.roots, x.bindings) && WriterAt(env, files, q).Some?
    ensures var t := TempOf(WriterAt(env, files, q).value);
            !(|t| == 2 && t[0] == INTENTS) && t != q
  {
    var w := WriterAt(env, files, q).value;
    var dir := RelativeParts(w.relativeDirectory);
    assert Parent(TargetOf(w)) == dir && FileName(TargetOf(w)) == w.finalName;
    assert |dir| == 1 ==> dir[0] != INTENTS;
  }

  /** Different intents' groups share nothing. */
  lemma GroupsApart(env: Env, files: Files, x: Context, q: Path, q': Path)
    requires q in files && q' in files && q != q' && IntentPath(q) && IntentPath(q')
    requires IntentOk(env, files, q, x.maxBytes, x.roots, x.bindings) && IntentOk(env, files, q', x.maxBytes, x.roots, x.bindings)
    ensures forall p :: p in GroupFor(env, files, q) ==> p !in GroupFor(env, files, q')
  {
    var w, w' := WriterAt(env, files, q), WriterAt(env, files, q');
    if w.Some? {
      TempElsewhere(env, files, x, q);
    }
    if w'.Some? {
      TempElsewhere(env, files, x, q');
    }
    if w.Some? && w'.Some? && TempOf(w.value) == TempOf(w'.value) {
      SameTemp(env, files, x, q, q');
    }
  }

  lemma IntentName(env: Env, files: Files, x: Context, q: Path)
    requires IntentOk(env, files, q, x.maxBytes, x.roots, x.bindings) && WriterAt(env, files, q).Some?
    ensures var w := WriterAt(env, files, q).value;
            q == [INTENTS, w.operationId + ".json"] && CanonicalUuid(w.operationId) &&
            w.temporaryName == TemporaryName(w.finalName, w.operationId)
  {
    StripJoin(q[1], ".json");
    assert q == [q[0], q[1]];
  }

  lemma SameTemp(env: Env, files: Files, x: Context, q: Path, q': Path)
    requires IntentOk(env, files, q, x.maxBytes, x.roots, x.bindings) && IntentOk(env, files, q', x.maxBytes, x.roots, x.bindings)
    requires WriterAt(env, files, q).Some? && WriterAt(env, files, q').Some?
    requires TempOf(WriterAt(env, files, q).value) == TempOf(WriterAt(env, files, q').value)
    ensures q == q'
  {
    IntentName(env, files, x, q);
    IntentName(env, files, x, q');
    SameWriter(WriterAt(env, files, q).value, WriterAt(env, files, q').value);
  }

  lemma SameWriter(w: WriterIntent, w': WriterIntent)
    requires CanonicalUuid(w.operationId) && w.temporaryName == TemporaryName(w.finalName, w.operationId)
    requires CanonicalUuid(w'.operationId) && w'.temporaryName == TemporaryName(w'.finalName, w'.operationId)
    requires TempOf(w) == TempOf(w')
    ensures w.operationId == w'.operationId
  {
    assert FileName(TempOf(w)) == w.temporaryName && FileName(TempOf(w')) == w'.temporaryName;
    TemporariesDiffer(w.finalName, w.operationId, w'.finalName, w'.operationId);
  }

  // ---------------------------------------------------------------- checking the names

  /** Disposable temporaries of control records, bounded in size. */
  method ControlTemps(files: Files, paths: seq<Path>) returns (r: Result<seq<Path>>)
    requires Lists(paths, files.Keys)
    ensures r.Ok? ==> Distinct(r.value) && forall p :: p in r.value <==> p in files && RawControlTemporary(p)
    ensures r.Ok? ==> forall p :: p in r.value ==> |files[p]| <= CONTROL_BYTES
    ensures r.Err? ==> exists p :: p in files && RawControlTemporary(p) && |files[p]| > CONTROL_BYTES
  {
    var temps: seq<Path> := [];
    for k := 0 to |paths|
      invariant Distinct(temps) && forall p :: p in temps <==> p in paths[..k] && RawControlTemporary(p)
      invariant forall p :: p in temps ==> p in files && |files[p]| <= CONTROL_BYTES
    {
      SplitAt(paths, k);
      var p := paths[k];
      assert p in files && p !in paths[..k];
      if RawControlTemporary(p) {
        if |files[p]| > CONTROL_BYTES {
          return Err(LimitExceeded);
        }
        DistinctConcat(temps, [p]);
        temps := temps + [p];
      }
    }
    assert paths[..|paths|] == paths;
    return Ok(temps);
  }

  /** The path belongs to the group of an intent among `paths`. */
  ghost predicate Grouped(env: Env, files: Files, paths: seq<Path>, p: Path) {
    exists q :: q in paths && IntentPath(q) && p in GroupFor(env, files, q)
  }

  /** The path is a temporary that an intent among `paths` declares. */
  ghost predicate DeclaredBy(env: Env, files: Files, paths: seq<Path>, p: Path) {
    exists q :: q in paths && Declares(env, files, q, p)
  }

  lemma GroupedGrow(env: Env, files: Files, paths: seq<Path>, q: Path, p: Path)
    ensures Grouped(env, files, paths + [q], p) <==> Grouped(env, files, paths, p) || (IntentPath(q) && p in GroupFor(env, files, q))
    ensures DeclaredBy(env, files, paths + [q], p) <==> DeclaredBy(env, files, paths, p) || Declares(env, files, q, p)
  {
    assert q in paths + [q] && forall q' :: q' in paths ==> q' in paths + [q];
  }

  /** What the intents among `paths` declare. */
  ghost predicate Gathered(env: Env, files: Files, x: Context, paths: seq<Path>, groups: seq<seq<Path>>, orphans: set<Path>) {
    GoodGroups(env, files, x, groups) &&
    (forall q :: q in paths && IntentPath(q) ==> IntentOk(env, files, q, x.maxBytes, x.roots, x.bindings)) &&
    (forall p :: p in Flat(groups) <==> Grouped(env, files, paths, p)) &&
    (forall p :: p in orphans <==> p in files && DeclaredBy(env, files, paths, p))
  }

  function OrphanOf(env: Env, files: Files, q: Path): set<Path> {
    var w := WriterAt(env, files, q);
    if w.Some? && TempOf(w.value) in files then {TempOf(w.value)} else {}
  }

  lemma GroupsGrow(env: Env, files: Files, x: Context, paths: seq<Path>, groups: seq<seq<Path>>, orphans: set<Path>, q: Path)
    requires Gathered(env, files, x, paths, groups, orphans) && q !in paths && q in files && (forall p :: p in paths ==> p in files)
    requires IntentPath(q) && IntentOk(env, files, q, x.maxBytes, x.roots, x.bindings)
    ensures GoodGroups(env, files, x, groups + [GroupFor(env, files, q)])
  {
    var g := GroupFor(env, files, q);
    GroupGood(env, files, x, q);
    FlatAppend(groups, g);
    forall p | p in Flat(groups) ensures p !in g {
      assert Grouped(env, files, paths, p);
      var q' :| q' in paths && IntentPath(q') && p in GroupFor(env, files, q');
      GroupsApart(env, files, x, q', q);
    }
    DistinctConcat(Flat(groups), g);
  }

  lemma GatherStep(env: Env, files: Files, x: Context, paths: seq<Path>, groups: seq<seq<Path>>, orphans: set<Path>, q: Path)
    requires Gathered(env, files, x, paths, groups, orphans) && q !in paths && q in files && (forall p :: p in paths ==> p in files)
    requires IntentPath(q) && IntentOk(env, files, q, x.maxBytes, x.roots, x.bindings)
    ensures Gathered(env, files, x, paths + [q], groups + [GroupFor(env, files, q)], orphans + OrphanOf(env, files, q))
  {
    GroupsGrow(env, files, x, paths, groups, orphans, q);
    FlatAppend(groups, GroupFor(env, files, q));
    forall p {
      GroupedGrow(env, files, paths, q, p);
    }
  }

  lemma GatherSkip(env: Env, files: Files, x: Context, paths: seq<Path>, groups: seq<seq<Path>>, orphans: set<Path>, q: Path)
    requires Gathered(env, files, x, paths, groups, orphans) && !IntentPath(q)
    ensures Gathered(env, files, x, paths + [q], groups, orphans)
  {
    forall p {
      GroupedGrow(env, files, paths, q, p);
    }
  }

  lemma GatherNext(env: Env, files: Files, x: Context, paths: seq<Path>, k: nat, groups: seq<seq<Path>>, orphans: set<Path>)
    requires Lists(paths, files.Keys) && k < |paths| && Gathered(env, files, x, paths[..k], groups, orphans)
    ensures var q := paths[k];
            if !IntentPath(q) then Gathered(env, files, x, paths[..k + 1], groups, orphans)
            else if !IntentOk(env, files, q, x.maxBytes, x.roots, x.bindings) then !FilesKnown(env, files, x)
            else Gathered(env, files, x, paths[..k + 1], groups + [GroupFor(env, files, q)], orphans + OrphanOf(env, files, q))
  {
    var q := paths[k];
    SplitAt(paths, k);
    assert q in files && q !in paths[..k];
    if !IntentPath(q) {
      GatherSkip(env, files, x, paths[..k], groups, orphans, q);
    } else if IntentOk(env, files, q, x.maxBytes, x.roots, x.bindings) {
      GatherStep(env, files, x, paths[..k], groups, orphans, q);
    } else {
      assert !FileKnown(env, files, x, q);
    }
  }

  /** Check every declaration and group it with its temporary. */
  method GatherIntents(env: Env, files: Files, x: Context, paths: seq<Path>) returns (r: Result<(seq<seq<Path>>, set<Path>)>)
    requires Lists(paths, files.Keys)
    ensures r.Ok? ==> Gathered(env, files, x, paths, r.value.0, r.value.1)
    ensures r.Err? ==> !FilesKnown(env, files, x)
  {
    var groups: seq<seq<Path>>, orphans: set<Path> := [], {};
    for k := 0 to |paths|
      invariant Gathered(env, files, x, paths[..k], groups, orphans)
    {
      GatherNext(env, files, x, paths, k, groups, orphans);
      var q := paths[k];
      if IntentPath(q) {
        if !IntentOk(env, files, q, x.maxBytes, x.roots, x.bindings) {
          return Err(IntegrityError);
        }
        groups, orphans := groups + [GroupFor(env, files, q)], orphans + OrphanOf(env, files, q);
      }
    }
    assert paths[..|paths|] == paths;
    return Ok((groups, orphans));
  }

  // ------------------------------------------------------------------ stale and retired

  predicate Unshielded(s: Shield, p: Path) {
    |p| == 2 && (p[0] == "blobs" || p[0] == "pages") && CanonicalHex(p[1]) && !Shields(s, p)
  }

  predicate UnderRetired(s: Shield, p: Path) {
    |p| > 3 && p[..3] in s.retired && Discarded(p[..3], p)
  }

  /** The collector's tests mean what they should. */
  lemma TestsExact(env: Env, files: Files, x: Context, p: Path)
    requires Discovered(x)
    ensures Unshielded(ShieldOf(env, files, x.owners), p) <==> Stale(env, files, x, p)
    ensures UnderRetired(ShieldOf(env, files, x.owners), p) <==> RetiredMetadata(env, files, x, p)
  {
    var standing := (o: Owner) => Stands(env, files, o);
    ShieldExact(standing, x.owners, p);
    if |p| > 3 {
      ShieldExact(standing, x.owners, p[..3]);
    }
    if RetiredMetadata(env, files, x, p) {
      var o :| o in x.owners && Stands(env, files, o) == Some(Retired) && Discarded(o.root, p);
      assert o.root == p[..3];
    }
  }

  /** Neither a control temporary, nor declared, nor an intent. */
  predicate Ordinary(orphans: set<Path>, p: Path) {
    !RawControlTemporary(p) && p !in orphans && !(|p| == 2 && p[0] == INTENTS)
  }

  predicate Sweepable(s: Shield, p: Path) {
    Unshielded(s, p) || UnderRetired(s, p)
  }

  /** Every remaining name must be a known final file; those nobody needs are
      collected. */
  method StaleFiles(files: Files, x: Context, paths: seq<Path>, orphans: set<Path>, shield: Shield) returns (r: Result<seq<Path>>)
    requires Lists(paths, files.Keys)
    ensures r.Ok? <==> forall p :: p in files && Ordinary(orphans, p) ==> ValidFinalFile(p, x.roots)
    ensures r.Ok? ==> Distinct(r.value) && forall p :: p in r.value <==> p in files && Ordinary(orphans, p) && Sweepable(shield, p)
  {
    var stale: seq<Path> := [];
    for k := 0 to |paths|
      invariant forall p :: p in paths[..k] && Ordinary(orphans, p) ==> ValidFinalFile(p, x.roots)
      invariant Distinct(stale) && forall p :: p in stale <==> p in paths[..k] && Ordinary(orphans, p) && Sweepable(shield, p)
    {
      SplitAt(paths, k);
      var p := paths[k];
      assert p in files && p !in paths[..k];
      if Ordinary(orphans, p) {
        if !ValidFinalFile(p, x.roots) {
          return Err(IntegrityError);
        }
        if Sweepable(shield, p) {
          DistinctConcat(stale, [p]);
          stale := stale + [p];
        }
      }
    }
    assert paths[..|paths|] == paths;
    return Ok(stale);
  }

  function Singles(ps: seq<Path>): (groups: seq<seq<Path>>)
    ensures |groups| == |ps|
  {
    seq(|ps|, i requires 0 <= i < |ps| => [ps[i]])
  }

  lemma {:induction false} FlatSingles(ps: seq<Path>)
    ensures Flat(Singles(ps)) == ps
  {
    if ps != [] {
      FlatSingles(ps[..|ps| - 1]);
      assert Singles(ps)[..|ps| - 1] == Singles(ps[..|ps| - 1]);
      assert ps == ps[..|ps| - 1] + [ps[|ps| - 1]];
    }
  }

  lemma SinglesGood(env: Env, files: Files, x: Context, ps: seq<Path>)
    requires Distinct(ps) && AllDisposable(env, files, x, ps) && forall p :: p in ps ==> !IntentPath(p)
    ensures GoodGroups(env, files, x, Singles(ps))
  {
    FlatSingles(ps);
    forall g | g in Singles(ps) ensures GoodGroup(env, files, x, g) {
      var i :| 0 <= i < |ps| && Singles(ps)[i] == g;
      assert ps[i] in ps && g == [ps[i]];
      assert TidyAt(env, files, g[..0], g[0]);
    }
  }

  lemma GoodConcat(env: Env, files: Files, x: Context, a: seq<seq<Path>>, b: seq<seq<Path>>)
    requires GoodGroups(env, files, x, a) && GoodGroups(env, files, x, b) && forall p :: p in Flat(a) ==> p !in Flat(b)
    ensures GoodGroups(env, files, x, a + b)
  {
    FlatConcat(a, b);
    DistinctConcat(Flat(a), Flat(b));
  }

  lemma GroupedElements(env: Env, files: Files, x: Context, paths: seq<Path>, groups: seq<seq<Path>>, orphans: set<Path>, p: Path)
    requires Gathered(env, files, x, paths, groups, orphans) && p in Flat(groups) && forall q :: q in paths ==> q in files
    ensures p in orphans || IntentPath(p)
  {
    assert Grouped(env, files, paths, p);
    var q :| q in paths && IntentPath(q) && p in GroupFor(env, files, q);
    if p != q {
      assert Declares(env, files, q, p);
      assert DeclaredBy(env, files, paths, p);
    }
  }

  ghost predicate HasControlTemps(files: Files) {
    exists p :: p in files && RawControlTemporary(p)
  }

  /** What this collection should delete, if it may delete that much: control
      temporaries first, and only when there are none, all that is disposable. */
  ghost predicate DueNow(env: Env, files: Files, x: Context, p: Path) {
    p in files && if HasControlTemps(files) then RawControlTemporary(p) else Disposable(env, files, x, p)
  }

  ghost predicate Covers(env: Env, files: Files, x: Context, groups: seq<seq<Path>>) {
    forall p :: p in Flat(groups) <==> DueNow(env, files, x, p)
  }

  /** The candidates of a proven scope: control temporaries alone while there are
      any, else what is stale or retired and the writers' groups. */
  method Candidates(env: Env, files: Files, x: Context, inv: Inventory, shield: Shield) returns (r: Result<seq<seq<Path>>>)
    requires Discovered(x) && OwnersKnown(env, files, x) && shield == ShieldOf(env, files, x.owners) && Lists(inv.paths, files.Keys)
    ensures r.Ok? <==> FilesKnown(env, files, x)
    ensures r.Ok? ==> GoodGroups(env, files, x, r.value) && Covers(env, files, x, r.value)
  {
    var controls := ControlTemps(files, inv.paths);
    if controls.Err? {
      return Err(controls.code);
    }
    var gathered := GatherIntents(env, files, x, inv.paths);
    if gathered.Err? {
      return Err(gathered.code);
    }
    var groups, orphans := gathered.value.0, gathered.value.1;
    var stale := StaleFiles(files, x, inv.paths, orphans, shield);
    KnownExactly(env, files, x, inv.paths, groups, orphans);
    if stale.Err? {
      return Err(stale.code);
    }
    if controls.value != [] {
      SinglesGood(env, files, x, controls.value);
      ControlsCover(env, files, x, controls.value);
      return Ok(Singles(controls.value));
    }
    StaleGood(env, files, x, inv.paths, groups, orphans, shield, stale.value);
    StaleCover(env, files, x, inv.paths, groups, orphans, shield, stale.value);
    return Ok(Singles(stale.value) + groups);
  }

  lemma ControlsCover(env: Env, files: Files, x: Context, controls: seq<Path>)
    requires controls != [] && forall p :: p in controls <==> p in files && RawControlTemporary(p)
    ensures Covers(env, files, x, Singles(controls))
  {
    FlatSingles(controls);
    assert controls[0] in controls && HasControlTemps(files);
  }

  lemma OrphansDeclared(env: Env, files: Files, x: Context, paths: seq<Path>, groups: seq<seq<Path>>, orphans: set<Path>, p: Path)
    requires Lists(paths, files.Keys) && Gathered(env, files, x, paths, groups, orphans) && p in files
    ensures p in orphans <==> Declared(env, files, p)
  {
    assert DeclaredBy(env, files, paths, p) <==> Declared(env, files, p);
  }

  /** Intents and declared temporaries are all grouped. */
  lemma GroupsCover(env: Env, files: Files, x: Context, paths: seq<Path>, groups: seq<seq<Path>>, orphans: set<Path>, p: Path)
    requires Lists(paths, files.Keys) && Gathered(env, files, x, paths, groups, orphans) && p in files && (IntentPath(p) || p in orphans)
    ensures p in Flat(groups)
  {
    if IntentPath(p) {
      assert p in paths && p in GroupFor(env, files, p);
      assert Grouped(env, files, paths, p);
    } else {
      assert DeclaredBy(env, files, paths, p);
      var q :| q in paths && Declares(env, files, q, p);
      assert p in GroupFor(env, files, q);
      assert Grouped(env, files, paths, p);
    }
  }

  lemma StaleCover(env: Env, files: Files, x: Context, paths: seq<Path>, groups: seq<seq<Path>>, orphans: set<Path>, shield: Shield, stale: seq<Path>)
    requires Discovered(x) && shield == ShieldOf(env, files, x.owners) && Lists(paths, files.Keys)
    requires Gathered(env, files, x, paths, groups, orphans) && !HasControlTemps(files)
    requires forall p :: p in stale <==> p in files && Ordinary(orphans, p) && Sweepable(shield, p)
    ensures Covers(env, files, x, Singles(stale) + groups)
  {
    FlatConcat(Singles(stale), groups);
    FlatSingles(stale);
    forall p ensures p in stale || p in Flat(groups) <==> DueNow(env, files, x, p) {
      StaleCovers(env, files, x, paths, groups, orphans, shield, stale, p);
    }
  }

  lemma StaleCovers(env: Env, files: Files, x: Context, paths: seq<Path>, groups: seq<seq<Path>>, orphans: set<Path>, shield: Shield, stale: seq<Path>, p: Path)
    requires Discovered(x) && shield == ShieldOf(env, files, x.owners) && Lists(paths, files.Keys)
    requires Gathered(env, files, x, paths, groups, orphans) && !HasControlTemps(files)
    requires p in stale <==> p in files && Ordinary(orphans, p) && Sweepable(shield, p)
    ensures p in stale || p in Flat(groups) <==> DueNow(env, files, x, p)
  {
    TestsExact(env, files, x, p);
    if p in files {
      OrphansDeclared(env, files, x, paths, groups, orphans, p);
      if IntentPath(p) || p in orphans {
        GroupsCover(env, files, x, paths, groups, orphans, p);
      } else if p in Flat(groups) {
        GroupedElements(env, files, x, paths, groups, orphans, p);
      }
    } else if p in Flat(groups) {
      GroupedInFiles(env, files, x, groups, p);
    }
  }

  lemma {:induction false} GroupedInFiles(env: Env, files: Files, x: Context, groups: seq<seq<Path>>, p: Path)
    requires (forall g :: g in groups ==> GoodGroup(env, files, x, g)) && p in Flat(groups)
    ensures p in files
  {
    var n := |groups| - 1;
    assert groups[n] in groups;
    if p !in groups[n] {
      GroupedInFiles(env, files, x, groups[..n], p);
    }
  }

  lemma KnownExactly(env: Env, files: Files, x: Context, paths: seq<Path>, groups: seq<seq<Path>>, orphans: set<Path>)
    requires Lists(paths, files.Keys) && Gathered(env, files, x, paths, groups, orphans)
    requires forall p :: p in files && RawControlTemporary(p) ==> |files[p]| <= CONTROL_BYTES
    ensures FilesKnown(env, files, x) <==> forall p :: p in files && Ordinary(orphans, p) ==> ValidFinalFile(p, x.roots)
  {
    forall p | p in files ensures Declared(env, files, p) <==> p in orphans {
      assert DeclaredBy(env, files, paths, p) <==> Declared(env, files, p);
    }
    forall p | p in files ensures FileKnown(env, files, x, p) <==> (Ordinary(orphans, p) ==> ValidFinalFile(p, x.roots)) { }
  }

  lemma StaleGood(env: Env, files: Files, x: Context, paths: seq<Path>, groups: seq<seq<Path>>, orphans: set<Path>, shield: Shield, stale: seq<Path>)
    requires Discovered(x) && shield == ShieldOf(env, files, x.owners) && Lists(paths, files.Keys)
    requires Gathered(env, files, x, paths, groups, orphans)
    requires Distinct(stale) && forall p :: p in stale ==> p in files && Ordinary(orphans, p) && Sweepable(shield, p)
    ensures GoodGroups(env, files, x, Singles(stale) + groups)
  {
    forall p | p in stale ensures Disposable(env, files, x, p) {
      TestsExact(env, files, x, p);
    }
    SinglesGood(env, files, x, stale);
    FlatSingles(stale);
    forall p | p in Flat(groups) ensures p !in stale {
      GroupedElements(env, files, x, paths, groups, orphans, p);
    }
    GoodConcat(env, files, x, Singles(stale), groups);
  }

  // ------------------------------------------------------------------------ selection

  /** The bytes of the files of a plan. */
  function PlanBytes(files: Files, plan: seq<Path>): nat
    requires forall p :: p in plan ==> p in files
  {
    if plan == [] then 0 else PlanBytes(files, plan[..|plan| - 1]) + |files[plan[|plan| - 1]]|
  }

  lemma {:induction false} PlanBytesConcat(files: Files, a: seq<Path>, b: seq<Path>)
    requires forall p :: p in a + b ==> p in files
    ensures (forall p :: p in a ==> p in a + b) && (forall p :: p in b ==> p in a + b)
    ensures PlanBytes(files, a + b) == PlanBytes(files, a) + PlanBytes(files, b)
    decreases |b|
  {
    if b == [] {
      assert a + b == a;
    } else {
      assert (a + b)[..|a + b| - 1] == a + b[..|b| - 1];
      PlanBytesConcat(files, a, b[..|b| - 1]);
    }
  }

  /** The plan stays within what one collection may delete. */
  predicate Bounded(files: Files, plan: seq<Path>, l: CacheLedger.Limits) {
    (forall p :: p in plan ==> p in files) && |plan| <= l.maxDeleteEntries && PlanBytes(files, plan) <= l.maxDeleteBytes
  }

  /** Whole groups, in order, each taken if it still fits. */
  function Choice(files: Files, groups: seq<seq<Path>>, l: CacheLedger.Limits): seq<Path>
    requires forall p :: p in Flat(groups) ==> p in files
    ensures forall p :: p in Choice(files, groups, l) ==> p in Flat(groups)
  {
    if groups == [] then []
    else
      var front, g := groups[..|groups| - 1], groups[|groups| - 1];
      var before := Choice(files, front, l);
      if |before| + |g| <= l.maxDeleteEntries && PlanBytes(files, before) + PlanBytes(files, g) <= l.maxDeleteBytes then before + g else before
  }

  /** Within the limits nothing is skipped. */
  lemma {:induction false} ChoiceComplete(files: Files, groups: seq<seq<Path>>, l: CacheLedger.Limits)
    requires (forall p :: p in Flat(groups) ==> p in files) && |Flat(groups)| <= l.maxDeleteEntries
    requires PlanBytes(files, Flat(groups)) <= l.maxDeleteBytes
    ensures Choice(files, groups, l) == Flat(groups)
  {
    if groups != [] {
      var front, g := groups[..|groups| - 1], groups[|groups| - 1];
      PlanBytesConcat(files, Flat(front), g);
      ChoiceComplete(files, front, l);
    }
  }

  lemma SelectStep(env: Env, files: Files, x: Context, groups: seq<seq<Path>>, k: nat, plan: seq<Path>)
    requires GoodGroups(env, files, x, groups) && k < |groups| && PlanOk(env, files, x, plan)
    requires forall p :: p in plan ==> p in Flat(groups[..k])
    ensures PlanOk(env, files, x, plan + groups[k]) && Flat(groups[..k + 1]) == Flat(groups[..k]) + groups[k]
  {
    var g := groups[k];
    assert g in groups && GoodGroup(env, files, x, g);
    SplitAt(groups, k);
    FlatAppend(groups[..k], g);
    FlatPrefix(groups, k + 1);
    PrefixDistinct(Flat(groups), Flat(groups[..k + 1]));
    DistinctParts(Flat(groups[..k]), g);
    DistinctConcat(plan, g);
    TidyConcat(env, files, plan, g);
  }

  lemma PrefixDistinct(all: seq<Path>, part: seq<Path>)
    requires Distinct(all) && part <= all
    ensures Distinct(part)
  {
  }

  ghost predicate GroupsIn(files: Files, groups: seq<seq<Path>>) {
    forall p :: p in Flat(groups) ==> p in files
  }

  /** The plan chosen from the first `k` groups. */
  ghost predicate Selected(env: Env, files: Files, x: Context, groups: seq<seq<Path>>, l: CacheLedger.Limits, k: nat, plan: seq<Path>) {
    k <= |groups| && GroupsIn(files, groups[..k]) && plan == Choice(files, groups[..k], l) && PlanOk(env, files, x, plan) && Bounded(files, plan, l)
  }

  predicate Fit(files: Files, plan: seq<Path>, g: seq<Path>, l: CacheLedger.Limits)
    requires (forall p :: p in plan ==> p in files) && (forall p :: p in g ==> p in files)
  {
    |plan| + |g| <= l.maxDeleteEntries && PlanBytes(files, plan) + PlanBytes(files, g) <= l.maxDeleteBytes
  }

  lemma NextGroup(files: Files, groups: seq<seq<Path>>, k: nat)
    requires GroupsIn(files, groups) && k < |groups|
    ensures GroupsIn(files, groups[..k + 1]) && (forall p :: p in groups[k] ==> p in files)
  {
    FlatPrefix(groups, k + 1);
    forall p | p in groups[k] ensures p in files {
      FlatMember(groups, groups[k], p);
    }
  }

  lemma SelectNext(env: Env, files: Files, x: Context, groups: seq<seq<Path>>, l: CacheLedger.Limits, k: nat, plan: seq<Path>)
    requires GoodGroups(env, files, x, groups) && GroupsIn(files, groups) && k < |groups| && Selected(env, files, x, groups, l, k, plan)
    ensures forall p :: p in groups[k] ==> p in files
    ensures Selected(env, files, x, groups, l, k + 1, if Fit(files, plan, groups[k], l) then plan + groups[k] else plan)
    ensures Fit(files, plan, groups[k], l) ==> PlanBytes(files, plan + groups[k]) == PlanBytes(files, plan) + PlanBytes(files, groups[k])
  {
    var g := groups[k];
    NextGroup(files, groups, k);
    SelectStep(env, files, x, groups, k, plan);
    PlanBytesConcat(files, plan, g);
    assert groups[..k + 1][..k] == groups[..k];
  }

  /** Take whole groups, in order, as long as they fit the deletion limits. */
  method Select(env: Env, files: Files, x: Context, groups: seq<seq<Path>>, l: CacheLedger.Limits) returns (plan: seq<Path>)
    requires GoodGroups(env, files, x, groups) && GroupsIn(files, groups)
    ensures PlanOk(env, files, x, plan) && Bounded(files, plan, l) && plan == Choice(files, groups, l)
  {
    plan := [];
    var bytes := 0;
    for k := 0 to |groups|
      invariant Selected(env, files, x, groups, l, k, plan) && bytes == PlanBytes(files, plan)
    {
      SelectNext(env, files, x, groups, l, k, plan);
      var g := groups[k];
      if |plan| + |g| <= l.maxDeleteEntries && bytes + PlanBytes(files, g) <= l.maxDeleteBytes {
        bytes := bytes + PlanBytes(files, g);
        plan := plan + g;
      }
    }
    assert groups[..|groups|] == groups;
  }

  // ------------------------------------------------------------------------- the scope

  datatype Report = Report(scanned: nat, deletedEntries: nat, deletedBytes: nat, retained: nat)

  lemma GoneGrows(plan: seq<Path>, k: nat)
    requires k < |plan| && Distinct(plan)
    ensures Gone(plan[..k + 1]) == Gone(plan[..k]) + {plan[k]} && plan[k] !in Gone(plan[..k])
  {
    assert plan[..k + 1] == plan[..k] + [plan[k]];
  }

  /** The files after the first `k` deletions of a plan. */
  ghost function After(files: Files, plan: seq<Path>, k: nat): Files
    requires k <= |plan|
  {
    files - Gone(plan[..k])
  }

  ghost predicate AllIn(files: Files, plan: seq<Path>) {
    forall p :: p in plan ==> p in files
  }

  lemma AfterStep(files: Files, plan: seq<Path>, k: nat)
    requires Distinct(plan) && AllIn(files, plan) && k < |plan|
    ensures var before, p := After(files, plan, k), plan[k];
            p in before && before[p] == files[p] && After(files, plan, k + 1) == before - {p}
  {
    GoneGrows(plan, k);
    assert plan[k] in plan;
  }

  lemma ChargeStep(files: Files, dirs: set<Path>, p: Path)
    requires p in files
    ensures ChargeOf(files, dirs) == ChargeOf(files - {p}, dirs) + 4096 + |files[p]| && |files - {p}| == |files| - 1
  {
    WeightRemove(files, p);
    assert files.Keys == (files - {p}).Keys + {p};
  }

  lemma BytesStep(files: Files, plan: seq<Path>, k: nat)
    requires AllIn(files, plan) && k < |plan|
    ensures AllIn(files, plan[..k]) && AllIn(files, plan[..k + 1])
    ensures PlanBytes(files, plan[..k + 1]) == PlanBytes(files, plan[..k]) + |files[plan[k]]|
  {
    assert plan[..k + 1][..k] == plan[..k];
  }

  /** What a sweep has reported after `k` deletions. */
  ghost predicate Counted(start: Files, now: Files, dirs: set<Path>, plan: seq<Path>, k: nat, report: Report) {
    k <= |plan| && now == After(start, plan, k) && AllIn(start, plan[..k]) && |now| == |start| - k &&
    report.deletedEntries == k && report.deletedBytes == PlanBytes(start, plan[..k]) && report.retained == ChargeOf(now, dirs)
  }

  function OneLess(report: Report, size: nat): Report
    requires report.retained >= size + 4096
  {
    report.(deletedEntries := report.deletedEntries + 1, deletedBytes := report.deletedBytes + size, retained := report.retained - (size + 4096))
  }

  /** One more deletion: the reported charge covers it, and stays exact. */
  lemma CountedStep(start: Files, now: Files, dirs: set<Path>, plan: seq<Path>, k: nat, report: Report)
    requires Distinct(plan) && AllIn(start, plan) && k < |plan| && Counted(start, now, dirs, plan, k, report)
    ensures plan[k] in now && report.retained >= |now[plan[k]]| + 4096 && now - {plan[k]} == After(start, plan, k + 1)
    ensures Counted(start, now - {plan[k]}, dirs, plan, k + 1, OneLess(report, |now[plan[k]]|))
  {
    AfterStep(start, plan, k);
    ChargeStep(now, dirs, plan[k]);
    BytesStep(start, plan, k);
  }

  /** What one collection did: the first `done` deletions of a bounded plan made
      for a proven scope. After them the scope is one a collection accepts, and
      every owner stands as before. */
  ghost predicate Swept(env: Env, start: Files, now: Files, dirs: set<Path>, x: Context, l: CacheLedger.Limits, plan: seq<Path>, done: nat) {
    done <= |plan| && now == After(start, plan, done) &&
    (plan != [] ==> Collectable(env, start, dirs, x) && PlanOk(env, start, x, plan) && Bounded(start, plan, l)) &&
    (done > 0 ==> Collectable(env, now, dirs, x) && forall o :: o in x.owners ==> Stands(env, now, o) == Stands(env, start, o))
  }

  /** The plan is the bounded choice among all that was due. */
  ghost predicate Thorough(env: Env, files: Files, x: Context, l: CacheLedger.Limits, plan: seq<Path>) {
    exists groups :: Chosen(env, files, x, l, plan, groups)
  }

  ghost predicate Chosen(env: Env, files: Files, x: Context, l: CacheLedger.Limits, plan: seq<Path>, groups: seq<seq<Path>>) {
    Covers(env, files, x, groups) && GoodGroups(env, files, x, groups) && plan == Choice(files, groups, l)
  }

  /** A finished collection: a proven scope, a thorough plan, and a report and
      ledger that state exactly what is left. */
  ghost predicate Finished(env: Env, start: Files, now: Files, dirs: set<Path>, x: Context, l: CacheLedger.Limits, plan: seq<Path>,
                           report: Report, ledger: CacheLedger.Charges)
  {
    Collectable(env, start, dirs, x) && Thorough(env, start, x, l, plan) &&
    report.retained == ChargeOf(now, dirs) && report.deletedEntries == |plan| &&
    ledger == CacheLedger.Charges(ChargeOf(now, dirs) + CONTROL_BYTES + 8 * ENTRY_CHARGE, |now| + |dirs| + 8)
  }

  /** A collection whose limits allow it leaves nothing behind that was due. */
  lemma ThoroughComplete(env: Env, files: Files, x: Context, l: CacheLedger.Limits, plan: seq<Path>, due: seq<Path>)
    requires Thorough(env, files, x, l, plan) && Distinct(due) && (forall p :: p in due <==> DueNow(env, files, x, p))
    requires |due| <= l.maxDeleteEntries && Weight(files) <= l.maxDeleteBytes
    ensures forall p :: DueNow(env, files, x, p) ==> p in plan
  {
    var groups :| Chosen(env, files, x, l, plan, groups);
    var all := Flat(groups);
    SameLength(all, due);
    PlanWeighs(files, all);
    ChoiceComplete(files, groups, l);
  }

  lemma SameLength(a: seq<Path>, b: seq<Path>)
    requires Distinct(a) && Distinct(b) && forall p :: p in a <==> p in b
    ensures |a| == |b|
  {
    Cardinality(a);
    Cardinality(b);
    assert Gone(a) == Gone(b);
  }

  lemma {:induction false} Cardinality(a: seq<Path>)
    requires Distinct(a)
    ensures |Gone(a)| == |a|
  {
    if a != [] {
      var n := |a| - 1;
      PrefixDistinct(a, a[..n]);
      Cardinality(a[..n]);
      assert a == a[..n] + [a[n]] && a[n] !in a[..n];
      assert Gone(a) == Gone(a[..n]) + {a[n]};
    }
  }

  lemma {:induction false} PlanWeighs(files: Files, plan: seq<Path>)
    requires Distinct(plan) && AllIn(files, plan)
    ensures PlanBytes(files, plan) <= Weight(files)
    decreases |plan|
  {
    if plan != [] {
      var n := |plan| - 1;
      var p, rest := plan[n], files - {plan[n]};
      PrefixDistinct(plan, plan[..n]);
      assert AllIn(rest, plan[..n]);
      PlanWeighs(rest, plan[..n]);
      SameBytes(files, rest, plan[..n]);
      WeightRemove(files, p);
    }
  }

  lemma {:induction false} SameBytes(files: Files, files': Files, plan: seq<Path>)
    requires AllIn(files, plan) && AllIn(files', plan) && forall p :: p in plan ==> files[p] == files'[p]
    ensures PlanBytes(files, plan) == PlanBytes(files', plan)
  {
    if plan != [] {
      SameBytes(files, files', plan[..|plan| - 1]);
    }
  }

  lemma ThoroughlyChosen(env: Env, files: Files, x: Context, l: CacheLedger.Limits, plan: seq<Path>, groups: seq<seq<Path>>)
    requires Covers(env, files, x, groups) && GoodGroups(env, files, x, groups) && GroupsIn(files, groups) && plan == Choice(files, groups, l)
    ensures Thorough(env, files, x, l, plan)
  {
    assert Chosen(env, files, x, l, plan, groups);
  }

  lemma NothingSwept(env: Env, files: Files, dirs: set<Path>, x: Context, l: CacheLedger.Limits)
    ensures Swept(env, files, files, dirs, x, l, [], 0)
  {
    assert After(files, [], 0) == files;
  }

  lemma PlanSwept(env: Env, start: Files, dirs: set<Path>, x: Context, l: CacheLedger.Limits, plan: seq<Path>, done: nat)
    requires Discovered(x) && Collectable(env, start, dirs, x) && PlanOk(env, start, x, plan) && Bounded(start, plan, l) && done <= |plan|
    ensures Swept(env, start, After(start, plan, done), dirs, x, l, plan, done)
  {
    Restartable(env, start, dirs, x, plan, done);
  }

  class ManagedScope {
    const limits: CacheLedger.Limits
    var files: Files
    var dirs: set<Path>
    var ledger: CacheLedger.Charges

    constructor (limits: CacheLedger.Limits, files: Files, dirs: set<Path>, ledger: CacheLedger.Charges)
      ensures this.limits == limits && this.files == files && this.dirs == dirs && this.ledger == ledger
    {
      this.limits, this.files, this.dirs, this.ledger := limits, files, dirs, ledger;
    }

    /** Unlink one file and sync its directory; a failure stops the collection,
        the file being gone or not. */
    method Remove(p: Path) returns (ok: bool)
      requires p in files
      modifies this`files
      ensures ok ==> files == old(files) - {p}
      ensures files == old(files) || files == old(files) - {p}
    {
      var unlinked, synced := *, *;
      if unlinked {
        files := files - {p};
      }
      return unlinked && synced;
    }

    /** Carry out a plan. `done` deletions took effect: some prefix of it. The
        retained charge is exact at the end, and never runs below zero. */
    method Sweep(plan: seq<Path>, bytes: nat) returns (ok: bool, ghost done: nat, report: Report)
      requires Distinct(plan) && AllIn(files, plan) && bytes == ChargeOf(files, dirs)
      modifies this`files
      ensures done <= |plan| && files == After(old(files), plan, done)
      ensures ok ==> done == |plan| && report.deletedEntries == |plan| && report.retained == ChargeOf(files, dirs)
      ensures ok ==> report.deletedBytes == PlanBytes(old(files), plan) && |files| == |old(files)| - |plan|
    {
      ok, done, report := true, 0, Report(0, 0, 0, bytes);
      ghost var start := files;
      assert After(start, plan, 0) == start;
      for k := 0 to |plan|
        invariant ok && done == k && Counted(start, files, dirs, plan, k, report)
      {
        CountedStep(start, files, dirs, plan, k, report);
        var size := |files[plan[k]]|;
        ghost var before := files;
        ok := Remove(plan[k]);
        if !ok {
          done := if files == before then k else k + 1;
          return;
        }
        report := OneLess(report, size);
        done := k + 1;
      }
      assert plan[..|plan|] == plan;
    }

    /** Collect under the exclusive fence: prove everything, then delete; reset the
        ledger to exactly what is left. */
    method Collect(env: Env, owners: seq<Owner>) returns (r: Result<Report>, ghost plan: seq<Path>, ghost done: nat)
      requires CacheLedger.LimitsOk(limits) && Discovered(ContextOf(owners, limits.maxBytes))
      requires ClosureTheorems.DecodesPlainNames(env.validator.pages)
      modifies this`files, this`ledger
      ensures Swept(env, old(files), files, dirs, ContextOf(owners, limits.maxBytes), limits, plan, done)
      ensures r.Ok? ==> done == |plan| && Finished(env, old(files), files, dirs, ContextOf(owners, limits.maxBytes), limits, plan, r.value, ledger)
    {
      plan, done := [], 0;
      var x := ContextOf(owners, limits.maxBytes);
      NothingSwept(env, files, dirs, x, limits);
      var inv := Scan(files, dirs, limits);
      if inv.Err? {
        r := Err(inv.code);
        return;
      }
      var groups := Prove(env, x, inv.value);
      if groups.Err? {
        r := Err(groups.code);
        return;
      }
      var spent := *;
      if spent {
        r := Err(LimitExceeded);
        return;
      }
      r, plan, done := CarryOut(env, x, groups.value, inv.value);
    }

    method CarryOut(env: Env, x: Context, groups: seq<seq<Path>>, inv: Inventory) returns (r: Result<Report>, ghost plan: seq<Path>, ghost done: nat)
      requires Discovered(x) && Collectable(env, files, dirs, x) && GoodGroups(env, files, x, groups) && Covers(env, files, x, groups)
      requires inv.bytes == ChargeOf(files, dirs) && inv.entries == |files| + |dirs|
      modifies this`files, this`ledger
      ensures Swept(env, old(files), files, dirs, x, limits, plan, done)
      ensures r.Ok? ==> done == |plan| && Finished(env, old(files), files, dirs, x, limits, plan, r.value, ledger)
    {
      var selected := Select(env, files, x, groups, limits);
      plan := selected;
      ThoroughlyChosen(env, files, x, limits, plan, groups);
      var ok, report;
      ok, done, report := Sweep(selected, inv.bytes);
      PlanSwept(env, old(files), dirs, x, limits, plan, done);
      if !ok {
        r := Err(Internal);
        return;
      }
      r := Reset(report.(scanned := inv.entries));
    }

    /** Prove the whole scope and gather the candidates. */
    method Prove(env: Env, x: Context, inv: Inventory) returns (r: Result<seq<seq<Path>>>)
      requires Discovered(x) && Accounts(inv, files, dirs) && ClosureTheorems.DecodesPlainNames(env.validator.pages)
      ensures r.Ok? ==> Collectable(env, files, dirs, x)
      ensures r.Err? && r.code != LimitExceeded ==> !Collectable(env, files, dirs, x)
      ensures r.Ok? ==> GoodGroups(env, files, x, r.value) && Covers(env, files, x, r.value)
    {
      var shield := ProveOwners(env, files, x);
      if shield.Err? {
        return Err(shield.code);
      }
      if exists d :: d in inv.dirs && !ValidDirectory(d, x.roots) {
        return Err(IntegrityError);
      }
      r := Candidates(env, files, x, inv, shield.value);
    }

    /** Reset the ledger to what is left, with the allowance for control records. */
    method Reset(report: Report) returns (r: Result<Report>)
      requires report.deletedEntries <= report.scanned
      modifies this`ledger
      ensures r.Ok? ==> r.value == report
      ensures r.Ok? ==> ledger == CacheLedger.Charges(report.retained + CONTROL_BYTES + 8 * ENTRY_CHARGE, report.scanned - report.deletedEntries + 8)
    {
      if report.retained + CONTROL_BYTES + 8 * ENTRY_CHARGE > U64_MAX {
        return Err(LimitExceeded);
      }
      var renamed, synced := *, *;
      if renamed {
        ledger := CacheLedger.Charges(report.retained + CONTROL_BYTES + 8 * ENTRY_CHARGE, report.scanned - report.deletedEntries + 8);
      }
      return if renamed && synced then Ok(report) else Err(Internal);
    }
  }
}
