/** Names a managed cache scope may contain. A path is the list of its parts
    below the scope. */
module CacheLayout {
  import opened Base

  type Path = seq<string>

  const POLICY := "cache-capacity.json"
  const LEDGER := "cache-charges.json"
  const FENCE := "cache-lifecycle.lock"
  const ADMISSION_LOCK := "cache-admission.lock"
  const OWNER_ADMISSION_LOCK := "cache-owner-admission.lock"
  const INTENTS := "cache-writers"
  const USE_RECORD := "CACHE_USE.json"
  const RETENTION_DIR := "retention"

  predicate CanonicalHex(name: string) {
    |name| == 64 && forall i :: 0 <= i < |name| ==> HexDigit(name[i])
  }

  /** Hyphenated lower-case text of a UUID other than nil. */
  predicate CanonicalUuid(id: string) {
    |id| == 36 &&
    (forall i :: 0 <= i < |id| ==> if i == 8 || i == 13 || i == 18 || i == 23 then id[i] == '-' else HexDigit(id[i])) &&
    exists i :: 0 <= i < |id| && id[i] != '-' && id[i] != '0'
  }

  function StripSuffix(s: string, suffix: string): Option<string> {
    if |suffix| <= |s| && s[|s| - |suffix|..] == suffix then Some(s[..|s| - |suffix|]) else None
  }

  /** Split at the last occurrence of a separator. */
  function RSplit(s: string, sep: string): Option<(string, string)>
    requires sep != ""
    decreases |s|
  {
    if |s| < |sep| then None
    else if s[|s| - |sep|..] == sep then Some((s[..|s| - |sep|], ""))
    else
      var rest := RSplit(s[..|s| - 1], sep);
      if rest.None? then None else Some((rest.value.0, rest.value.1 + [s[|s| - 1]]))
  }

  /** A name whose stem, without one of two suffixes, is a UUID. */
  predicate UuidFile(name: string, first: string, second: string) {
    var stem := StripSuffix(name, first);
    if stem.Some? then CanonicalUuid(stem.value)
    else StripSuffix(name, second).Some? && CanonicalUuid(StripSuffix(name, second).value)
  }

  function Parent(p: Path): Path
    requires p != []
  {
    p[..|p| - 1]
  }

  function FileName(p: Path): string
    requires p != []
  {
    p[|p| - 1]
  }

  predicate Under(root: Path, p: Path) {
    |root| < |p| && p[..|root|] == root
  }

  /** The temporary of a control record written in place of the record itself. */
  predicate RawControlTemporary(p: Path) {
    (|p| == 1 || (|p| == 2 && p[0] == INTENTS)) &&
    var name := FileName(p);
    name != "" && name[0] == '.' &&
    var split := RSplit(name[1..], ".tmp.");
    split.Some? && CanonicalUuid(split.value.1) &&
    (if |p| == 1 then split.value.0 == POLICY || split.value.0 == LEDGER
     else UuidFile(split.value.0, ".hydrate.json", ".json"))
  }

  predicate OwnerRoot(root: Path, owners: set<Path>) {
    |root| == 3 && root[1] == "owners" && root in owners
  }

  predicate ValidDirectory(p: Path, owners: set<Path>) {
    match |p|
    case 1 => p[0] == "blobs" || p[0] == "pages" || p[0] == "workspace-pins" || p[0] == INTENTS || CanonicalHex(p[0])
    case 2 => CanonicalHex(p[0]) && p[1] == "owners"
    case 3 => CanonicalHex(p[0]) && OwnerRoot(p, owners)
    case 4 => OwnerRoot(p[..3], owners) && (p[3] == "metadata" || p[3] == RETENTION_DIR)
    case 5 => OwnerRoot(p[..3], owners) && p[3] == RETENTION_DIR && p[4] == "pages"
    case _ => false
  }

  const SCOPE_FILES := {"authority.json", "authority.lock", POLICY, LEDGER, FENCE, ADMISSION_LOCK, OWNER_ADMISSION_LOCK,
                        "closures.json", "closures.lock"}

  const OWNER_FILES := {"authority.json", "authority.lock", "workspace.json", ".hydrate.lock", USE_RECORD, "LOCAL_PIN_REVOKE",
                        "view.json", "manifest.json", "journal.log", "DURABLE_COMPLETE", "pin.json", "offline_grant.json",
                        "NEEDS_REPAIR", "descriptor.bin", "metadata.json"}

  /** What retiring an owner makes disposable, besides its metadata pages and its
      retention proof. */
  const DISPOSABLE_FILES := {"descriptor.bin", "metadata.json", "manifest.json", "journal.log", "offline_grant.json", "NEEDS_REPAIR"}

  predicate ValidFinalFile(p: Path, owners: set<Path>) {
    p != [] &&
    var name, dir := FileName(p), Parent(p);
    match |dir|
    case 0 => name in SCOPE_FILES
    case 1 =>
      (dir[0] == "blobs" && (CanonicalHex(name) || name == "authority.json" || name == "authority.lock")) ||
      (dir[0] == "pages" && CanonicalHex(name)) || (dir[0] == "workspace-pins" && UuidFile(name, ".json", ".lock"))
    case 3 => OwnerRoot(dir, owners) && name in OWNER_FILES
    case 4 =>
      OwnerRoot(dir[..3], owners) &&
      ((dir[3] == "metadata" && CanonicalHex(name)) || (dir[3] == RETENTION_DIR && name == "descriptor.msd2"))
    case 5 => OwnerRoot(dir[..3], owners) && dir[3] == RETENTION_DIR && dir[4] == "pages" && CanonicalHex(name)
    case _ => false
  }

  predicate ValidChild(name: string) {
    name != "" && name != "." && name != ".." && '/' !in name && '\\' !in name && '\0' !in name
  }

  function TemporaryName(final: string, id: string): string {
    "." + final + ".tmp." + id
  }

  // ------------------------------------------------------------------------- lemmas

  /** Splitting a temporary's name gives back what it was made from, whatever the
      final name contains. */
  lemma {:induction false} RSplitJoin(a: string, id: string)
    requires forall i :: 0 <= i < |id| ==> id[i] != '.'
    ensures RSplit(a + ".tmp." + id, ".tmp.") == Some((a, id))
    decreases |id|
  {
    var s := a + ".tmp." + id;
    if id == "" {
      assert s[|s| - 5..] == ".tmp." && s[..|s| - 5] == a;
    } else {
      var front := id[..|id| - 1];
      assert s[..|s| - 1] == a + ".tmp." + front;
      assert s[|s| - 1] == id[|id| - 1] && s[|s| - 5..][4] == s[|s| - 1];
      RSplitJoin(a, front);
      assert front + [s[|s| - 1]] == id;
    }
  }

  lemma StripJoin(s: string, suffix: string)
    requires StripSuffix(s, suffix).Some?
    ensures s == StripSuffix(s, suffix).value + suffix
  {
  }

  lemma UuidHasNoDot(id: string)
    requires CanonicalUuid(id)
    ensures forall i :: 0 <= i < |id| ==> id[i] != '.'
  {
  }

  /** Writers of different operations never share a temporary. */
  lemma TemporariesDiffer(f: string, id: string, g: string, jd: string)
    requires CanonicalUuid(id) && CanonicalUuid(jd) && TemporaryName(f, id) == TemporaryName(g, jd)
    ensures f == g && id == jd
  {
    UuidHasNoDot(id);
    UuidHasNoDot(jd);
    RSplitJoin(f, id);
    RSplitJoin(g, jd);
    assert TemporaryName(f, id)[1..] == f + ".tmp." + id;
    assert TemporaryName(g, jd)[1..] == g + ".tmp." + jd;
  }

  lemma LongNames(name: string)
    requires |name| >= 42
    ensures name !in SCOPE_FILES && name !in OWNER_FILES && name != "descriptor.msd2"
  {
  }

  lemma DottedNames(name: string)
    requires |name| >= 42 && name[0] == '.'
    ensures !CanonicalHex(name) && !UuidFile(name, ".json", ".lock")
  {
    assert !HexDigit(name[0]);
    NoUuidStem(name, ".json");
    NoUuidStem(name, ".lock");
  }

  lemma NoUuidStem(name: string, suffix: string)
    requires |name| > |suffix| && name[0] == '.'
    ensures StripSuffix(name, suffix).Some? ==> !CanonicalUuid(StripSuffix(name, suffix).value)
  {
    var stem := StripSuffix(name, suffix);
    if stem.Some? {
      assert stem.value[0] == '.' && !HexDigit('.');
    }
  }

  /** A writer's temporary is never taken for a final file. */
  lemma TempNotFinal(dir: Path, final: string, id: string, owners: set<Path>)
    requires CanonicalUuid(id)
    ensures !ValidFinalFile(dir + [TemporaryName(final, id)], owners)
  {
    var name := TemporaryName(final, id);
    var p := dir + [name];
    LongNames(name);
    DottedNames(name);
    assert FileName(p) == name && Parent(p) == dir;
    assert name != "authority.json" && name != "authority.lock";
  }
}
