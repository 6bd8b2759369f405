/** Types shared by every component: results, options, bytes and digests. */
module Base {

  /** What a failure is reported as. The components only ever branch on the
      difference between a broken invariant of the data and a spent budget. */
  datatype ErrorCode = IntegrityError | DigestMismatch | LimitExceeded | Internal | NotReady | ViewConflict | ScopeInvalid | ScopeForbidden

  datatype Option<+T> = None | Some(value: T)

  datatype Result<+T> = Ok(value: T) | Err(code: ErrorCode)

  type Byte = b: int | 0 <= b < 256

  type Bytes = seq<Byte>

  /** A digest in its text form; SHA-256 (section 6.2 of FIPS 180-4) is only
      ever used through a function-valued parameter. */
  type Digest = string

  const U64_MAX: nat := 0xFFFF_FFFF_FFFF_FFFF

  /** Collision freedom of a hash, the hypothesis of every theorem that
      compares bytes through their digest. */
  ghost predicate CollisionFree<T(!new)>(sha: T -> Digest) {
    forall a, b :: sha(a) == sha(b) ==> a == b
  }

  predicate HexDigit(c: char) {
    '0' <= c <= '9' || 'a' <= c <= 'f'
  }

  /** `sha256:` followed by 64 lower-case hexadecimal digits. */
  predicate IsDigest(s: string) {
    |s| == 71 && s[..7] == "sha256:" && forall i :: 7 <= i < 71 ==> HexDigit(s[i])
  }

  // ------------------------------------------------------- what a snapshot is made of

  datatype SnapshotFile = SnapshotFile(relPath: string, fsKind: string, size: nat, contentDigest: Digest)

  datatype SnapshotDirectory = SnapshotDirectory(relPath: string, directoryRoot: Digest)

  datatype StoredPage = StoredPage(pageId: Digest, bytes: Bytes)

  /** A page as an index or a retention record names it. */
  datatype PageDependency = PageDependency(pageId: Digest, size: nat)

  /** A validated metadata closure, its pages in key order. */
  datatype Closure = Closure(
    snapshotId: string, namespaceViewId: string, scope: string,
    descriptorBytes: Bytes, pages: seq<StoredPage>, directories: seq<SnapshotDirectory>, files: seq<SnapshotFile>)

  function FilePath(f: SnapshotFile): string {
    f.relPath
  }

  function PageKey(p: StoredPage): string {
    p.pageId
  }

  function PageDeps(pages: seq<StoredPage>): seq<PageDependency> {
    seq(|pages|, i requires 0 <= i < |pages| => PageDependency(pages[i].pageId, |pages[i].bytes|))
  }

  function PageMap(pages: seq<StoredPage>): map<Digest, Bytes> {
    if pages == [] then map[] else PageMap(pages[..|pages| - 1])[pages[|pages| - 1].pageId := pages[|pages| - 1].bytes]
  }

  // --------------------------------------------------------------------------- paths

  /** `p` names a directory above `q`. */
  predicate Ancestor(p: string, q: string) {
    |p| < |q| && q[|p|] == '/' && q[..|p|] == p
  }

  /** Parts of a path between separators; always at least one. */
  function Split(s: string): (parts: seq<string>)
    ensures parts != []
  {
    if s == "" then [""]
    else
      var rest := Split(s[1..]);
      if s[0] == '/' then [""] + rest else [[s[0]] + rest[0]] + rest[1..]
  }

  function TrimSlashes(s: string): string {
    if s != "" && s[0] == '/' then TrimSlashes(s[1..]) else s
  }

  function Min(a: int, b: int): int {
    if a < b then a else b
  }

  function Max(a: int, b: int): int {
    if a < b then b else a
  }
}
