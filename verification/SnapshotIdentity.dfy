/** What a durable full completion is a completion of: the one closure of the
    snapshot its view names. */
module SnapshotIdentity {
  import opened Base
  import opened CommitRecords
  import opened ClosureReopen

  /** The store reopens closures with this validator: it returns none that the
      validator would not accept, with the lists the validator derives. */
  ghost predicate ReopensWith(env: Env, v: Validator) {
    forall bytes, table :: env.reopen(bytes, table).Some? ==> Reopens(v, bytes, table, env.reopen(bytes, table).value)
  }

  ghost predicate SnapshotOf(v: Validator, id: string, c: Closure) {
    c.snapshotId == id && exists bytes, table :: Reopens(v, bytes, table, c)
  }

  /** The snapshot an accepted store is a view of. */
  function ViewedSnapshot(env: Env, s: Files): string
    requires View in s && env.dec(s[View]).Some? && env.dec(s[View]).value.ViewRecord?
  {
    env.dec(s[View]).value.view.snapshotId
  }

  lemma ReopenedIn(env: Env, s: Files, c: Committed) returns (closure: Closure)
    requires Accepts(env, s, c) && c.kind == FullSnapshot
    ensures DescriptorFile in s && IndexFile in s && env.dec(s[IndexFile]).Some? && env.dec(s[IndexFile]).value.IndexRecord?
    ensures AllStored(s, env.dec(s[IndexFile]).value.index.pages)
    ensures env.reopen(s[DescriptorFile], StoredPages(s, env.dec(s[IndexFile]).value.index.pages)) == Some(closure)
    ensures closure.snapshotId == ViewedSnapshot(env, s) && closure.files == c.manifest
  {
    closure := env.reopen(s[DescriptorFile], StoredPages(s, env.dec(s[IndexFile]).value.index.pages)).value;
  }

  /** The manifest of an accepted full completion is exactly the files of its
      snapshot's closure. */
  lemma CompletionIsSnapshot(env: Env, v: Validator, s: Files, c: Committed) returns (closure: Closure)
    requires ReopensWith(env, v) && Accepts(env, s, c) && c.kind == FullSnapshot
    ensures SnapshotOf(v, ViewedSnapshot(env, s), closure) && closure.files == c.manifest
  {
    closure := ReopenedIn(env, s, c);
    assert Reopens(v, s[DescriptorFile], StoredPages(s, env.dec(s[IndexFile]).value.index.pages), closure);
  }

  /** Wherever and whenever a snapshot was completed in full, it was completed with
      the same files. */
  lemma OneCompletion(env: Env, v: Validator, s: Files, c: Committed, s': Files, c': Committed)
    requires CollisionFree(v.snapshotId) && CollisionFree(v.pages.pageId) && ReopensWith(env, v)
    requires Accepts(env, s, c) && c.kind == FullSnapshot && Accepts(env, s', c') && c'.kind == FullSnapshot
    requires ViewedSnapshot(env, s) == ViewedSnapshot(env, s')
    ensures c.manifest == c'.manifest
  {
    var a := CompletionIsSnapshot(env, v, s, c);
    var b := CompletionIsSnapshot(env, v, s', c');
    var bytes, table :| Reopens(v, bytes, table, a);
    var bytes', table' :| Reopens(v, bytes', table', b);
    OneClosure(v, bytes, table, bytes', table', a, b);
  }
}
