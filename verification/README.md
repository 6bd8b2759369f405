# ScorpioFS snapshot layer: a verified model

A Dafny 4.11 model of `src/snapshot`, the part of ScorpioFS that serves fixed,
content-addressed snapshots from a local store. Seven components are modelled,
each with the properties it exists for.

- **Metadata closure.** An untrusted, possibly cyclic graph of pages is given a
  meaning of its own (`PageGraph`, `LogicalTree`): the finite unfolding, if there
  is one. The validator (`ClosureValidator`) with its memo tables and active sets
  succeeds exactly on closures, and its subtree facts are the walk's
  (`ClosureTheorems`). Reopening from stored bytes, and why a snapshot id has one
  closure, is `ClosureReopen`.
- **Durable hydration.** A disk on which unsynced renames and unlinks may or may
  not survive (`DurableDisk`), the commit protocol step by step (`DurableCommit`),
  the records and their audit (`Manifest`, `CommitRecords`), admission, any number
  of operations, crashes and restarts, and an exact account of the one unsafe case
  (`Hydration`), what a completion is a completion of (`SnapshotIdentity`), and the
  resume journal (`Journal`).
- **Cache retention.** The names a scope may hold (`CacheLayout`), what a
  collector must prove (`CacheProof`), which deletions are safe and restartable
  (`CachePlan`), the collector itself (`CacheCollector`, `CacheSweep`), the charge
  ledger (`CacheLedger`), the steps that change a scope's files (`CacheSteps`), the
  owners' and writers' operations made of them (`CacheOwners`, `CacheWriter`), and
  what no run of such steps can delete (`CacheRuns`).
- **Chunk-fact index.** Scans and chunk reads of files that may change at any
  moment (`IndexScan`), the bounded cache with ownership accounting
  (`IndexCache`), and reads through it (`IndexRead`).
- **Single flight.** The protocol over all interleavings (`Coordination`, in
  `Coordinator.dfy`) and the locked object (`FetchCoordination`).
- **Worker.** The start/cancel race and four permit pools (`CasWorker`).
- **Pagination.** A directory listing from an arbitrary server (`Pagination`,
  with `Numerals`).

`Base` and `Ordering` hold shared types and the stable sort by path.

## Assumptions

- SHA-256 (section 6.2 of FIPS 180-4) is a function-valued parameter; theorems
  that compare bytes through digests require it to be collision free. No theorem
  requires every hash to have the digest shape, only the ones it names, so the two
  hypotheses do not clash.
- The page codec, the descriptor codec and JSON are function-valued parameters.
  Theorems about what a snapshot id fixes require page ids and snapshot ids to be
  collision free; that a snapshot then has one closure is proved
  (`ClosureReopen.OneClosure`). The collector runs the validator itself; the durable
  store sees it as a function of descriptor bytes and pages, which `SnapshotIdentity`
  requires to return only what the validator accepts. Decoded entry names are non-empty and contain no separator. JSON records
  round-trip, and their compact form holds no raw newline (section 7 of
  RFC 8259).
- A crash keeps, for each path, one of the contents that path could still have:
  the visible one if its data is synced, arbitrary bytes if not, and any older one
  not yet superseded by a directory sync.
- Owner discovery is complete, reports roots of the fixed layout and never loses an
  owner. Only the collector unlinks blobs and pages; everything else may happen to
  any other file, except that use records change only through their owners.
- Strings are sequences of characters ordered as UTF-8 bytes are; lengths count
  characters.

## Properties that fail, and exactly when

`invalidate_complete` (`src/snapshot/durable.rs:2138-2144`) treats a marker that
is not found as revoked, without syncing the directory. If an earlier removal's
sync failed, the old marker may still survive a crash, and then binding the view
again is not crash safe. `Hydration.StaleMarkerFails` gives the failing run for
every completed store and every renewed lease. `Hydration.Prepare` and
`Hydration.Hydrate` give the exact condition for the operations: from a crash-safe
store every state is crash safe if nothing is left unsynced, or the journal has a
torn tail (cutting it syncs the directory), or the view's bytes may already be the
stored ones; otherwise every run that succeeds has passed through an unsafe state.
A restart always settles the store, so a process that does nothing after a failed
operation is always safe (`Hydration.Live`, `Hydration.Lives`).

The capacities of a managed scope are meant to leave room for the records that
retire and revoke owners. They do so if and only if the policy's headroom is four
times such a write and it has 48 entries at least (`CacheLedger.EmergencyAfterProof`);
validation does not demand that, and `CacheLedger.TightPolicy` is a policy it accepts
under which a full proof admission leaves no room for any.

## Model

| member | source | states |
|---|---|---|
| PageGraph.RadixUnfold | src/snapshot/closure.rs:458-537 | the meaning of a radix page satisfies its recursive equation: own entries, then every child's with its declared count, sorted, and the page is the canonical build of them |
| PageGraph.RadixIsCanonicalBuild | src/snapshot/closure.rs:485-531 | a page that has a meaning is the canonical build of the sorted entries below it, and its children's declared counts are true |
| PageGraph.RadixCycle | src/snapshot/closure.rs:471-473 | a radix page below itself has no meaning, so rejecting it is right |
| PageGraph.ListingUnfold | src/snapshot/closure.rs:539-607 | the tree below a directory root satisfies its recursive equation over the directory's entries |
| PageGraph.ListCycle | src/snapshot/closure.rs:548-553 | a directory below itself has no finite tree |
| PageGraph.ClosedHoldsReachable | src/snapshot/closure.rs:383-398 | a set of pages closed under references holds everything reachable from its members |
| LogicalTree.WalkAcceptsExactly | src/snapshot/closure.rs:539-607 | the reference walk accepts a tree if and only if its paths are distinct, its names and scope are allowed and each content digest has one size; it then collects exactly that tree's directories and files |
| LogicalTree.WalkInExact | src/snapshot/closure.rs:559-604 | the same for the walk of a list of entries from any state, with the exact state it leaves |
| LogicalTree.CountIsPaths | src/snapshot/closure.rs:400-456 | the entry count of a tree is the number of its logical paths |
| LogicalTree.FilesInUnder | src/snapshot/closure.rs:427-430 | files below a directory are its relative files under its path |
| ClosureValidation.CheckPage | src/snapshot/closure.rs:370-379 | a page passes exactly if its name is a digest, its bytes hash to it and decode |
| ClosureValidation.ClosureValidator.constructor | src/snapshot/closure.rs:348-369 | a fresh validator has empty memos and an empty walk |
| ClosureValidation.ClosureValidator.AdmitAllocation | src/snapshot/closure.rs:627-638 | the budget is charged, and refused exactly when it is exceeded |
| ClosureValidation.ClosureValidator.AdmitLogicalPath | src/snapshot/closure.rs:619-625 | refused exactly when the entry budget is used up or the path exceeds the byte budget; charged unless the entry budget refuses |
| ClosureValidation.ClosureValidator.LoadPages | src/snapshot/closure.rs:370-381 | success means every supplied page is authentic and decoded; any other error than a limit means one is not |
| ClosureValidation.ClosureValidator.RadixEntries | src/snapshot/closure.rs:458-537 | memoised expansion returns the page's meaning and reaches radix pages below it only; an integrity error means there is no meaning; it terminates on every graph, cyclic ones included |
| ClosureValidation.ClosureValidator.Canonicalize | src/snapshot/closure.rs:516-536 | the gathered entries are accepted exactly if the page is their canonical build |
| ClosureValidation.ClosureValidator.GatherChildren | src/snapshot/closure.rs:485-515 | the child loop gathers exactly the children's entries in order |
| ClosureValidation.ClosureValidator.ChildEntries | src/snapshot/closure.rs:491-511 | a child's declared count is its true count |
| ClosureValidation.ClosureValidator.EnterDirectory | src/snapshot/closure.rs:546-557 | a directory is entered exactly if its path is new and allowed and it is not an ancestor of itself |
| ClosureValidation.ClosureValidator.WalkDirectory | src/snapshot/closure.rs:539-607 | the walk of untrusted pages has the reference walk's result; an integrity error means the tree is missing or unacceptable; it terminates on every finite page graph |
| ClosureValidation.ClosureValidator.WalkEntries | src/snapshot/closure.rs:559-604 | the entry loop has the reference result for the remaining entries |
| ClosureValidation.ClosureValidator.WalkEntry | src/snapshot/closure.rs:560-603 | one entry is one step of the reference walk |
| ClosureValidation.ClosureValidator.WalkSubdirectory | src/snapshot/closure.rs:561-570 | a subdirectory is walked as its own tree |
| ClosureValidation.ClosureValidator.RecordFile | src/snapshot/closure.rs:571-602 | a file is recorded exactly if its path is new and its digest keeps one size |
| ClosureValidation.ClosureValidator.RadixPageIds | src/snapshot/closure.rs:383-398 | collects pages of the directory's own radix tree, closed under radix children; terminates without a cycle check |
| ClosureValidation.ClosureValidator.SubtreeFacts | src/snapshot/closure.rs:400-456 | on an accepted tree it terminates without a cycle check, its lookups never fail, and memo and result say what the tree says |
| ClosureValidation.ClosureValidator.FactsOfEntry | src/snapshot/closure.rs:414-446 | one entry adds its whole subtree's pages, its files under its name and its count |
| ClosureValidation.ClosureValidator.EntryFacts | src/snapshot/closure.rs:400-456 | the facts of a directory are its sorted files, its reachable pages and its entry count |
| ClosureValidation.SubtreeComplete | src/snapshot/closure.rs:383-456 | radix pages with all subtrees are exactly what is reachable from the root |
| ClosureTheorems.ClosureIsComplete | src/snapshot/closure.rs:126-187 | in a closure the supplied pages are exactly the reachable ones |
| ClosureTheorems.ClosureUnique | src/snapshot/closure.rs:126-187 | a root determines its closure: two closures of one root have the same pages |
| ClosureTheorems.ClosurePagesAreCanonical | src/snapshot/closure.rs:458-537 | every page of a closure is the canonical build of the sorted entries below it, with true child counts |
| ClosureTheorems.ClosureListsAreStrict | src/snapshot/closure.rs:149-152 | the sorted directories and files of a closure have no path twice, and one size for each digest |
| ClosureTheorems.FactsAgreeWithWalk | src/snapshot/closure.rs:400-456 | for every directory, its facts' files under its path are, in order, exactly the closure's files below it; its pages are those reachable; its count is every entry below, aliases included |
| ClosureTheorems.WalkReachesAll | src/snapshot/closure.rs:539-607 | a finished walk has reached every reachable page |
| ClosureTheorems.CountDecidesClosure | src/snapshot/closure.rs:146-148 | comparing counts decides whether the supplied pages are the closure |
| ClosureTheorems.CollectFacts | src/snapshot/closure.rs:154-172 | facts for every directory root are sound; only a limit can refuse them |
| ClosureTheorems.ValidatePages | src/snapshot/closure.rs:126-187 | success means the pages are the closure of the root, with its sorted unfolding and facts; an error other than a limit means they are not |
| ClosureReopen.FromCanonicalPages | src/snapshot/closure.rs:197-236 | reopens a closure from descriptor bytes and pages; success and every refusal but a spent budget decide whether the bytes are canonical and the pages exactly the committed root's closure |
| ClosureReopen.OneClosure | src/snapshot/closure.rs:197-236 | two closures of one snapshot id are the same, down to descriptor bytes, pages, directories and files |
| ClosureReopen.ListPages | src/snapshot/closure.rs:80-87 | lists a table of pages in key order, each once |
| ClosureReopen.PagesAreDigests | src/snapshot/closure.rs:370-378 | every page of a reopened closure is stored under its own well-formed digest |
| ClosureTheorems.VerifyDirectoryPages | src/snapshot/closure.rs:308-321 | one directory is proven exactly by the pages of its own radix tree |
| Manifest.ValidateManifest | src/snapshot/durable.rs:3676-3742 | accepts exactly the manifests with valid files, distinct paths, one size for each digest, no file above another and a total that fits; returns the dependencies and total |
| Manifest.DependenciesExact | src/snapshot/durable.rs:3676-3742 | the dependencies are the distinct contents of the files, sorted, each with its size |
| Manifest.NoneAncestor | src/snapshot/durable.rs:3728-3734 | the prefix test finds exactly the paths that lie below another file |
| CommitRecords.VerifyBlobs | src/snapshot/durable.rs:2217-2228 | passes exactly if every dependency is stored with its size and digest |
| CommitRecords.VerifyLinks | src/snapshot/durable.rs:2393-2408 | passes exactly if every symlink target is small, intact and free of NUL; the limit error means one is too long |
| CommitRecords.LoadPages | src/snapshot/durable.rs:2333-2341 | collects exactly the indexed pages, each stored once with its size |
| CommitRecords.VerifyMetadata | src/snapshot/durable.rs:2276-2366 | the metadata half of the audit, both directions |
| CommitRecords.VerifyContent | src/snapshot/durable.rs:2217-2228 | pages, blobs and symlink targets behind the records, both directions; any refusal but damage is a symlink too long |
| CommitRecords.VerifyRecords | src/snapshot/durable.rs:2192-2229 | view, manifest, pin and marker bind each other, both directions; any refusal but damage is the grant's own or a symlink too long |
| CommitRecords.VerifyCommit | src/snapshot/durable.rs:2173-2230 | returns a completion exactly if the audit accepts the files; tells damage from a refused grant and from a limit |
| CommitRecords.WriterVerifierAgree | src/snapshot/durable.rs:2439-2669 | the records of a valid commit, read back unchanged, are accepted with the same manifest and kind |
| SnapshotIdentity.CompletionIsSnapshot | src/snapshot/durable.rs:2342-2353 | the manifest of an accepted full completion is exactly the file list of the closure of the snapshot its view names |
| SnapshotIdentity.OneCompletion | src/snapshot/durable.rs:2173-2176 | wherever a snapshot was completed in full, it was completed with the same files |
| DurableDisk.NoMarkerIsSafe | src/snapshot/durable.rs:2138-2144 | a state in which no marker can survive is crash safe |
| DurableDisk.SafeWithin | src/snapshot/durable.rs:3393-3402 | losing possible survivors keeps crash safety |
| DurableCommit.AtomicSteps | src/snapshot/durable.rs:3165-3216 | every intermediate state of an atomic write adds at most the new content; the last leaves only it |
| DurableCommit.DurableStore.WriteTemp | src/snapshot/durable.rs:3187-3197 | a temporary is written, unsynced, or nothing changes |
| DurableCommit.DurableStore.SyncFile | src/snapshot/durable.rs:3382-3391 | the visible data of one file is synced, or nothing changes |
| DurableCommit.DurableStore.Rename | src/snapshot/durable.rs:3200-3203 | the rename is visible while the old contents may still survive, or nothing changes |
| DurableCommit.DurableStore.Unlink | src/snapshot/durable.rs:2138-2144 | the removal is visible while the file may still survive, or nothing changes |
| DurableCommit.DurableStore.SyncDir | src/snapshot/durable.rs:3393-3402 | older contents of the directory can no longer survive, or nothing changes |
| DurableCommit.DurableStore.WriteAtomic | src/snapshot/durable.rs:3165-3216 | success leaves the new content as the only one that can survive; every state on the way, failures included, adds at most that content |
| DurableCommit.DurableStore.Publish | src/snapshot/durable.rs:3161-3163 | publishing a record while no marker can survive is crash safe at every step |
| DurableCommit.DurableStore.RemoveDurably | src/snapshot/durable.rs:2540-2551 | a stale record is removed and its removal synced, safely at every step |
| DurableCommit.DurableStore.SyncDependencies | src/snapshot/durable.rs:2456-2489 | success means every dependency verifies and can only survive as it is, cache hits included |
| DurableCommit.DurableStore.PublishPages | src/snapshot/durable.rs:2240-2257 | the private metadata pages become durable and nothing else is touched |
| DurableCommit.DurableStore.PublishMetadata | src/snapshot/durable.rs:2240-2274 | pages, descriptor and index become durable in that order |
| DurableCommit.DurableStore.PublishGrant | src/snapshot/durable.rs:2528-2553 | the wanted grant is durable, or a stale one is gone |
| DurableCommit.DurableStore.PublishIdentity | src/snapshot/durable.rs:2494-2516 | journal, manifest and view are published over durable contents |
| DurableCommit.DurableStore.PublishPin | src/snapshot/durable.rs:2554-2604 | after the pin, everything the marker binds is frozen |
| DurableCommit.DurableStore.InvalidateComplete | src/snapshot/durable.rs:2138-2144 | revoking keeps crash safety; from a settled store no marker can survive it |
| DurableCommit.DurableStore.PublishMarker | src/snapshot/durable.rs:2643-2656 | over frozen dependencies publishing the marker is crash safe at every step; success is durable; failure revokes |
| DurableCommit.DurableStore.FinishCommit | src/snapshot/durable.rs:2439-2669 | every disk state of a commit is crash safe; success means that after any crash the marker is there and accepted with the committed manifest and kind |
| DurableCommit.BoundReadsBack | src/snapshot/durable.rs:2439-2669 | after any crash the bound files read back as written |
| DurableCommit.MarkerSafe | src/snapshot/durable.rs:2643-2656 | a marker that may survive over frozen dependencies is always accepted |
| DurableCommit.MarkerDurable | src/snapshot/durable.rs:2643-2656 | an installed marker survives every crash and is accepted |
| Hydration.Admit | src/snapshot/durable.rs:2049-2087 | admits exactly the same fixed view, an equal set of files and no weaker a completion |
| Hydration.SameFiles | src/snapshot/durable.rs:2077-2087 | comparing sorted manifests decides whether they are permutations |
| Hydration.OnlySameCompletion | src/snapshot/durable.rs:2049-2136 | a completion that a reopen would accept can only be revoked for the same view, the same files and no weaker a kind |
| Hydration.RepairJournal | src/snapshot/durable.rs:3074-3090 | cutting the journal's tail touches no audited file and keeps crash safety; a successful cut leaves no marker removal unsynced, and an untorn journal nothing changed |
| Hydration.ClearMarker | src/snapshot/durable.rs:2094-2098 | repair and revocation keep crash safety; success leaves no marker that could survive, except that an absent one is believed on a store left unsynced |
| Hydration.Prepare | src/snapshot/durable.rs:2037-2107 | a refusal leaves the disk alone; every state is crash safe if binding the view is harmless, and only then if it succeeds; success leaves the view durable and no marker that could survive |
| Hydration.StoreBlob | src/snapshot/durable.rs:1263-1299 | delivered bytes are published only under the digest and size asked for |
| Hydration.Hydrate | src/snapshot/durable.rs:1188-1325 | no step of a whole hydration, whatever fails or is delivered, can leave a marker a reopen rejects if binding its view is harmless, and a success where it is not has passed through a state that can; success is durable and leaves nothing unsynced |
| Hydration.Reopen | src/snapshot/durable.rs:2148-2171 | returns a manifest only if the audit accepts it; a marker that a crash can leave is accepted and untouched; damage is revoked durably; a refusal for another reason is reported and changes nothing |
| Hydration.AcceptsAgree | src/snapshot/durable.rs:2173-2230 | the audit depends on audited files only |
| Hydration.RestartIsSettled | src/snapshot/durable.rs:2148-2171 | a restarted store has nothing unsynced, and is crash safe exactly if its marker, if any, is accepted |
| Hydration.Live | src/snapshot/durable.rs:1188-1325 | any sequence of hydrations and reopens by one process, failures in between or not, is crash safe in every state if each hydration begins where it is harmless; from a settled store that is so as long as nothing follows a failed operation |
| Hydration.OneLife | src/snapshot/durable.rs:2148-2171 | restart on what was left, operate until done or failed, crash in any state: if what was found has no marker or an accepted one, so has what is left |
| Hydration.Lives | src/snapshot/durable.rs:2037-2171 | however often processes operate, crash in any state and restart, a surviving marker is accepted |
| Hydration.UnsettledExact | src/snapshot/durable.rs:2096-2104 | with a removed marker that may survive, binding a view is safe if and only if its bytes may already be on disk |
| Hydration.UnsettledRebind | src/snapshot/durable.rs:2096-2104 | with a durable stored view: safe if and only if the bytes do not change |
| Hydration.StaleMarkerFails | src/snapshot/durable.rs:2138-2144 | every completed store with an unsynced marker removal fails under every renewed lease |
| Journal.LinesUnique | src/snapshot/durable.rs:2970-2975 | splitting joined lines gives back the lines and the torn tail |
| Journal.LastWinsMeans | src/snapshot/durable.rs:2976-2993 | the table holds, for every recorded path and no other, its last record |
| Journal.ReadJournal | src/snapshot/durable.rs:2962-2995 | reads exactly the terminated lines, skips blanks, fails exactly on an unreadable complete line |
| Journal.TruncateTail | src/snapshot/durable.rs:3074-3090 | keeps exactly the complete lines |
| Journal.EndedExact | src/snapshot/durable.rs:2958-2975 | the number of lines a byte prefix completes is exact |
| Journal.SurvivingPrefix | src/snapshot/durable.rs:2962-3018 | any byte prefix of what was appended reads as the old journal and exactly the completed records |
| Journal.ResumedJournal | src/snapshot/durable.rs:2999-3090 | truncating the torn tail and appending reads as the survivors followed by the new records |
| Journal.CompactedReads | src/snapshot/durable.rs:3020-3072 | a compacted journal reads as one record for each manifest file |
| Journal.JournalBatch.constructor | src/snapshot/durable.rs:306-312 | a new batch holds nothing |
| Journal.JournalBatch.AppendBytes | src/snapshot/durable.rs:2999-3018 | a failed write leaves some prefix of the bytes |
| Journal.JournalBatch.FlushLocked | src/snapshot/durable.rs:348-353 | success puts the whole buffer on disk; in any case the disk holds a byte prefix of what was appended |
| Journal.JournalBatch.Flush | src/snapshot/durable.rs:341-346 | after success the disk is exactly the appended records |
| Journal.JournalBatch.Append | src/snapshot/durable.rs:314-339 | disk and buffer together stay the appended records in order, within the buffer's limits; an oversized line bypasses the buffer in order |
| CacheLayout.RSplitJoin | src/snapshot/cache_retention.rs:1515-1538 | splitting a temporary's name gives back final name and operation, whatever the final name contains |
| CacheLayout.TemporariesDiffer | src/snapshot/cache_retention.rs:379-396 | writers of different operations never share a temporary |
| CacheLayout.TempNotFinal | src/snapshot/cache_retention.rs:1576-1641 | a writer's temporary is never taken for a final file |
| CachePlan.StandingKept | src/snapshot/cache_retention.rs:1167-1280 | deleting disposable files leaves every owner standing as before |
| CachePlan.DeclarationKept | src/snapshot/cache_retention.rs:1340-1368 | a surviving temporary keeps its declaration |
| CachePlan.Restartable | src/snapshot/cache_retention.rs:1286-1382 | after any prefix of a plan's deletions the scope passes every check of the next collection |
| CachePlan.ProvenIsFixed | src/snapshot/cache_retention.rs:1205-1246 | what a live owner's retained metadata proves is the one closure of its snapshot, by collision freedom |
| CachePlan.PlanSafe | src/snapshot/cache_retention.rs:1383-1432 | nothing a plan deletes is a blob or page of the fixed closure of an owner that is not retired |
| CacheCollector.Scan | src/snapshot/cache_retention.rs:1705-1783 | lists every entry once with the exact charge, and refuses exactly a scope over its policy |
| CacheCollector.LoadRetained | src/snapshot/cache_retention.rs:1212-1234 | reads exactly the retained pages, each once with its size |
| CacheCollector.ProveOwner | src/snapshot/cache_retention.rs:1167-1262 | success and every refusal but a spent budget decide whether the owner is properly retired or proves its closure; it runs the validator; an unknown root is busy |
| CacheCollector.ProveOwners | src/snapshot/cache_retention.rs:1159-1280 | success and every refusal but a spent budget decide whether every owner stands; gathers what they protect |
| CacheCollector.ShieldExact | src/snapshot/cache_retention.rs:1263-1280 | the gathered names are exactly those some live closure needs |
| CacheSweep.ControlTemps | src/snapshot/cache_retention.rs:1289-1306 | finds exactly the control temporaries, all bounded |
| CacheSweep.GroupsApart | src/snapshot/cache_retention.rs:1307-1374 | different intents' groups share no file |
| CacheSweep.GatherIntents | src/snapshot/cache_retention.rs:1307-1374 | checks every declaration; groups hold each intent after its temporary |
| CacheSweep.TestsExact | src/snapshot/cache_retention.rs:1387-1419 | the collector's tests for stale objects and retired metadata mean exactly that |
| CacheSweep.StaleFiles | src/snapshot/cache_retention.rs:1375-1424 | succeeds exactly if every remaining name is a known final file; lists exactly the sweepable ones |
| CacheSweep.Candidates | src/snapshot/cache_retention.rs:1281-1433 | succeeds exactly if every file is known; the candidates are exactly what is due |
| CacheSweep.Select | src/snapshot/cache_retention.rs:1434-1450 | takes whole groups in order within the deletion limits; the result is a safe plan |
| CacheSweep.ChoiceComplete | src/snapshot/cache_retention.rs:1434-1450 | within the limits nothing is skipped |
| CacheSweep.ThoroughComplete | src/snapshot/cache_retention.rs:1434-1478 | a collection whose limits allow it leaves nothing that was due |
| CacheSweep.ManagedScope.constructor | src/snapshot/cache_retention.rs:1127-1158 | a scope holds the given files, directories and ledger |
| CacheSweep.ManagedScope.Remove | src/snapshot/secure_fs.rs:314-322 | one file is unlinked and synced; a failure may or may not have unlinked it |
| CacheSweep.ManagedScope.Sweep | src/snapshot/cache_retention.rs:1471-1478 | a prefix of the plan is carried out; the retained charge is exactly the survivors' and never underflows |
| CacheSweep.ManagedScope.Prove | src/snapshot/cache_retention.rs:1159-1433 | success and every refusal but a spent budget decide whether the scope is collectable |
| CacheSweep.ManagedScope.Collect | src/snapshot/cache_retention.rs:1127-1498 | deletes only a prefix of a safe, bounded plan for a proven scope; afterwards the scope is again collectable and every owner stands as before; a finished pass reports and records exactly what is left |
| CacheSweep.ManagedScope.Reset | src/snapshot/cache_retention.rs:1479-1497 | the ledger becomes the retained charge with the control allowance |
| CacheOwners.RegisterUse | src/snapshot/cache_retention.rs:795-835 | one step of the scope's protocol at most: a live use stays; a retired or missing one becomes live and unknown, which no collector gets past |
| CacheOwners.RetainRoot | src/snapshot/cache_retention.rs:839-950 | ordinary writes and the record last; success is exactly what the collector proves the closure from; a failure leaves the use as it was or as asked; a closure of another view is refused untouched |
| CacheOwners.StoredMatches | src/snapshot/cache_retention.rs:906-926 | retention is skipped only if every stored dependency equals the proof |
| CacheOwners.RetireUse | src/snapshot/cache_retention.rs:954-996 | one step at most: only a released owner without completion retires, and the collector then sees it retired |
| CacheOwners.RetainedStands | src/snapshot/cache_retention.rs:1167-1246 | retained metadata gives the owner its protection |
| CacheWriter.WriteManaged | src/snapshot/cache_retention.rs:380-440 | declaration, temporary, rename and clean-up, with every failure and partial write: each is a step of the scope's protocol, every state passes the collector's check of names, nothing but the write's own files changes, and success publishes the data |
| CacheWriter.Declare | src/snapshot/cache_retention.rs:380-413 | the declaration is written through a control temporary, or nothing but that temporary remains |
| CacheWriter.Transfer | src/snapshot/durable.rs:3195-3216 | the declared temporary is written and renamed into place |
| CacheWriter.Retract | src/snapshot/cache_retention.rs:420-440 | the temporary goes first, and the declaration only once nothing needs it |
| CacheLedger.EmergencyAfterProof | src/snapshot/cache_retention.rs:177-189 | after any proof admission a record that retires or revokes an owner still fits, if and only if the headroom is four times its charge and the policy has 48 entries |
| CacheLedger.ProofAfterOrdinary | src/snapshot/cache_retention.rs:177-189 | after any ordinary admission a proof write still fits, if and only if three quarters of the headroom cover it and the policy has 16 entries |
| CacheLedger.TightPolicy | src/snapshot/cache_retention.rs:73-93 | a policy validation accepts under which a full proof admission leaves no room for a revocation |
| CacheLedger.Scope.constructor | src/snapshot/cache_retention.rs:193-253 | a configured scope has its policy and ledger and no intents |
| CacheLedger.Scope.Charge | src/snapshot/cache_retention.rs:323-366 | refused for capacity exactly when the class's capacity would be exceeded; otherwise the ledger grows by the charge, or an I/O failure is reported |
| CacheLedger.Scope.BeginWrite | src/snapshot/cache_retention.rs:294-377 | a write is charged its bytes and overhead, and refused for capacity exactly when they do not fit; no ordinary or proof write leaves the ledger above the maximum less a quarter of the headroom |
| CacheLedger.HydrationBudget.constructor | src/snapshot/cache_retention.rs:647-676 | a reservation starts with nothing consumed |
| CacheLedger.HydrationBudget.Consume | src/snapshot/cache_retention.rs:678-725 | what is consumed stays within what the intent records, and that within what was added to the ledger, unplanned repairs and failures included |
| CacheLedger.HydrationBudget.Raise | src/snapshot/cache_retention.rs:711-724 | the intent's maximum is raised, or the failure reported |
| CacheLedger.ReserveCharge | src/snapshot/cache_retention.rs:617-676 | a hydration is charged once, within its class's capacity |
| CacheLedger.ConsumeAll | src/snapshot/cache_retention.rs:678-725 | any sequence of child writes consumes no more than was reserved or added; writes within the reservation never touch the ledger |
| CacheLedger.PlanHydration | src/snapshot/cache_retention.rs:487-577 | the reservation is every distinct missing object once and the control records; refused exactly for too many files or an overflow |
| CacheLedger.PlanCovers | src/snapshot/cache_retention.rs:487-577 | writing every missing object once and the records within their allowance stays within the reservation |
| CacheRuns.EveryRun | src/snapshot/cache_retention.rs:113-136 | in every run of steps, from any files, guards exclude the collector, and what it deletes is a plan made for a scope it has proven |
| CacheRuns.UnlinkSpares | src/snapshot/cache_retention.rs:1471-1478 | the next deletion is of no blob or page of the fixed closure of an owner that does not stand as retired |
| CacheRuns.KeptWhileStanding | src/snapshot/cache_retention.rs:1127-1498 | over any stretch of any run in which the owner does not stand as retired, no blob or page of its fixed closure leaves the cache |
| CacheRuns.KeptUntilRetired | src/snapshot/cache_retention.rs:795-996 | whatever is interleaved, a blob or page of an owner's fixed closure stays in the cache, and the owner's use is not over, as long as no step retires it, its root known or not |
| CacheRuns.OnlyRetireEnds | src/snapshot/cache_retention.rs:795-996 | only the retiring of an owner makes its record say that its use is over |
| CacheRuns.OthersKeepUse | src/snapshot/cache_retention.rs:795-996 | no step but its own operations changes an owner's use, so what they have read stays true between their steps |
| CacheRuns.CollectReaches | src/snapshot/cache_retention.rs:1471-1478 | what a collection does, however it ends, is locking, planning, a number of planned deletions and unlocking |
| CacheRuns.CollectScope | src/snapshot/cache_retention.rs:1127-1498 | the collector's own operation, tied to the steps it is made of |
| IndexScan.Sink.constructor | src/snapshot/cas_index.rs:234-248 | an output starts empty with its fixed capacity |
| IndexScan.Sink.Append | src/snapshot/cas_index.rs:264-277 | appends exactly if it fits |
| IndexScan.CopyIntersection | src/snapshot/cas_index.rs:288-303 | the output grows to the requested window of what has been read |
| IndexScan.HashChunks | src/snapshot/cas_index.rs:355-371 | a buffer of any length extends the digests of the full chunks and the open hash |
| IndexScan.ChunksClose | src/snapshot/cas_index.rs:378-382 | closing the open hash gives ceil(size / 1 MiB) digests, the i-th that of the i-th chunk |
| IndexScan.ReadRetry | src/snapshot/cas_index.rs:397-405 | one read returns at most what was asked for |
| IndexScan.CheckMetadata | src/snapshot/cas_index.rs:224-232 | passes exactly if the file is a regular file of the size at that moment; a failure to tell is an I/O error, anything else a mismatch |
| IndexScan.ScanBody | src/snapshot/cas_index.rs:326-395 | for every split into short reads, success means the bytes read have the fixed digest and size, the chunk digests are theirs and the output is the requested slice; a mismatch is reported only if they do not |
| IndexScan.CoveringChunk | src/snapshot/cas_index.rs:697-700 | the chunks an in-range request covers all exist |
| IndexScan.FillBuffer | src/snapshot/cas_index.rs:701-710 | a chunk is filled completely or refused |
| IndexScan.ReadChunk | src/snapshot/cas_index.rs:698-720 | a chunk that matches its fact extends the window of the fact's body |
| IndexScan.ReadChunks | src/snapshot/cas_index.rs:688-729 | success returns the requested slice of the body the fact describes, even if the file changed; no index or offset is out of range |
| IndexCache.SumChange | src/snapshot/cas_index.rs:52-77 | changing one charge changes the total by the difference |
| IndexCache.Cache.constructor | src/snapshot/cas_index.rs:136-150 | an empty cache is charged its fixed base |
| IndexCache.Cache.Release | src/snapshot/cas_index.rs:73-77 | a charge is returned exactly when its last holder lets go |
| IndexCache.Cache.Settle | src/snapshot/cas_index.rs:73-77 | nothing held by the cache or by anyone outside is uncharged |
| IndexCache.Cache.Tick | src/snapshot/cas_index.rs:124-127 | the clock saturates |
| IndexCache.Cache.Oldest | src/snapshot/cas_index.rs:108-115 | finds a slot that has gone unused longest, or that there is none |
| IndexCache.Cache.EvictOldest | src/snapshot/cas_index.rs:108-122 | clears exactly one least recently used slot; readers' charges stay |
| IndexCache.Cache.Get | src/snapshot/cas_index.rs:152-162 | finds the fact of a key exactly if it is cached, makes it the newest and holds it |
| IndexCache.Cache.Reserve | src/snapshot/cas_index.rs:164-175 | a grant keeps the total within the limit; refusal means the cache is empty and what is held outside leaves no room; terminates |
| IndexCache.Cache.Publish | src/snapshot/cas_index.rs:177-198 | afterwards the key is cached once; a duplicate is dropped with its charge; at most 128 entries with distinct keys |
| IndexCache.Cache.MakeRoom | src/snapshot/cas_index.rs:190-192 | evicts only from a full cache |
| IndexCache.Cache.Place | src/snapshot/cas_index.rs:193-196 | the new fact takes a free slot as the newest |
| IndexRead.ChargeCovers | src/snapshot/cas_index.rs:557-569 | the charge covers the digests of every file that may be indexed |
| IndexRead.Scan | src/snapshot/cas_index.rs:308-323 | the whole-file contract |
| IndexRead.ReadWarm | src/snapshot/cas_index.rs:549-553 | a warm read is exact |
| IndexRead.ReadCold | src/snapshot/cas_index.rs:554-611 | a cold or refused read is exact, and leaves no hold behind |
| IndexRead.BuildIndex | src/snapshot/cas_index.rs:584-611 | only a successful whole scan publishes a fact, and the fact is its body's |
| IndexRead.ReadInput | src/snapshot/cas_index.rs:515-611 | cold, warm or fallback: a successful read is the requested slice of a body with the fixed digest and size; the cache stays trustworthy |
| IndexRead.PrepareOutput | src/snapshot/cas_index.rs:234-248 | the output is clamped to the end of the file, and refused exactly above 64 MiB |
| IndexRead.ReadWithCache | src/snapshot/cas_index.rs:447-476 | a missing file is a miss; any other answer is exact |
| IndexRead.ReadMany | src/snapshot/cas_index.rs:407-476 | in any sequence of reads of files rewritten at will every answer is exact and no hold is left |
| IndexRead.ExactUnique | src/snapshot/cas_index.rs:407-422 | indexed and strict reads of the same range agree |
| Coordination.KeyInjective | src/snapshot/coordinator.rs:440-443 | two requests share a key only if digest and size are the same |
| Coordination.JoinKeeps | src/snapshot/coordinator.rs:444-452 | joining keeps the invariant |
| Coordination.StartKeeps | src/snapshot/coordinator.rs:453-475 | starting a flight keeps the invariant |
| Coordination.LeaveKeeps | src/snapshot/coordinator.rs:161-176 | a departing waiter keeps the invariant |
| Coordination.LeaveDeserts | src/snapshot/coordinator.rs:161-176 | a flight is cancelled only once its last waiter has left |
| Coordination.TakeKeeps | src/snapshot/coordinator.rs:187-202 | completion or death of a leader keeps the invariant |
| Coordination.SendKeeps | src/snapshot/coordinator.rs:204-211 | sending to one taken waiter keeps the invariant |
| Coordination.RetireAnswers | src/snapshot/coordinator.rs:204-227 | a finished job has given every live waiter of its flight its one result |
| Coordination.RetireKeeps | src/snapshot/coordinator.rs:204-227 | ending a finished job keeps the invariant |
| Coordination.EveryRun | src/snapshot/coordinator.rs:161-227 | in every run each live waiter is listed in its own live flight, or in its leader's hands, or has exactly one answer from a leader with the same digest and size |
| Coordination.Isolation | src/snapshot/coordinator.rs:157-201 | a late completion, death or departure never removes, answers or cancels another flight, even under the same key |
| Coordination.FreshNumbers | src/snapshot/coordinator.rs:137-151 | one action introduces only numbers above the counter, and takes no answer back |
| Coordination.NeverReused | src/snapshot/coordinator.rs:137-151 | in every run, a number given to a waiter or a flight stood for nothing in any earlier state |
| FetchCoordination.ProcessAdmission.constructor | src/snapshot/coordinator.rs:80-86 | the process pools start full |
| FetchCoordination.FetchCoordinator.constructor | src/snapshot/coordinator.rs:229-240 | a coordinator starts empty |
| FetchCoordination.FetchCoordinator.NobodyLost | src/snapshot/coordinator.rs:161-227 | at every moment of the object's life nobody is lost |
| FetchCoordination.FetchCoordinator.DrawId | src/snapshot/coordinator.rs:141-151 | numbers grow by one, and exhaustion is an error, not a wrap |
| FetchCoordination.FetchCoordinator.AdmitJob | src/snapshot/coordinator.rs:93-110 | a local and a process permit are taken, or neither |
| FetchCoordination.FetchCoordinator.AdmitCaller | src/snapshot/coordinator.rs:93-110 | the same for callers |
| FetchCoordination.FetchCoordinator.Enter | src/snapshot/coordinator.rs:411-487 | a caller joins or starts a flight or is refused; permits taken are exactly those held |
| FetchCoordination.FetchCoordinator.Join | src/snapshot/coordinator.rs:444-487 | the lock section is one step of the protocol |
| FetchCoordination.FetchCoordinator.Launch | src/snapshot/coordinator.rs:453-475 | a flight starts only with a job permit and a generation |
| FetchCoordination.FetchCoordinator.DropWaiter | src/snapshot/coordinator.rs:161-176 | dropping a registration is the departure step and returns the caller's permits |
| FetchCoordination.FetchCoordinator.TakeWaiters | src/snapshot/coordinator.rs:187-202 | detaching the guard's own flight is the take step |
| FetchCoordination.FetchCoordinator.Complete | src/snapshot/coordinator.rs:204-227 | every live waiter of the flight gets exactly this result, once, and the job's permits return |
| CasWorker.PutConserves | src/snapshot/cas_worker.rs:107-112 | every step conserves all pools across scopes |
| CasWorker.Affordable | src/snapshot/cas_worker.rs:325-378 | no step takes a permit it has not found free |
| CasWorker.AfterOk | src/snapshot/cas_worker.rs:116-178 | every step keeps byte, phase, permits and run count consistent |
| CasWorker.EveryRun | src/snapshot/cas_worker.rs:320-440 | the invariants hold at every moment of every interleaving |
| CasWorker.NeverAfterCancel | src/snapshot/cas_worker.rs:114-154 | the work runs at most once, and never once cancelling has won |
| CasWorker.PermitsUntilDestroyed | src/snapshot/cas_worker.rs:384-440 | in every state of every run after its dispatch, a job holds all four permits unless it has been destroyed |
| CasWorker.LocalFirst | src/snapshot/cas_worker.rs:347-378 | whoever occupies the process holds its scope's slot |
| CasWorker.Progress | src/snapshot/cas_worker.rs:347-378 | while any request lives, some request can move on: no deadlock |
| CasWorker.WaitingEnds | src/snapshot/cas_worker.rs:320-440 | without new arrivals every run ends within the steps its requests have left |
| Numerals.CountsRoundTrip | src/snapshot/frames.rs:1208-1229 | counters and their texts correspond one to one |
| Pagination.CheckEntry | src/snapshot/directory.rs:74-110 | accepts exactly the well-formed entries |
| Pagination.ValidatePage | src/snapshot/directory.rs:37-114 | accepts exactly the pages with a sound header, well-formed entries and increasing names |
| Pagination.Progress.constructor | src/snapshot/directory.rs:116-132 | nothing but perhaps the root is fixed at the start |
| Pagination.Progress.Accept | src/snapshot/directory.rs:134-173 | accepts exactly a page that agrees with what was fixed, starts where the last ended and stays within the count; a refusal changes nothing |
| Pagination.AdmitsContinues | src/snapshot/directory.rs:134-173 | the running checker admits exactly the pages that continue the listing |
| Pagination.ListDirectory | src/snapshot/reader.rs:743-779 | for every server this terminates, and returns the merged entries exactly when the pages are a whole listing |
| Pagination.ListingSound | src/snapshot/directory.rs:37-173 | a whole listing has strictly increasing names, one root and count, exactly the announced number of entries and at most one page more |

## Left out

- HTTP transport, retries, authorisation, leases and wire-format checks of descriptors, chunks and errors.
- Wall-clock deadlines, tracing, profiling counters and meters; a collection's time and allocation budgets appear as a refusal that may come at any moment before the first deletion.
- Symlink, inode and device identity checks, and file locks as such; the fences they implement are steps of `CacheSteps`.
- Workspace pins inside the commit protocol; the commit is modelled for a store without an owner, and retention for owners as discovery reports them.
- The transaction lock of a hydration, the reservation it takes before revoking, and concurrent fetch lanes; a fetch delivers arbitrary bytes, which the store verifies.
- Other writers of the shared content directory; they only ever put verified content under its digest.
- The descriptor's own encoding and the scope path syntax of the closure, which are codec parameters.
- Saturation of the closure validator's allocation counters at the machine word.
- Byte lengths of names with characters outside ASCII.
- A completion marker of which only the revision field decodes; it is taken as not decoding.
- A journal batch after its first failed write; every caller gives it up then.
- Closed semaphores in the worker, and its access check as more than a refusal.
- The coordinator's path without metadata pages, where every caller leads its own fetch, and the path membership check before joining.
- Small-object reads, content budgets and the owned range buffers around the index.
- CacheSweep.ManagedScope.Collect: the ledger record itself is not counted among the files, whose control allowance covers it.
- Hydration.Hydrate: the journal records appended while fetching are not part of it; the journal is not audited, and `Journal` models it by itself.
- DurableCommit.DurableStore.FinishCommit: the reported counts of fetched, resumed and repaired files are not modelled.
- CasWorker.EveryRun: the shared byte and the semaphores are modelled as a state machine over their atomic steps, not as objects updated in place.
