# s3gw: the consistency of a bucket, its catalog, its caches and its upload queue

s3gw mounts an S3 bucket as a file system. Between the kernel and S3 it keeps five things in step:
the buffers of open files, an asynchronous upload queue, a SQLite catalog of keys, two in-memory
caches over that catalog, and a disk cache with eviction. This project models those parts of the Go
code in Dafny and proves what they keep true.

`dafny verify dfyconfig.toml` checks everything.

## How the model is laid out

Code that updates objects step by step is a class with methods; what goroutines do to one another is
a transition system whose runs are all interleavings; Go's string functions and the meaning of SQL
statements and S3 listings are functions.

| file | what it models |
|---|---|
| `Buffers.dfy` | positioned writes and reads of a temp file |
| `WriteBack.dfy`, `WriteBackProofs.dfy`, `WriteBackTheorems.dfy` | open handles, staging files, the bounded queue, N workers and Stop as one transition system; its invariant, event by event; what holds of every run |
| `WriteBackFiles.dfy` | staging files are on disk as long as a handle or a job needs them |
| `WriteBackThreads.dfy` | Flush, Submit, process, drain and worker as imperative code whose every shared action is an event of that system, with any events of the others in between |
| `Keys.dfy` | `path.Dir`, `path.Base` and `SplitKeyExported`, character by character |
| `Store.dfy` | the table: upserts, deletes, `LIKE`, ordered listings |
| `NegCache.dfy`, `DirCache.dfy` | the two caches |
| `Coherence.dfy`, `Catalog.dfy` | what the caches owe the table, and the catalog's methods |
| `Listing.dfy`, `Sync.dfy` | ListObjectsV2 with a delimiter as a function of the bucket, pages, and the passes that ingest them |
| `Dir.dfy`, `DirStream.dfy` | name resolution, directory operations, the two directory streams |
| `Staleness.dfy` | reads and cache fills of the catalog interleaved with changes of the table |
| `DiskCache.dfy`, `CacheAge.dfy` | metadata, eviction and manager one call at a time; how old a copy can be over any sequence of calls |
| `EvictionRaces.dfy` | files and rows under Put, Invalidate, Get and several runs of eviction at once |
| `AtomicFiles.dfy` | one file's content under concurrent writes, reads and deletes |
| `Freshness.dfy` | what a read returns, over the disk cache and S3 |
| `FlushReads.dfy` | what it returns in write-back mode, by where the cached bytes came from |

## Assumptions

- Time is an integer that never decreases; a call that reads the clock gets it as `now`.
- `os.CreateTemp` never repeats a name, so temp files are numbered. SHA-256 of keys does not collide,
  so a cache file is named by its object.
- S3's PUT, COPY and DELETE are atomic, and one that fails leaves the bucket as it was. S3 refuses a
  plain copy of an object onto itself.
- Whether a call into the operating system, the databases or S3 succeeds is a parameter of the
  operation; a theorem that does not mention it holds for every choice.
- Water marks are the floors of 9/10 and 8/10 of the maximum.
- Sizes, times and counters are unbounded; the code's are 64-bit.
- Strings stand for Go's byte strings.
- The contents of Go's `container/list` are a sequence of heap objects; the nested map holds the same
  objects.
- SQLite's text comparison is by bytes, and its `LIKE` ignores the case of ASCII letters.
- The first page of a listing shows more than a directory's own marker if there is more.

## Where the code and its documents differ

The documents say that writes always reach S3 before they are cached, that the time-to-live is
renewed when an ETag matches, and that eviction holds the manager's write lock. The code caches a
write-back flush first (internal/fuse/handle.go:234-242), `Touch` renews only the time of last use
(internal/cache/metadata.go:98), and `evictOnce` takes no lock (internal/cache/evictor.go:53-111).
The model follows the code.

## What turned out false, and exactly when it is true

- Splitting a key and joining the parts again is not the identity: `Keys.SplitsExactly` gives the
  keys for which it is. It is for every clean key; among the others a few are by accident.
- `Catalog.Lookup` is not the table's lookup: `Answers.AnswerExact`, and the inputs that show it,
  `Answers.TwinsMislead`. `DirNode.Lookup` repairs it for
  rows whose keys split; for all rows `Dir.StageExactly` says when it does, and
  `Dir.UnsplitRowMisleads` gives a row that misleads it.
- `DELETE ... LIKE` deletes by prefix only if the prefix has no wildcard and no letter:
  `Table.LikeIsPrefix`.
- A delete whose preceding read failed can leave a wrong listing cached: `Coherence.BlindDeleteBreaks`.
- Rows ingested without clearing the caches (the background sync and negative entries, a refresh that
  fails on a later page): `Coherence.BatchAgainstNegatives`, `Coherence.BatchAgainstListing`. Of all
  the catalog's calls these two and that delete are the only ones: `Catalog.Perform`.
- The caches are not coherent under interleaving: a fill overtaken by a write leaves one wrong until
  its TTL (`Staleness.FillOvertaken`). Where writers have forgotten what they wrote, an entry is wrong
  exactly if a write came between the read it rests on and its fill, and was still in force:
  `Staleness.NegativeWrongExactly`, `Staleness.ListingWrongExactly`.
- A read on a clean handle does not always return the last flush in write-back mode, nor else S3's
  current object: `FlushReads.OldForGood`. It misses the flush exactly if its copy was evicted and the
  object fetched before S3 had the flush: `FlushReads.MissesExactly`.
- Files and metadata rows need not agree while evictions run beside Put: exactly when they do not is
  said by `EvictionRaces.FileWithoutRow` and `EvictionRaces.RowWithoutFile`. Several runs together
  free more than one would: `EvictionRaces.TwoRunsTakeMore`.
- A flush that is still under way when the queue is stopped can leave a job nobody takes
  (`WriteBackTheorems.LateSubmitCanStrand`), exactly if it queues the job after the last worker has
  gone: `WriteBackTheorems.StrandedExactly`.
- Eviction makes no progress exactly when not one listed entry can go: `DiskCache.StuckExactly`.
- S3's directory stream can end early, and hides keys with a doubled slash that the catalog shows:
  `DirStream.EmittedAll`, `DirStream.ReadOutsAgree`.

## Model

| member | source | states |
|---|---|---|
| Buffers.ReplayIsOverlay | internal/fuse/handle.go:162-173 | a temp file holds exactly the overlay of its writes on an empty zero-filled file: the latest write covering a byte wins, holes are zero, the length is the furthest end written |
| Buffers.WriteThenRead | internal/fuse/handle.go:54-66 | what was written at an offset is read back whole, bytes outside are untouched |
| WriteBackProofs.StepKeepsInv | internal/catalog/writeback.go:63-160 | every event of a handle, a worker or Stop keeps the invariant that ties files, handles, queue, workers and history together |
| WriteBackTheorems.RunKeepsInv | internal/fuse/handle.go:175-339 | so it holds in every state of every interleaving |
| WriteBackTheorems.Conservation | internal/fuse/handle.go:195-285 | for every dirty Flush that returned 0, S3 accepted its own file under its key with exactly its bytes, or they sit unmodified at their staging path, under any interleaving, failures and Stop; an equal PUT of another Flush does not do |
| WriteBackTheorems.StagedWritesFixed | internal/fuse/handle.go:200-222 | what a staged Flush answers for are the writes its handle had made at the rename, whatever is written later |
| WriteBackTheorems.StagingFilesOnlyRemoved | internal/catalog/writeback.go:122-128 | no event changes a staging file; it goes only by a recorded removal |
| WriteBackTheorems.RemovalsJustified | internal/fuse/handle.go:216-220 | every removal of a staging file follows the PUT of that very file, whole and under its key, or belongs to a Flush that never returned 0 |
| WriteBackTheorems.BufferFidelity | internal/fuse/handle.go:60-66 | in every run a handle's buffer, and the body of every PUT, is the overlay of the handle's writes since open or since the last staged flush, failed ones as far as they got |
| WriteBackTheorems.FailedSyncOffersAgain | internal/fuse/handle.go:293-297 | a failed synchronous upload leaves the handle dirty with the same bytes, and what the next Flush PUTs or stages is exactly all the handle has written |
| WriteBackTheorems.QueueAccounting | internal/catalog/writeback.go:70-141 | submitted jobs are exactly the queued, the held and the resolved ones, without overlap; no two workers hold one job; the queue respects its capacity; at most maxRetries + 1 uploads per job |
| WriteBackTheorems.OutcomesFinal | internal/catalog/writeback.go:103-141 | a job is taken once and its one outcome never changes |
| WriteBackTheorems.StrandedExactly | internal/catalog/writeback.go:63-101 | when Stop returns, a job is left in the queue if and only if one was queued after the last worker had gone; a late job with a worker still there is taken |
| WriteBackTheorems.StopLeavesNothing | internal/catalog/writeback.go:63-68 | so if nothing was queued after stopCh closed, the queue is empty and every job has its outcome |
| WriteBackTheorems.LateSubmitMeaning | internal/catalog/writeback.go:63-77 | the condition of that is about the run's events: a job was queued after Stop began |
| WriteBackTheorems.LateSubmitCanStrand | internal/catalog/writeback.go:92-101 | that happens: a concrete run whose Flush returned 0 and whose job no worker is left to take |
| WriteBackTheorems.NoDeadlock | internal/catalog/writeback.go:79-120 | once stopCh is closed a worker with nothing it can do has exited |
| WriteBackTheorems.StopReturns | internal/catalog/writeback.go:63-68 | with the handles quiet the workers take at most a fixed number of steps |
| WriteBackTheorems.StopCompletes | internal/catalog/writeback.go:63-101 | together: with only workers acting after Stop, the run is bounded and cannot go on exactly when all have gone; then the queue is empty, and every job has its outcome, unless a job was queued after the last had gone |
| WriteBackTheorems.OneWorkerPutsInOrder | internal/catalog/writeback.go:79-90 | with one worker, the PUTs from the queue stand in S3's log in the order their jobs were submitted, each the whole staged file of its job, and these are all the PUTs the worker made |
| WriteBackTheorems.WorkerPutPositions | internal/catalog/writeback.go:122-127 | with any number of workers, each delivered job is one PUT in S3's log, of its whole staged file, and every PUT a worker made is one of these |
| WriteBackFiles.UndeliveredKept | internal/catalog/writeback.go:103-141 | in every run a submitted job that has not been delivered, be it queued, in work, aborted or exhausted, has its whole staging file on disk |
| WriteBackThreads.Threads.FlushHandle | internal/fuse/handle.go:175-264 | Flush, as a thread of a run with any interference: 0 for a dirty handle means it took charge of exactly the handle's temp file and writes. Staged with a new temp file, it answers 0 if and only if the queue had room at its Submit or S3 took the file, and the file is recorded as promised or refused accordingly, its job submitted, its file kept or removed; EIO otherwise leaves the handle as it was, or without its temp file, each exactly when |
| WriteBackThreads.Threads.OpenFile | internal/fuse/handle.go:37-52 | an empty temp file of its own; a created file is dirty from the start, so it is uploaded even if never written |
| WriteBackThreads.Threads.ReleaseFile | internal/fuse/handle.go:327-339 | the temp file goes, staging files stay |
| WriteBackThreads.Threads.SyncUpload | internal/fuse/handle.go:287-321 | the upload of the temp file, as events of a run |
| WriteBackThreads.Threads.SyncUploadFromPath | internal/fuse/handle.go:266-285 | the fallback for a full queue: 0 if and only if S3 takes the file, which is always still there; afterwards it is gone unless it could not be opened or removed |
| WriteBackThreads.Threads.WriteBytes | internal/fuse/handle.go:162-173 | 0 exactly if the temp file is open and all was written; a write that fails midway leaves its part in the file, and a clean handle clean |
| WriteBackThreads.Threads.Process | internal/catalog/writeback.go:103-141 | process is a thread of a run that ends with the job resolved, each outcome exactly when: no client without attempts; delivered if and only if S3 took the last attempt, after which its own file is in S3's log and gone from disk if it could be removed; exhausted if and only if maxRetries + 1 attempts failed; aborted only while stopping, and then at the first retry whose select picks it; every earlier attempt failed |
| WriteBackThreads.Threads.Drain | internal/catalog/writeback.go:92-101 | drain returns with the worker exited and the queue seen empty |
| WriteBackThreads.Threads.RunWorker | internal/catalog/writeback.go:79-90 | worker returns only after draining; otherwise it waits with nothing to receive |
| Keys.SplitsExactly | internal/catalog/sync.go:277-287 | for every key: parent and name together are the key without a trailing slash if and only if its segments before the name are left alone by cleaning (with the two accidental exceptions) |
| Keys.ReduceCancels | internal/catalog/sync.go:277-287 | what cleaning does to any path's elements: empty and "." make no difference, ".." takes back the name before it and is dropped at a rooted front |
| Keys.SplitChild | internal/catalog/sync.go:277-287 | splitting prefix + name, or that with a slash, gives back prefix and name, for a clean prefix |
| Keys.CleanKeySplits | internal/catalog/sync.go:277-287 | a clean key splits into a clean directory and a plain name, losing nothing |
| Keys.SplitDetermines | internal/catalog/sync.go:277-287 | parent, name and kind determine a key that splits |
| Keys.DoubledSlashCollides | internal/catalog/sync.go:277-287 | other keys are not determined: a doubled slash splits like a single one |
| Keys.CleanHasNoDoubledSlash | internal/catalog/sync.go:277-287 | no clean key goes on with a second slash after a prefix |
| Keys.PlainMeans | internal/catalog/sync.go:277-287 | a segment is a plain name if and only if cleaning keeps it below a root |
| Table.Store.ListDir | internal/catalog/store.go:109-132 | the directory's rows, each once, directories first, then by name |
| Table.ListingUnique | internal/catalog/store.go:109-132 | where keys split there is only one such listing |
| Table.LeqMeans | internal/catalog/store.go:112 | the order of names is by the first byte that differs |
| Table.Store.PutBatch | internal/catalog/store.go:167-194 | the entries upserted in order |
| Table.PutRowsRow | internal/catalog/store.go:152-194 | a batch overrides the rows of its keys, the last entry of a key wins, no row goes away, other rows and buckets stay |
| Table.LikePrefix | internal/catalog/store.go:205 | the pattern matches every key under the prefix |
| Table.LikeIsPrefix | internal/catalog/store.go:205 | it matches only those if and only if the prefix has no wildcard and no ASCII letter |
| Table.LikeBegins | internal/catalog/store.go:205 | for a prefix without %, the keys that match are exactly those that begin with it but for the case of letters, _ standing for anything |
| Table.LikeSplits | internal/catalog/store.go:205 | a % divides the pattern: a match of what is before it, anything, a match of what is after it |
| Table.LikePlain | internal/catalog/store.go:205 | a pattern without % matches character by character |
| Table.Store.KnownDirs | internal/catalog/store.go:255-274 | exactly the directory keys of the bucket, each once |
| NegCache.NegCache.Contains | internal/catalog/negcache.go:40-56 | true exactly for a key added less than a TTL ago and not removed; an expired entry is dropped on the way |
| NegCache.NegCache.Add | internal/catalog/negcache.go:58-87 | refreshes or appends, then drops only the least recently added beyond maxSize; map and list stay in bijection, no inner map empty, list in order of expiry |
| NegCache.NegCache.Remove | internal/catalog/negcache.go:89-97 | exactly that key goes |
| NegCache.NegCache.RemovePrefix | internal/catalog/negcache.go:99-111 | exactly the keys of the bucket under the prefix go, in whatever order the map is ranged over |
| NegCache.NegCache.RemoveLocked | internal/catalog/negcache.go:117-127 | one entry leaves map and list, and its bucket if that becomes empty |
| NegCache.NegCache.Reap | internal/catalog/negcache.go:129-154 | though it stops at the first live entry, exactly the expired entries go |
| NegModel.AgedPrefix | internal/catalog/negcache.go:139-150 | in order of expiry the expired entries are a prefix |
| NegModel.RefreshedItems | internal/catalog/negcache.go:67-71 | moving a refreshed entry to the back keeps the order of expiry and one entry per key |
| NegModel.LiveLookup | internal/catalog/negcache.go:51-55 | a key is live exactly while its one entry has not expired |
| NegCache.IndexedDropped | internal/catalog/negcache.go:119-127 | unlinking an entry keeps map and list in bijection |
| DirCache.DirCache.Get | internal/catalog/dircache.go:30-44 | the listing, up to and including the moment it expires |
| DirCache.DirCache.Set | internal/catalog/dircache.go:46-60 | that listing for a TTL, all others unchanged |
| DirCache.DirCache.Invalidate | internal/catalog/dircache.go:62-68 | that listing goes, all others unchanged |
| DirCache.DirCache.InvalidateAll | internal/catalog/dircache.go:70-74 | the bucket's listings go, all others unchanged |
| DirCache.DirCache.Reap | internal/catalog/dircache.go:88-100 | exactly the expired listings go, and no bucket is left empty |
| Coherence.ListingsKept | internal/catalog/catalog.go:130-173 | listings stay right if those of every changed directory are gone |
| Coherence.BatchElsewhere | internal/catalog/catalog.go:139-152 | a batch changes no directory but the parents of its entries |
| Coherence.RefreshKeeps | internal/catalog/sync.go:255-270 | a completed SyncPrefix leaves both caches right |
| Coherence.BlindDeleteBreaks | internal/catalog/catalog.go:154-164 | a delete whose read failed leaves them right if and only if there was no row or no cached listing of its directory |
| Coherence.BatchAgainstNegatives | internal/catalog/sync.go:134 | rows ingested without clearing leave the negative cache right if and only if it held none of their keys |
| Coherence.BatchAgainstListing | internal/catalog/sync.go:255-259 | and a cached listing if and only if the batch says nothing new about that directory |
| Coherence.UnclearedBatch | internal/catalog/sync.go:255-259 | and both caches, for a batch of one directory, if and only if both hold |
| Answers.NamedChild | internal/catalog/catalog.go:95-103 | a listing searched by name gives the directory if there is one, else the file |
| Answers.AnswerExact | internal/catalog/catalog.go:87-117 | Catalog.Lookup gives the table's answer unless the parent's listing is live and the other of file and directory is there: if and only if, for both kinds of key |
| Answers.TwinsMislead | internal/catalog/catalog.go:95-117 | it happens in a coherent catalog: a file next to a directory of its name is answered with the directory, a missing directory with the file |
| Catalog.Catalog.Lookup | internal/catalog/catalog.go:87-117 | a negative hit, a live listing that has the name, or the row; a miss goes into the negative cache; coherence kept |
| Catalog.Catalog.ListDir | internal/catalog/catalog.go:67-85 | the table's listing, cached or not, and cached from then on |
| Catalog.Catalog.Put | internal/catalog/catalog.go:130-137 | row, negative cache and parent's listing, together coherent |
| Catalog.Catalog.PutBatch | internal/catalog/catalog.go:139-152 | all rows, all their keys out of the one cache, all their parents out of the other |
| Catalog.Catalog.ForgetBatch | internal/catalog/catalog.go:143-150 | the loop with seenParents drops every key and every parent |
| Catalog.Catalog.Delete | internal/catalog/catalog.go:154-164 | coherent afterwards if and only if the row could be read, or nothing was deleted, or nothing was cached |
| Catalog.Catalog.DeletePrefix | internal/catalog/catalog.go:166-173 | a row goes if and only if it is of the bucket and its key matches the pattern, so every row under the prefix does; coherence kept although LIKE may take more |
| Catalog.Catalog.SyncPrefix | internal/catalog/catalog.go:175-177 | after a failure the pages before it are in the table; coherent after success, and after a failure if and only if those pages contradict neither cache |
| Catalog.Catalog.ReapNegatives | internal/catalog/negcache.go:129-154 | keeps coherence, and drops exactly what has expired |
| Catalog.Catalog.ReapListings | internal/catalog/dircache.go:80-103 | keeps coherence, and drops exactly what has expired |
| Catalog.Catalog.CachesAgree | internal/catalog/catalog.go:87-103 | what the caches say about a key is true of the table |
| Catalog.Perform | internal/catalog/catalog.go:67-177 | any of these calls, however it fails, keeps coherence if and only if it is not an unread delete under a cached listing, nor a refresh whose pages before a failure contradict a cache |
| Catalog.Session | internal/catalog/catalog.go:67-177 | coherence over every run of these calls, failures included, where deletes can read their row and refreshes reach their last page or fail on their first |
| Listing.IngestsAgree | internal/catalog/sync.go:161-195 | syncOnePrefix, SyncPrefix and ingestListResult make the same rows of the same page |
| Listing.EntriesAreListed | internal/catalog/sync.go:228-253 | over any pagination the rows made are those of the one unpaged listing |
| Listing.PagedIngest | internal/catalog/sync.go:143-211 | ingesting all pages leaves the old rows overridden by the unpaged listing, no row removed |
| Listing.PagesDoNotMatter | internal/catalog/sync.go:213-265 | two paginations of one bucket leave the same table |
| Listing.PagesBound | internal/catalog/sync.go:147-208 | a pass over a frozen bucket ends: with every page but the last non-empty there are at most as many pages as keys, and one more |
| Listing.EntriesWellFormed | internal/fuse/dir.go:159-196 | every row made of a page is split from its key and in the directory that was listed |
| Listing.SyncedDirectory | internal/catalog/sync.go:213-265 | a directory that had no rows then has exactly what S3 lists |
| Listing.IngestedRow | internal/catalog/sync.go:228-253 | field by field: after ingesting any pagination a file's row has its key, directory, name and the object's size, ETag and time, a name with keys below it has a directory row, other rows of the name are as before |
| Sync.RowsOf | internal/catalog/sync.go:159-195 | a page's rows, common prefixes first |
| Sync.SyncManager.SyncOnePrefix | internal/catalog/sync.go:143-211 | ingests pages in order up to the last, the first error or stopCh, whichever is first, and counts their rows |
| Sync.SyncManager.SyncPrefix | internal/catalog/sync.go:213-271 | ingests pages in order; only after the last one the caches are cleared; coherent then |
| Sync.SyncManager.SyncBucket | internal/catalog/sync.go:95-138 | the root, then every directory known after it, each once and as far as it got; completes if and only if the root got through and stopCh was not closed before the last of them; listings dropped exactly then, so that they are right; rows only added or overridden |
| Dir.StageIsTable | internal/fuse/dir.go:50-83 | directory row, children, file row asked through coherent caches give the answer of the same steps on the table, whatever is cached, where rows with the name have keys that split |
| Dir.StageExactly | internal/fuse/dir.go:50-83 | with any rows: the stage answers what the table answers if and only if there is a directory, or neither call is misled by what a live listing shows first under the name |
| Dir.DirNode.LookupCatalog | internal/fuse/dir.go:50-83 | what the stage answers, with time passing between its two calls, and exactly when that is the table's answer |
| Dir.UnsplitRowMisleads | internal/catalog/catalog.go:98 | with a row whose key does not split it need not |
| Dir.ShowsMeans | internal/fuse/dir.go:90-97 | the fallback's page is non-empty if and only if something beyond a marker is under the prefix |
| Dir.DirNode.LookupS3 | internal/fuse/dir.go:85-129 | the fallback answers what the bucket has, and stores it field by field: the object's row, or a row for everything on the directory's page |
| Dir.DirNode.Lookup | internal/fuse/dir.go:50-129 | the stage's answer if it has one, else the bucket's; every combination of failures; coherence kept |
| Dir.DirNode.IngestPage | internal/fuse/dir.go:159-196 | the page's rows go into the catalog, coherence kept |
| Dir.DirNode.Readdir | internal/fuse/dir.go:198-233 | the table's listing if it has one that can be read, else that of a fresh sync; S3's own stream exactly if that sync fails or its listing cannot be read; how far the sync got |
| Dir.FirstListing | internal/fuse/dir.go:207-232 | a directory listed for the first time shows an entry for each child in S3 and nothing else |
| Dir.SyncedLookup | internal/fuse/dir.go:50-83 | a table that has ingested a directory in any pagination answers for each name what the bucket has, all three values of a file |
| Dir.SyncedAgrees | internal/fuse/dir.go:85-129 | that is what the fallback would answer if and only if the name is not a directory with nothing but its marker |
| Dir.DirNode.Create | internal/fuse/dir.go:256-291 | exactly a new row of size 0 without ETag, visible at once unless the name is a directory |
| Dir.DirNode.Mkdir | internal/fuse/dir.go:235-254 | marker and exactly its row, or neither if the PUT fails |
| Dir.DirNode.Unlink | internal/fuse/dir.go:293-304 | S3 first; a failed delete changes nothing |
| Dir.DirNode.Rmdir | internal/fuse/dir.go:306-336 | refused exactly if the bucket has anything beyond the marker; afterwards nothing is under the prefix in S3 or the table, and a row is gone if and only if it is of the bucket and matches the pattern, which without % only keys that begin with the directory's do |
| Dir.DirNode.Rename | internal/fuse/dir.go:338-367 | copy, delete, then both rows, each if the catalog takes it; a failed copy, or one onto itself, changes nothing |
| DirStream.CatalogDirStream.Next | internal/fuse/dirstream.go:48-55 | entries in order, an error past the end |
| DirStream.ReadCatalog | internal/fuse/dirstream.go:44-55 | read to the end, all entries of the listing |
| DirStream.S3DirStream.HasNext | internal/fuse/dirstream.go:72-86 | says no exactly when nothing more will come out before the first page without entries |
| DirStream.S3DirStream.FetchPage | internal/fuse/dirstream.go:99-145 | the next page's entries, filtered; done after the last page or an error |
| DirStream.ReadS3 | internal/fuse/dirstream.go:72-95 | read to the first no, all pages' entries up to the first page without any |
| DirStream.EmittedAll | internal/fuse/dirstream.go:72-86 | that is all there is if and only if no page without entries comes before one with |
| DirStream.StreamsAgree | internal/fuse/dirstream.go:99-135 | S3's pages and the catalog's listing after SyncPrefix hold the same multiset of (name, inode, kind) if and only if no key goes on with a second slash |
| DirStream.ReadOutsAgree | internal/fuse/dirstream.go:28-145 | the two streams read out show the same if and only if both conditions hold |
| Staleness.NextKeepsInv | internal/catalog/catalog.go:67-117 | every step keeps: what a call or cache holds was true of the version it read |
| Staleness.BoundedStaleness | internal/catalog/catalog.go:72-80 | over every interleaving, an answer served from either cache was the table's at a moment no longer ago than the TTL plus the time between its read and its fill |
| Staleness.FillOvertaken | internal/catalog/catalog.go:106-115 | coherence can break under interleaving: a concrete run with a key cached as absent that has a row |
| Staleness.ListingOvertaken | internal/catalog/catalog.go:72-80 | and a concrete run with a cached listing that lacks a row to the last moment of its TTL |
| Staleness.NegativeWrongExactly | internal/catalog/catalog.go:106-137 | in every run a key cached as absent goes back to one lookup's read and fill, and is wrong if and only if a row was put since the read and not taken away; where every write has been followed by forgetting its key, if and only if that was so already at the fill |
| Staleness.ListingWrongExactly | internal/catalog/catalog.go:72-80 | and a cached listing, if and only if the directory is not what it was at the read; with that discipline, if and only if it had changed between read and fill |
| CacheEntries.EntryKeyDetermines | internal/cache/metadata.go:25-27 | for bucket names without slashes the metadata key determines bucket and key |
| DiskCache.MetadataStore.TotalSize | internal/cache/metadata.go:107-121 | the sum of all sizes |
| DiskCache.MetadataStore.ListByLastAccessed | internal/cache/metadata.go:123-149 | the least recently used entries in order, each once, up to the limit |
| DiskCache.Evictor.EvictOnce | internal/cache/evictor.go:53-111 | nothing at or below high water; else the listed entries in order while the total is above target, each tried while still needed; the running total stays the sum of sizes; failures are passed over; above target at the end only if all listed were tried |
| DiskCache.StuckExactly | internal/cache/evictor.go:83-90 | a run of evictOnce above high water, with any failures, frees nothing if and only if not one listed entry can go; EvictOnce states it of its own run |
| DiskCache.AllTried | internal/cache/evictor.go:77-103 | without failures, trying all listed takes a hundred entries, or all |
| DiskCache.EvictRepeatedly | internal/cache/evictor.go:53-111 | ceil(n / 100) calls bring n entries to high water |
| DiskCache.Manager.Get | internal/cache/manager.go:58-86 | miss, valid or expired by TTL and mode; a row without a file is dropped; only a valid hit is a use |
| DiskCache.Manager.Put | internal/cache/manager.go:88-118 | file, then row, and whether eviction is set off; keeps files and rows in agreement |
| DiskCache.Manager.Invalidate | internal/cache/manager.go:120-126 | both go; keeps agreement |
| CacheAge.Session | internal/cache/manager.go:58-126 | over any sequence of calls, a hit is on what the last Put of its object made, not invalidated since, and is valid if and only if there is no other writer or that Put was at most a TTL ago, whatever its uses |
| DiskCache.TotalIsOnDisk | internal/cache/manager.go:88-126 | while they agree, TotalSize is the number of bytes on disk |
| DiskCache.EvictionAgrees | internal/cache/evictor.go:83-92 | eviction without failures keeps agreement |
| EvictionRaces.FileWithoutRow | internal/cache/evictor.go:83-99 | in every interleaving, while no Put or Invalidate of the key is under way, its file is there without a row if and only if both steps of the last Put fell between an eviction's unlink and its row delete, and nobody has touched the file since |
| EvictionRaces.RowWithoutFile | internal/cache/manager.go:88-118 | and, with no eviction of it under way either, its row is there without a file if and only if both steps of an eviction fell between the last Put's rename and its row, and nobody has touched the row since |
| EvictionRaces.PutDuringEviction | internal/cache/evictor.go:83-99 | the first happens: a concrete run |
| EvictionRaces.EvictionDuringPut | internal/cache/manager.go:66-69 | and so does the second, which the next Get repairs |
| EvictionRaces.RunsCountAlone | internal/cache/evictor.go:77-103 | a run counts down from the total it once read by what it deleted itself, whatever others free |
| EvictionRaces.TwoRunsTakeMore | internal/cache/evictor.go:77-103 | so a second run goes on where the first had already reached the target |
| EvictionRaces.PutGoesThrough | internal/cache/manager.go:88-118 | Put needs only the lock and leaves file and row, whatever evictions are under way |
| EvictionRaces.InvalidateGoesThrough | internal/cache/manager.go:120-126 | and Invalidate leaves neither |
| AtomicFiles.RunKeepsInv | internal/cache/store.go:33-82 | in every interleaving, every named or opened file is one complete, finished write to its path and has no writer |
| AtomicFiles.ReadsAreWhole | internal/cache/store.go:67-74 | so every read returns a slice of one whole write to that path that went through, or fails; nothing of a write that was given up |
| AtomicFiles.ReadsLastWrite | internal/cache/store.go:33-74 | which one: what the write was given whose rename was the last to that path before the file was opened, with no delete in between |
| AtomicFiles.OpenFailsExactly | internal/cache/store.go:67-71 | an open fails if and only if there is no such rename |
| AtomicFiles.OutcomeOf | internal/cache/store.go:67-82 | and nothing else is ever returned |
| AtomicFiles.WriteReadsBack | internal/cache/store.go:33-74 | in whatever state, a write in pieces can go through, and is then what a read returns |
| AtomicFiles.DeleteGoesThrough | internal/cache/store.go:76-78 | and a delete, after which the file cannot be opened |
| AtomicFiles.OpenFileFixed | internal/cache/store.go:76-82 | an open file outlives deletes and later writes unchanged |
| Freshness.Mount.Read | internal/fuse/handle.go:54-130 | which of buffer, cache, revalidated cache and GET answers; sole writer: S3's current bytes; revalidated: the bytes of every version with the reported ETag, never of a copy cached without one; fetched: S3's current bytes; what is served counts as a use of the copy |
| Freshness.Mount.Revalidate | internal/fuse/handle.go:82-104 | the catalog's ETag first, HEAD only without one, served only if it is the copy's and not empty |
| Freshness.Mount.VersionIsCurrent | internal/fuse/handle.go:92-103 | if equal nonempty ETags mean equal bytes, a copy that HEAD confirms is the current object |
| Freshness.Mount.FlushSync | internal/fuse/handle.go:287-321 | S3 and cache hold the buffer, or nothing has changed and the handle is still dirty |
| Freshness.Mount.FlushWriteBack | internal/fuse/handle.go:234-245 | the bytes are cached, with a row that has no ETag, and the buffer starts empty |
| Freshness.Mount.Unlink | internal/fuse/dir.go:293-304 | cached file and row go with the object, or nothing changes |
| Freshness.Mount.Rename | internal/fuse/dir.go:352-366 | cached files and rows of both names go, also when the source could not be deleted |
| Freshness.Session | internal/fuse/handle.go:54-160 | sole writer, synchronous: over any sequence of operations every read on a clean handle that returns bytes returns the requested slice of S3's current object |
| Freshness.SharedSession | internal/fuse/handle.go:82-104 | other writers, write-back flushes and uploads in between: over any sequence of operations, an expired copy that is served is the version of its key with the reported nonempty ETag, and of every such version if an ETag stands for its bytes |
| FlushReads.MissesExactly | internal/fuse/handle.go:54-160 | sole writer, write-back: a cached copy is not of the last flush of its key if and only if it was fetched after that flush's copy had been evicted and before S3 had the flush, and has stayed since |
| FlushReads.InOrderReached | internal/catalog/writeback.go:79-90 | where uploads come in the order of flushes, S3 has the last flush exactly from its upload on |
| FlushReads.OldForGood | internal/fuse/handle.go:70-80 | such a copy is served long after the upload, until the key is flushed or evicted again |
| FlushReads.Session | internal/fuse/handle.go:175-264 | over any sequence of opens, writes, flushes, uploads, evictions and reads, cache and S3 hold what that history says; so a read on a clean handle returns the last flush of its key, or its copy was fetched too early |

## Left out

- Kernel glue (inodes, attributes, timeouts), configuration, logging, error texts, the S3 client library and the gateway's start and stop order: plumbing.
- `singleflight`: a shared result is one result; it matters only for the fill time in `Staleness`.
- The hash behind inode numbers: an entry carries the key that is hashed.
- Sync cursors, row counts and the number of objects logged: nothing depends on them.
- Which PUT wins with several workers or after the fallback: the code does not order them.
- The disk cache and the catalog inside the write-back transition system: its theorems are about files, queue and S3; what the flush does to cache and catalog is in `Freshness`, `FlushReads` and `Catalog`.
- Concurrent flushes or downloads of one key in `Freshness`: the PUT and the cache's Put are separate steps there, and the code promises nothing.
- NegCache.NegCache.Add: container/list is a sequence of entries; its node pointers are not modelled.
- Table.Store.ListDir: SQLite's query plan is a repeated choice of a first row; ties, which only rows with unsplittable keys have, come in any order.
- Sync.SyncManager.SyncBucket: one bucket at a time; the parallelism of syncAll is not modelled, as buckets share no rows.
- Catalog.Catalog.Put: for entries split from their keys, as every caller makes them.
- Dir.DirNode.LookupCatalog: prefix and name are clean, as the kernel's are.
- Catalog.Session: a delete that cannot read its row and a refresh that fails on a later page are excluded, because they can break coherence; `Catalog.Perform` says of each such call exactly when it does.
- FlushReads.Session: no unlink or rename while flushes are on their way; S3 gets those later and the code does not order them.
- EvictionRaces.FileWithoutRow: removals and database calls that fail are not part of it (`DiskCache.Evictor.EvictOnce` has them), and a list may hold any rows, in any order.
- Freshness.Session: operations on the local cache succeed; if the copy of an uploaded file cannot be cached, an older copy may stay.
- DiskCache.EvictRepeatedly: every row has its file and removals succeed; otherwise `DiskCache.StuckExactly` says when nothing moves.
- DiskCache.Manager.Put: eviction it sets off runs in its own goroutine; here it is a result for the caller to act on; its interleavings are in `EvictionRaces`.
- AtomicFiles.ReadsAreWhole: the rows of the metadata database are not part of it.
