# escrow-proxy, modelled and proved in Dafny

escrow-proxy is a caching HTTP proxy for build systems. It answers requests from a cache held
in tiered storage, fetches what is missing, can record everything it fetched into an archive and
later serve that archive offline. This project models the parts whose correctness is not visible
in any single function, and proves what they promise together.

`dafny verify dfyconfig.toml` checks everything. Each file is one module of the same name.

| part | files | what is at stake |
|---|---|---|
| hit buffer over the SQL index | `IndexTable`, `IndexRuns`, `IndexRefines`, `IndexObject` | no hit is lost or counted twice, whatever flushes overlap and fail |
| cache and index | `CacheSpec`, `CacheObject`, `SqlLike`, `Listing`, `Evict` | the index agrees with storage; reindex repairs, evict conserves bytes, list covers the walk |
| tiered storage | `TieredStorage`, `TierEntries` | several backends act as one map; what is left of an entry when some of them fail |
| archives | `ArchiveSpec`, `TarGz`, `Cas`, `Oci`, `Replay` | three formats, one last-write-wins map; replay is exact |
| request handling | `Http`, `Digest`, `CacheKey`, `HandlerSpec`, `HandlerObject` | the proxy's decisions |
| runs of the proxy | `SerialRuns`, `Accounting`, `DigestRace`, `RaceAlone`, `Hermetic` | staleness, replay stability, accounting, digest safety under races, hermetic replay |
| certificate cache | `Certs` | map and order in step, nothing handed out about to expire |

## How the model is built

Each operation that changes state is a method of a class with the original's fields, proved
against a function of the old state; the theorems are about those functions and about runs of
them. SQL tables, storage backends and directories are maps from keys to values.

- SHA-256 is a function parameter. It is assumed free of collisions only where a theorem says
  so, and then only on the set of blobs written, or on the texts of the requests of one run.
- JSON, gzip and tar are pairs of functions; a theorem that needs decoding to undo encoding
  requires `RoundTrips()`, and one about parts of a cut object requires `TellsCuts()`: JSON text that
  is cut short does not decode.
- Clocks, faults of single storage calls, upstream answers and scheduling are parameters, so a
  theorem holds for every choice of them. Over tiers each backend fails on its own: a write is taken,
  refused, or cut after some bytes, and a deletion or write may report an error although it took effect.
- Object names are the datatype `Name`; `Common.NamesAreTexts` shows that proper names and their
  texts stand for each other.
- Sets and maps that Go visits in random order are visited in arbitrary order.

## What the proofs found

These are facts of the code; each has a lemma with the exact condition or a concrete run.

- A failed flush that meets a newer `Touch` forgets the recorded entry; both hits vanish on the
  next commit (`IndexRuns.TouchCanLoseARecordedHit`). The conservation theorem is therefore for
  keys that have a row, and for keys hit through `RecordHit`, the path the cache uses; what a `Touch`
  drops otherwise is accounted for exactly (`IndexRuns.HitsAccounted`).
- A deleted key stays gone if and only if no flush was already carrying an upsert for it
  (`IndexRuns.DeleteIsFinalIff`). `Insert` acts like a direct write if and only if the key has no
  buffered hits (`IndexRefines.WriteIsDirectIff`).
- The dry run of a reindex, which does not flush, predicts the counts if and only if no buffered
  hit would recreate a missing row (`CacheSpec.DryRunPredictsIff`).
- A `--min-age` that reaches back to the start of the clock or further turns the age guard off
  (`Evict.AgeGuardHoldsIff`).
- Reads from tiers stay right under every pattern of faults if and only if the tiers that hold the
  object agree on it (`TieredStorage.RightUnderFaultsIff`); a backfill changes what is read if and
  only if the first tier to take any of the copy cuts it short (`TieredStorage.BackfillKeepsViewIff`);
  with no tier at all a Put reports success and stores nothing (`TieredStorage.PutTakesEffectIff`).
- Index listing and the walk coincide, for a URL or a prefix without wildcards, if and only if
  letter case never separates them (`Listing.ListingsCoincideIff`).
- Offline, a request is let through upstream if and only if the bytes read under a digest-pinned URL
  do not match its digest (`Hermetic.OfflineForwardsIff`). After a verified recording whose writes were
  not cut that leaves one way: the handler ignores the error of `io.ReadAll`, so a body that breaks off
  is taken for a whole one, fails the check and goes upstream (`Hermetic.ReplayIsHermetic` with the
  exact condition, `Hermetic.BrokenReadGoesUpstream` with an input).
- For the same reason a stale copy is armed whole if and only if its read does not break off
  (`SerialRuns.ArmsWholeEntryIff`).
- A local backend writes in place, so a write that fails half way leaves part of a body under a pinned
  key (`DigestRace.CutWriteIsStored`); under every fault what is stored is part of a matching body, and
  all of it if no write is cut (`DigestRace.DigestSafety`).
- An upstream 5xx that carries the proxy's own marker header is not counted as an upstream error;
  every other failure is counted once (`Accounting.FailureCountedOnceIff`).
- A refresh whose puts fail can leave an old or a cut body under a new time stamp, which is then served
  as fresh. One failing backend is enough: a stale entry in two tiers, a meta put that fails in the
  second only, and the refresh stops with the new meta in the first (`TierEntries.TornMetaLooksFresh`).
  With working reads a hit afterwards is the old or the new entry if and only if nothing of the new
  meta shows, or only part of it, or every tier took the meta and the whole new body shows
  (`TierEntries.RefreshOverIff`); with reads that may fail in any tier, if and only if the same holds
  tier by tier (`TierEntries.RefreshUnderAnyReadIff`). Staleness is bounded over every run whose stores
  meet the second condition and whose backfills are not cut, whatever reads and deletions fail; and
  over every run with working reads whose stores meet the first and whose deletions bring back no
  other meta (`SerialRuns.DirectHitsAreFresh`).
- A deletion that fails in one tier only can bring back the meta of an older entry, with the newer body
  (`TierEntries.TornDeletionRevivesMeta`, exact condition in `TierEntries.EraseOverIff`).
- Revalidate patterns, unlike exclude patterns, see the default port that TLS interception spells
  out (`HandlerSpec.RevalidationSeesDefaultPort`, `HandlerSpec.BypassIgnoresDefaultPort`); it makes
  no difference if and only if revalidation is off or the patterns match both spellings or neither
  (`HandlerSpec.RevalidationIgnoresPortIff`).
- Recording drops an entry whose halves do not open and archives a meta cut short; replay is exact if
  and only if neither happens to an archived key (`Replay.ReplayIsExactIff`).
- Evicting after a reindex leaves orphaned bodies in storage, and nothing else above the target
  (`Evict.ReindexThenEvict`).
- With a stale copy armed on a verified URL, a refresh that fails the digest check evicts the entry
  and, unless configured to pass through, answers 502 (`SerialRuns.ArmedFallbackAnswers`).

Where code and documentation disagree the model follows the code: `docs/architecture.md` describes
response streaming through a tee reader and deduplication of concurrent requests, but the handler
reads each cacheable body in full (`internal/proxy/handler.go:296`) and deduplicates nothing.

## Model

| member | source | states |
|---|---|---|
| Common.NamesAreTexts | internal/cache/cache.go:36-42 | every text is read as a proper name and rendered back, and a name survives exactly when it is proper, so no two keys share an object and no text is both halves |
| IndexObject.Index.constructor | internal/index/index.go:82-114 | an opened index is empty, with the default flush threshold when none is given |
| IndexObject.Index.RecordHit | internal/index/recorder.go:19-21 | one more pending hit that carries the entry; the flusher is signalled at the threshold |
| IndexObject.Index.Touch | internal/index/recorder.go:12-14 | one more pending hit that keeps whatever entry was pending |
| IndexObject.Index.BufferHit | internal/index/recorder.go:23-47 | count up by one, latest time kept, other keys untouched, signal once the buffer has reached the threshold |
| IndexObject.Index.Flush | internal/index/recorder.go:51-119 | all or nothing: the whole batch lands and the buffer is empty, or table and buffer are as before; exactly which faults make it fail |
| IndexObject.Index.WriteBatch | internal/index/recorder.go:61-118 | a transaction that fails anywhere leaves the table unchanged |
| IndexObject.ExecAll | internal/index/recorder.go:94-113 | whatever order the batch is visited in, the rows are those of the key-by-key commit |
| IndexObject.Index.RequeueBatch | internal/index/recorder.go:124-138 | hits add up, the latest time wins, the newer delta's entry is kept |
| IndexObject.Index.Insert | internal/index/index.go:143-160 | every column replaced, other rows untouched; a statement that fails changes nothing |
| IndexObject.Index.Upsert | internal/index/index.go:164-179 | descriptive columns replaced, usage columns kept; a new row starts now with no hits; a statement that fails changes nothing |
| IndexObject.Index.Get | internal/index/index.go:182-196 | a row only for a key that has one and then that row, not found only for a key without one, an error exactly when the statement fails |
| IndexObject.Index.Delete | internal/index/index.go:199-210 | row and buffered hits of the key gone, all else untouched; if the statement fails both stay |
| IndexObject.Index.List | internal/index/index.go:214-260 | exactly the rows the filter selects, each once, latest access first, as many as the limit allows and none omitted that sorts earlier; none exactly when the query fails |
| IndexObject.Index.LRUEntries | internal/index/index.go:282-308 | the rows accessed before a positive cutoff, least recent first, each once; none exactly when the query fails |
| IndexObject.Index.TotalBodySize | internal/index/index.go:270-277 | the sum of the body sizes of all rows; none exactly when the query fails |
| IndexObject.Index.AllKeys | internal/index/index.go:313-328 | every key, once; none exactly when the query fails |
| IndexObject.SelectsAll | internal/index/index.go:279-281 | a query without a limit returns every selected row |
| IndexTable.TotalSizeWithout | internal/index/index.go:270-277 | the total does not depend on the order in which rows are added up |
| IndexRuns.StepAccounts | internal/index/recorder.go:23-138 | one hit, swap, commit or requeue moves the hits known to the system by exactly its own hits minus what it drops, and the latest access likewise |
| IndexRuns.HitsAccounted | internal/index/recorder.go:51-138 | over every interleaving of hits and overlapping flushes, hits kept plus hits dropped equal hits at the start plus hits made |
| IndexRuns.HitsConserved | internal/index/recorder.go:16-21 | for a key that has a row, and for any key hit through RecordHit only, row plus buffer plus in-flight hits grow by one per hit and by nothing else, and the latest access is the latest hit or the initial one |
| IndexRuns.TableHoldsEveryHit | internal/index/recorder.go:51-119 | once every flush has landed the row alone holds every hit and the latest time |
| IndexRuns.TouchCanLoseARecordedHit | internal/index/recorder.go:133-136 | a concrete run in which two hits, one of them recorded, are lost |
| IndexRuns.GoneForever | internal/index/index.go:204-208 | a key that nothing can recreate stays out of the table until it is hit or written again |
| IndexRuns.DeleteIsFinalIff | internal/index/index.go:199-210 | a deleted key stays gone in every continuation exactly when no open flush carries an upsert for it |
| IndexRefines.BufferRefinesWriteThrough | internal/index/recorder.go:94-113 | over sequential hits, deletes and flushes that succeed or fail, table with buffer applied has the keys, counts and times of an index without a buffer |
| IndexRefines.FlushedTableIsDirect | internal/index/recorder.go:51-119 | after a successful flush the stored table itself is the write-through one |
| IndexRefines.WriteIsDirectIff | internal/index/index.go:143-160 | an insert acts like a direct write exactly when the key has no pending hits |
| IndexRefines.DeletedStaysGone | internal/index/index.go:204-208 | in sequential runs a deleted key comes back only by a new hit or insert |
| CacheObject.Store.Put | internal/cache/recorder.go:95-101 | readers see the new object, or after an error what they saw before or the part of it that some backend took; the name is logged, when recording, only if the put succeeded; read-only archives refuse |
| CacheObject.Store.Delete | internal/cache/archive_storage.go:74-76 | readers no longer see the object, or after an error still do, or see what another backend holds; read-only archives refuse |
| CacheObject.Cache.Put | internal/cache/cache.go:44-80 | meta then body, stopping at the first put that reports an error, whatever part of it then shows; the row is written only after both, and a failing index statement is ignored |
| CacheObject.Cache.Get | internal/cache/cache.go:82-125 | the entry with a buffered hit and the bytes its body hands out before it ends or breaks off, or not found, or reported so, with the orphan row dropped if that statement works, or an error with nothing touched |
| CacheObject.Cache.Delete | internal/cache/cache.go:166-187 | both halves and the row gone, or exactly how far a failing deletion got and what then shows; an entry that is missing or reported missing drops its row; a failing index statement is ignored |
| CacheObject.Cache.Walk | internal/cache/cache.go:135-164 | every key with a readable meta once with that meta, and no other key, objects that cannot be read being skipped; none exactly when listing fails |
| CacheObject.Cache.Reindex | internal/cache/cache.go:195-255 | flush, then exactly the rows storage dictates, with counts that are the sizes of the three key sets; exactly which failing statements make it fail, and how far the rebuild then got; untouched if the flush fails |
| CacheObject.Cache.UpsertWalked | internal/cache/cache.go:205-235 | every walked key upserted and counted as new or known against the table before the walk, up to the first probe or upsert that fails |
| CacheObject.Cache.RemoveOrphans | internal/cache/cache.go:240-254 | exactly the rows the walk did not see are removed and counted, up to the first statement that fails |
| CacheObject.Cache.DryRunReindex | cmd/escrow-proxy/cache.go:805-840 | the counts of the two key sets, nothing written; none exactly when listing or the key query fails |
| CacheSpec.AgreementOverRuns | internal/cache/cache.go:44-187 | any sequence of put, get, delete and flush keeps storage made of whole entries, rows equal to entries, and buffered hits only for rows |
| CacheSpec.AgreementFromEmpty | internal/cache/cache.go:44-187 | the same for every run from an empty cache |
| CacheSpec.FlushCoherent | internal/index/recorder.go:79-86 | buffered hits that describe an older version of an entry cannot spoil its row |
| CacheSpec.PutThenLookup | internal/cache/cache.go:44-125 | a lookup returns what was put last for its key, nothing after a deletion, and other keys are not affected |
| CacheSpec.OthersUntouched | internal/cache/cache.go:36-80 | writing or erasing one key, with any faults, touches no half of another key |
| CacheSpec.ReindexRepairs | internal/cache/cache.go:189-255 | from any table: row keys equal walked keys, every row agrees with storage, surviving rows keep created, accessed and hit count, new rows start at their upsert time with no hits |
| CacheSpec.ReindexIsIdempotent | internal/cache/cache.go:195-255 | a second run inserts and removes nothing and changes no row |
| CacheSpec.DryRunPredictsIff | cmd/escrow-proxy/cache.go:805-840 | the dry run's counts equal the real run's exactly when every buffered delta with an entry already has a row |
| Evict.PlanEvict | cmd/escrow-proxy/cache.go:704-742 | when the command refuses, when there is nothing to do, how much must go and which rows may go, in LRU order |
| Evict.RunEvict | cmd/escrow-proxy/cache.go:704-787 | the whole command: refused exactly for bad flags, no index, or a failed flush or query; otherwise candidates in LRU order, the counters it prints, and the promise `Kept` on the index it leaves |
| Evict.SweepCache | cmd/escrow-proxy/cache.go:749-776 | the deletion loop does what the recursive sweep over the candidates says, faults and dry run included |
| Evict.SweepConserves | cmd/escrow-proxy/cache.go:749-776 | bytes left in the index plus bytes freed plus bytes of orphan rows equal the bytes before plus those of freed entries whose row could not be dropped |
| Evict.SweepStops | cmd/escrow-proxy/cache.go:752-755 | the loop ends only with enough freed or every candidate tried |
| Evict.SweepTriesNoExtra | cmd/escrow-proxy/cache.go:752-755 | before the last candidate tried, not enough had been freed |
| Evict.SweepSparesTheRest | cmd/escrow-proxy/cache.go:752-765 | rows not tried survive unchanged and no row appears |
| Evict.SweepKeepsPromise | cmd/escrow-proxy/cache.go:734-776 | conservation, target or exhaustion, and no row used since a positive cutoff removed |
| Evict.CleanSweep | cmd/escrow-proxy/cache.go:749-776 | without orphans and faults everything tried is freed |
| Evict.ShortestPrefix | cmd/escrow-proxy/cache.go:752-755 | every shorter prefix of the candidates falls short of the need |
| Evict.DryRunPredicts | cmd/escrow-proxy/cache.go:744-775 | the dry run announces the entries and bytes a clean run deletes, and changes nothing |
| Evict.BodiesSplit | internal/cache/cache.go:135-164 | every body byte in storage belongs to an entry the walk sees or to an orphaned body, and to one only |
| Evict.SweepKeepsOrphanBodies | cmd/escrow-proxy/cache.go:749-776 | an eviction over agreeing index and storage neither frees nor makes an orphaned body |
| Evict.ReindexThenEvict | cmd/escrow-proxy/cache.go:704-787 | after a reindex the body bytes in storage are the index total plus the orphaned bodies, and all of them but the orphaned ones come down to the target unless every eligible entry was tried |
| Evict.AgeGuardHoldsIff | cmd/escrow-proxy/cache.go:734-737 | candidates are all older than the minimum age exactly when that age does not reach the start of the clock or there are no rows |
| SqlLike.LikeCoversPrefix | internal/index/index.go:225-227 | every URL that starts with the prefix matches the query, whatever wildcards the prefix holds |
| SqlLike.PlainLikeIff | internal/index/index.go:225-227 | for a prefix without wildcards the query matches exactly the URLs that start with it up to letter case |
| Listing.FromIndex | cmd/escrow-proxy/cache.go:236-271 | distinct matching rows, last accessed first and none left out that was accessed later than one shown, as many as the limit allows, truncation reported exactly when there are more, not located exactly for a missing key, failed exactly when the query fails |
| Listing.FromWalk | cmd/escrow-proxy/cache.go:273-317 | distinct matching entries as many as the limit allows, with exact truncation, of what storage lets be read |
| Listing.IndexCoversWalk | cmd/escrow-proxy/cache.go:80-95 | while index and storage agree, nothing the walk lists by URL or prefix is missed by the query |
| Listing.ListingsCoincideIff | internal/index/index.go:225-232 | for a URL, a plain prefix or neither, with or without a method, both find the same entries exactly when letter case never separates them |
| Listing.SameListing | cmd/escrow-proxy/cache.go:229-317 | when they find the same entries both truncate together, show equally many, and without truncation show equal ones |
| Listing.KeyListingsCoincide | cmd/escrow-proxy/cache.go:252-285 | asked for one key, both paths give the same answer |
| TieredStorage.Tiered.Get | internal/storage/tiered.go:20-40 | the first tier that hands the object out answers and the tiers before it are backfilled as their puts go; the first tier's stream may break off, a later tier's may not |
| TieredStorage.Tiered.Put | internal/storage/tiered.go:42-65 | every tier is left as its write leaves it, taken, refused or cut; the lowest tier whose write did not work is reported |
| TieredStorage.Tiered.Delete | internal/storage/tiered.go:93-111 | every tier loses the object unless it keeps it; the lowest tier whose deletion did not work is reported |
| TieredStorage.Tiered.Size | internal/storage/tiered.go:67-78 | the first tier that fails or holds the object decides; only a missing object lets the search go on |
| TieredStorage.SizeIsLookup | internal/storage/tiered.go:67-78 | with working backends the size is that of the one map's object |
| TieredStorage.Tiered.Exists | internal/storage/tiered.go:80-91 | true exactly when some working tier has the object |
| TieredStorage.Tiered.List | internal/storage/tiered.go:113-129 | the duplicate-free union of what working tiers hold under the prefix |
| TieredStorage.GetIsLookup | internal/storage/tiered.go:20-40 | with working backends a read is a lookup in one map, whatever the tiers disagree on |
| TieredStorage.BackfillKeepsViewIff | internal/storage/tiered.go:34-36 | backfilling, whichever puts are refused, changes no later answer for any name, exactly unless the first tier to take any of the copy cuts it short |
| TieredStorage.PutIsUpdate | internal/storage/tiered.go:42-65 | a put is one update of that map |
| TieredStorage.DeleteIsRemoval | internal/storage/tiered.go:93-111 | a delete is one removal from that map |
| TieredStorage.TieredRefinesMap | internal/storage/tiered.go:20-129 | every sequential run of get, put, delete, exists, size and list gives the replies of a single map |
| TieredStorage.PutTakesEffectIff | internal/storage/tiered.go:42-65 | the refinement fails only with no tiers |
| TieredStorage.RightUnderFaultsIff | internal/storage/tiered.go:21-33 | no pattern of failing reads yields a wrong value, or a stream that is not a prefix of the right one, exactly when the holders agree |
| TieredStorage.FaultyGetKeepsAgreement | internal/storage/tiered.go:20-40 | a read under any faults, its backfills not cut, keeps agreeing tiers agreeing and their map unchanged |
| TieredStorage.NeverAnotherValue | internal/storage/tiered.go:20-129 | over runs with failing reads and refused backfills a read gives the right value, a prefix of it that breaks off, or none |
| TierEntries.GetEntry | internal/cache/cache.go:82-125 | a lookup over tiers: meta, then body, each backfilled; only a whole meta that decodes leads to the body |
| TierEntries.PutEntry | internal/cache/cache.go:44-56 | a store over tiers: the body is put only if every tier took the meta, and it succeeds exactly if every tier took both |
| TierEntries.DeleteEntry | internal/cache/cache.go:166-182 | a deletion over tiers: not found exactly when no working tier shows the meta, the body deleted only if every tier dropped the meta |
| TierEntries.LookupOverIsLookup | internal/storage/tiered.go:20-40 | with working reads a lookup over tiers is the lookup in their map and leaves the map as it is |
| TierEntries.StoredOverIsStored | internal/storage/tiered.go:42-65 | storing over tiers, each put failing as it may, is storing in their map under the faults that readers see |
| TierEntries.ErasedOverIsErased | internal/storage/tiered.go:93-111 | erasing over tiers, each deletion failing as it may, is erasing from their map under the faults that readers see |
| TierEntries.OthersUntouchedOver | internal/cache/cache.go:36-125 | whatever is done to one key, failing in any tiers, readers see the same entry under any other |
| TierEntries.RefreshIsWholeIff | internal/cache/cache.go:44-56 | for one map with any put faults: exactly when a hit after a refresh is the old entry or the new one, and what it is otherwise |
| TierEntries.RefreshOverIff | internal/cache/cache.go:44-56 | the same over tiers with working reads, by what each tier did with the two puts and which tier answers |
| TierEntries.RefreshUnderAnyReadIff | internal/cache/cache.go:44-56 | the same when any tiers may fail to answer the reads: exactly when the write stays whole tier by tier |
| TierEntries.EraseOverIff | internal/cache/cache.go:166-182 | exactly when a hit after a deletion that may fail in any tiers is the entry as it was |
| TierEntries.TornMetaLooksFresh | internal/storage/tiered.go:42-65 | a meta put that fails in the second of two tiers leaves the stale body under the new stamp |
| TierEntries.TornBodyStaysWhole | internal/storage/tiered.go:42-65 | a body put that fails there reports an error and leaves the new entry whole |
| TierEntries.CutBodyLooksFresh | internal/storage/local.go:36-50 | a body put that breaks off leaves part of the body under the new stamp |
| TierEntries.TornDeletionRevivesMeta | internal/storage/tiered.go:93-111 | a deletion that fails in the second of two tiers brings its older meta back with the newer body |
| ArchiveSpec.LastWinsIsLast | internal/archive/targz.go:66-77 | the specification of all formats: the last entry added for a key is the one kept |
| ArchiveSpec.UnpackItems | internal/archive/targz.go:66-77 | unpacking the records of any adds gives both halves of every last entry |
| TarGz.TarGzWriter.Add | internal/archive/targz.go:95-114 | records and key list stay those of the adds so far, unless the add fails |
| TarGz.TarGzWriter.Close | internal/archive/targz.go:129-146 | the file is the entry records followed by the key list, or there is none |
| TarGz.Open | internal/archive/targz.go:33-85 | later records replace earlier ones; the last key list counts; one that does not parse fails the open |
| TarGz.RoundTrip | internal/archive/targz.go:33-146 | a closed file opens and serves the last meta and body of every key and lists exactly the keys added |
| Cas.CasWriter.Add | internal/archive/cas.go:58-86 | the directory stays that of the adds: last meta and digests per key, first body per digest, unless the add fails |
| Cas.CasWriter.Close | internal/archive/cas.go:88-97 | the directory of exactly the adds is left behind, or the close fails |
| Cas.Get | internal/archive/cas.go:105-123 | meta and body through the index; any missing file reads as not found |
| Cas.ServesKeyIff | internal/archive/cas.go:66-71 | a key is served right exactly when the first body stored under its digest is its last body |
| Cas.RoundTrip | internal/archive/cas.go:58-123 | barring a digest collision among the bodies added, every key's last entry is served and no other key |
| Oci.OciWriter.constructor | internal/archive/oci.go:32-47 | an empty writer with the default layer size when none is given |
| Oci.OciWriter.Add | internal/archive/oci.go:162-176 | between calls pending stays below a layer, stored layers are all full, and layers followed by pending are the adds in order, unless the add fails |
| Oci.OciWriter.FlushLayer | internal/archive/oci.go:178-213 | the pending entries become one more layer stored under its own digest, or the write fails |
| Oci.OciWriter.WriteBlob | internal/archive/oci.go:312-321 | every blob file holds data that hashes to its name; a failing write stores nothing |
| Oci.OciWriter.Close | internal/archive/oci.go:215-282 | layers of exactly N entries but the last, their concatenation the adds in order, reached from index through manifest and config; exactly which failing writes make it fail |
| Oci.ReadBack | internal/archive/oci.go:312-332 | reading by digest returns what was written under it |
| Oci.OpenLayers | internal/archive/oci.go:86-106 | layers read in order, each one's halves replacing earlier ones, in whatever order a layer's files are visited |
| Oci.Open | internal/archive/oci.go:49-113 | index, first manifest, config, layers; failing wherever a blob is missing or does not parse |
| Oci.LayersReadBack | internal/archive/oci.go:86-106 | reading the stored layers equals unpacking the chunks one after the other |
| Oci.RoundTrip | internal/archive/oci.go:49-282 | barring a digest collision among the blobs written, a closed layout opens and serves the last entry of every key and lists exactly the keys added |
| Replay.AddRecorded | internal/cache/recorder.go:43-80 | what is added to the archive: each recorded key once, in order of first recording, if both halves open, with the bytes read; it fails only when an add fails |
| Replay.EachKeyOnce | internal/cache/recorder.go:58-61 | no key is archived twice |
| Replay.ArchiveIsWhatWasRead | internal/cache/recorder.go:49-82 | the archive holds exactly the keys whose halves could be read, with the bytes read |
| Replay.ReplayIsExactIff | internal/cache/recorder.go:49-82 | the archive is the base storage restricted to the archived keys exactly when every archived key opens and its meta does not break off |
| Replay.ReplayIsExact | internal/cache/recorder.go:43-83 | with working reads, as a storage the archive is the base storage restricted to the archived keys |
| Replay.CloseAndOpen | internal/archive/targz.go:33-146 | whichever format is chosen, a close that works leaves an archive that opens and serves the last-write-wins map |
| Replay.FetchIsLookup | internal/cache/archive_storage.go:24-46 | the suffix picks the half; other names are not found |
| Replay.FinalizeAndOpen | internal/cache/recorder.go:43-83 | end to end, under failing reads, adds and closes: what the reopened archive serves under every name is what was read, and the restricted base storage if every archived key reads through |
| Replay.ListNames | internal/cache/archive_storage.go:78-90 | both names of each listed key whose key has the prefix |
| Digest.ExtractIff | internal/proxy/digest.go:22-37 | a digest is extracted exactly when the regular expression matches, and it is the lower-case capture |
| Digest.MatchedIsExtracted | internal/proxy/digest.go:31-37 | every matching path yields its digest |
| Digest.ExtractedIsMatched | internal/proxy/digest.go:31-37 | a digest comes only from a matching path |
| Http.UrlTextIsFaithful | internal/proxy/cache_key.go:17 | the text of a parsed URL determines all its parts |
| Http.DefaultPortIsInvisible | internal/proxy/handler.go:120-134 | spelling out the default port changes nothing for exclude patterns |
| Http.DecimalParses | internal/proxy/handler.go:410-419 | a length written into a header parses back to itself |
| CacheKey.ComputeCacheKey | internal/proxy/cache_key.go:13-45 | the hashed text, header values sorted where they are, and the body readable again afterwards; a body that breaks off is hashed and put back as what it handed out |
| CacheKey.SortIgnoresOrder | internal/proxy/cache_key.go:20-27 | sorting depends only on how often each string occurs |
| CacheKey.SortedSameLines | internal/proxy/cache_key.go:20-27 | sorting the header values in place leaves the lines as they are, so a key computed again is the same |
| CacheKey.TextIsCanonical | internal/proxy/cache_key.go:13-45 | permuting the selected header list or any header's values leaves the text unchanged |
| CacheKey.TextDeterminesMethodAndUrl | internal/proxy/cache_key.go:15-18 | equal texts mean equal method and URL |
| CacheKey.TextIsFaithful | internal/proxy/cache_key.go:13-45 | for equal body presence texts are equal exactly when method, URL, selected header lines and body hash are |
| CacheKey.LineIsFaithful | internal/proxy/cache_key.go:28-30 | a header line determines the name up to letter case and the value |
| CacheKey.LinesCoincideIff | internal/proxy/cache_key.go:20-31 | for selected names without colons that differ in more than letter case, the lines are the same exactly when every selected header has the same values, in any order |
| CacheKey.TextsCoincideIff | internal/proxy/cache_key.go:13-45 | so for equal body presence texts are equal exactly when method, URL, the values of every selected header and body hash are |
| CacheKey.EqualKeysSameTarget | internal/proxy/cache_key.go:44 | barring a hash collision on the two texts, equal keys mean equal method and URL |
| HandlerObject.Handler.HandleRequest | internal/proxy/handler.go:136-228 | answer, context, metrics, storage and index are those of the ruling on the cached entry, for every mode and every storage and index fault, bodies that break off included |
| HandlerObject.Handler.OnHit | internal/proxy/handler.go:174-213 | a cached entry is evicted, armed as a fallback or served, and the index forgets it only when evicted |
| HandlerObject.Handler.HandleResponse | internal/proxy/handler.go:241-379 | reply, metrics, storage, recorded names and index are those of the handling of the upstream answer |
| HandlerObject.Handler.HandleAnswer | internal/proxy/handler.go:283-309 | which statuses and broken bodies lead to the stale copy, to the client, or on to verification |
| HandlerObject.Handler.OnWholeBody | internal/proxy/handler.go:318-336 | a body that does not match its URL's digest is never stored and evicts the entry, whatever the client is shown |
| HandlerObject.Handler.CacheAndServe | internal/proxy/handler.go:338-378 | stored unless it is a HEAD without a positive length; the client is served either way |
| HandlerObject.Handler.UpstreamRoundTrip | internal/proxy/transport.go:59-72 | never an error: a failure becomes a marked 502 and is counted |
| HandlerSpec.BufferedLengths | internal/proxy/handler.go:388-435 | what is served from a buffer states its true length without chunked framing; a HEAD states the origin's length or none |
| HandlerSpec.BypassIgnoresDefaultPort | internal/proxy/handler.go:107-134 | bypass does not depend on whether the default port is spelled out |
| HandlerSpec.RevalidationIgnoresPortIff | internal/proxy/handler.go:95-105 | spelling out a port changes revalidation for no entry and time exactly when revalidation is off or the patterns match both spellings or neither |
| HandlerSpec.RevalidationSeesDefaultPort | internal/proxy/handler.go:95-105 | a pattern that matches the plain https URL only misses the URL with :443 that TLS interception produces, so a stale entry it names is served |
| SerialRuns.WorkingTurnIsMapTurn | internal/proxy/handler.go:136-379 | with nothing failing a turn over tiers rules as on their map and does to that map what the handlers do to one map |
| SerialRuns.DirectHitsAreFresh | internal/proxy/handler.go:95-105 | after any run over any tiers whose stores and deletions meet the condition, under reads that work or under reads, backfills and deletions that fail in any tiers, a direct hit on a revalidated URL serves a body fetched less than the interval ago, all of it exactly unless the first tier's stream breaks off |
| SerialRuns.RunKeepsBacked | internal/proxy/handler.go:358-367 | in such a run whatever halves readers may see under a key are those of one fetch, stamped with its time |
| SerialRuns.ArmedFallbackAnswers | internal/proxy/handler.go:251-309 | with a stale copy armed every upstream behaviour ends in the fresh answer or all of the armed copy, and the status is in 200..399 exactly unless a verified refresh was rejected with an error |
| SerialRuns.ArmedExchangesAnswer | internal/proxy/handler.go:230-309 | the same for every armed exchange of every run, whatever fails in whichever tier, where a failed refresh leaves every tier unchanged |
| SerialRuns.ArmsWholeEntryIff | internal/proxy/handler.go:174-209 | what is armed is a prefix of a body under a meta that readers could see, and all of it exactly when the first tier's stream does not break off |
| SerialRuns.FailedRefreshServesWholeFetch | internal/proxy/handler.go:251-309 | after any run that meets the condition and whose body streams do not break off, a failed refresh is answered with the whole body of an earlier fetch |
| SerialRuns.SettledForever | internal/proxy/handler.go:173-213 | an entry not subject to revalidation stays as readers see it through every run on all keys |
| SerialRuns.StoreSettles | internal/proxy/handler.go:338-379 | storing a response so that the new entry shows puts it in that state, though tiers may fail, a HEAD only with a positive length |
| SerialRuns.ReplayIsStable | internal/proxy/handler.go:173-213 | once stored, every later identical request gets the same status and body with no upstream exchange, whatever fails in whichever tier on other keys, and a HEAD the positive length the origin sent |
| SerialRuns.CleanRequestsDoNotClash | internal/proxy/cache_key.go:13-45 | requests of a run without key collisions share a key only with equal method and URL |
| Accounting.RequestHalfCounts | internal/proxy/handler.go:136-228 | the request half counts a parsed request unless it leaves an exchange open |
| Accounting.ResponseHalfCounts | internal/proxy/handler.go:241-379 | the response half counts its request once, and an upstream error for an unmarked 5xx only |
| Accounting.FailureCountedOnceIff | internal/proxy/transport.go:59-72 | an upstream failure is counted once, and no success is, across transport and handler exactly when upstream did not forge the marker |
| Accounting.RequestsCountedOnce | internal/proxy/handler.go:136-379 | over any run, with exchanges overlapping under one key or several and storage changing in between, requests counted plus exchanges open equal requests with a parsed URL |
| Accounting.FailuresCountedOnce | internal/proxy/handler.go:276-281 | over any such run upstream errors counted plus 5xx answers with a forged marker equal exchanges that failed |
| DigestRace.StepKeepsSafe | internal/storage/tiered.go:29-36 | one object operation of any thread keeps every stored and carried body good for its key, or part of a good one if writes may be cut |
| DigestRace.StoredBodyIsGood | internal/proxy/handler.go:318-336 | a body accepted for one request matches the digest of every request that shares its key |
| DigestRace.DigestSafety | internal/proxy/handler.go:311-367 | from a clean start, after every interleaving of probes, backfills, writes seen in part or cut, deletions, failures, streams that break off and removals, a body under a verified request's key is part of a body that hashes to the digest in its path, and all of it if no write is seen in part |
| DigestRace.CutWriteIsStored | internal/storage/local.go:36-50 | one request whose body write is cut leaves that part of the body in storage |
| RaceAlone.StepOnTrack | internal/storage/tiered.go:20-111 | any working step of a lone thread, whatever tier a fan-out visits next, keeps the tiers on the way to the map of the sequential plan |
| RaceAlone.LoneRunOnTrack | internal/storage/tiered.go:20-111 | every lone working run stays on the way to that map, with the moments of the plan named by the run |
| RaceAlone.AloneIsSequential | internal/proxy/handler.go:136-379 | one request at a time, every schedule of working operations that finishes leaves over the tiers the map that the sequential request and response halves leave, at the clock of one of its steps and, if it goes upstream, with the answer of one of its steps |
| RaceAlone.LoneRunCanFinish | internal/storage/tiered.go:20-111 | from every place a thread can be in, some schedule of working operations finishes |
| Hermetic.OfflineForwardsIff | internal/proxy/handler.go:186-228 | offline, the exact condition under which a request goes upstream |
| Hermetic.RecordingIsGood | internal/proxy/handler.go:318-336 | whatever was recorded concurrently, if no write was seen in part every body is good for its key and every meta decodes |
| Hermetic.StorageReplays | internal/cache/archive_storage.go:24-46 | over any storage and under any faults: a request is forwarded exactly when a pinned body that opens hands out bytes that do not match; other whole entries are answered as stored when reads work, other keys with the miss page |
| Hermetic.GoodSlipsOnlyCut | internal/proxy/handler.go:174-192 | where bodies match their digests a request is forwarded only if the read of its body breaks off |
| Hermetic.ReplayIsHermetic | internal/proxy/handler.go:136-228 | record under any interleaving and any faults, finalize with any reads failing, reopen offline: the exact condition for forwarding, keys that were read whole answered with the recorded status and body, others with the miss page; if no write was seen in part, forwarded only when the read of a body breaks off |
| Hermetic.SlipsThroughIff | internal/proxy/handler.go:174-192 | with a hash that tells a body from its prefixes, a pinned entry that opens is let through exactly when its body breaks off |
| Hermetic.BrokenReadGoesUpstream | internal/proxy/handler.go:174-192 | a concrete recorded blob that is answered offline, and forwarded when its body breaks off |
| Certs.CertCache.GetOrCreate | internal/tls/certs.go:43-75 | answer and new state of one call, failed generations included |
| Certs.CertCache.RemoveFromOrder | internal/tls/certs.go:52-57 | the host is taken out of the order and the others keep theirs |
| Certs.RemoveKeepsOrder | internal/tls/certs.go:52-57 | any two hosts left were in that order before |
| Certs.CallKeepsInvariant | internal/tls/certs.go:43-75 | no duplicates, order equals map, size in bounds, sorted by expiry; what is evicted expires first |
| Certs.AnswersOutliveMargin | internal/tls/certs.go:30-50 | no certificate handed out expires within the renewal margin, cached or new |
| Certs.InvariantOverRuns | internal/tls/certs.go:43-75 | the invariant after every run of calls with a nondecreasing clock |
| Certs.InvariantFromEmpty | internal/tls/certs.go:30-75 | in particular after every run of a new cache |

## Left out

- HandlerObject.Handler.HandleRequest: the wall-clock duration passed to the metrics and the log lines are not modelled, and concurrent requests are left to `DigestRace`.
- HandlerObject.Handler.HandleResponse: response parts the handler never touches (protocol version, status text, trailers) are not modelled.
- TieredStorage.Tiered.Get: one read hands out one version of an object; two writers that interleave inside one local file, or a reader that sees it change under it, are not modelled.
- TieredStorage.Tiered.Put: the goroutines of a fan-out are visited one after the other; `DigestRace` interleaves them freely.
- CacheObject.Cache.Walk: the walk returns the visited entries instead of calling back; where a callback stops it, in the list command and in a reindex, its caller stops using them.
- IndexObject.Index.Flush: the flush goroutine's channel and timer are not modelled beyond the threshold signal; they only call Flush. The deltas that the code shares between buffer and batch are values here.
- IndexObject.Index.TotalBodySize: sums are unbounded; the 64-bit limit is not modelled.
- Evict.RunEvict: the wording of the printed lines is not modelled.
- SerialRuns.ReplayIsStable: reads of the entry's own two objects work and their backfills are not cut, as a read that fails makes the code fetch again.
- CacheObject.Cache.Get: in this one-map form a read finds what readers see or fails; a read over tiers that is answered by a later tier is `TierEntries.GetEntry`.
- DigestRace.DigestSafety: stated for requests whose method, URL and selected headers contain no line break and whose key texts do not collide under the key hash.
- CacheKey.ComputeCacheKey: letters outside ASCII in header names, which Go folds by Unicode rules, keep their case here; names that are not valid header tokens are canonicalised like the others.
- Http.UrlTextIsFaithful: escapes, user information and bracketed IPv6 hosts are not modelled; a URL is scheme, host, port, path and query.
- Listing.ListingsCoincideIff: letters outside ASCII compare exactly, as in SQLite; the method filter's Unicode case folding is not modelled.
- Oci.OciWriter.Close: media types and the layout version file are not modelled.
- Cas.CasWriter.Add: starts from a fresh directory.
- Replay.AddRecorded: after a failing add or close nothing is said about the files left behind; Finalize returns the error and nothing opens them.
- Certs.CertCache.GetOrCreate: a certificate is a host and an expiry; keys, x509 encoding and the stripped port are not modelled.
- GCS, S3 and local filesystem backends, registry push and pull, and the transport of registries: foreign calls behind the storage interface.
- The proxy library, TLS handshakes and redirect following inside the HTTP client: libraries; upstream is an arbitrary answer or an error.
- SQLite internals, schema migration and pragmas: only the written statements are modelled.
- Configuration, command wiring, output formats, logging, the metrics server and error classification: plumbing.
- `parseSize`, `parseAge`, archive format detection, and the domains, show and invalidate commands: would only add easy members.
- The offline mode with upstream fallback, which runs the serve mode over tiers that include the archive: nothing new beyond the serve mode's theorems.
- Sub-second parts of index time stamps: the index stores whole seconds, which the model takes as given.
