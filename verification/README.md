# Blossom server: verified models

A Dafny model of the parts of the Blossom blob server in which state is shared
between concurrent requests or changed step by step, with proofs about every
run, every input and every interleaving. `dafny verify dfyconfig.toml` checks
the whole project; each file is one module.

## What is modelled

- **Ownership and usage.** `Tables` holds the three tables and one function
  per SQL statement or locked transaction. `Ownership` is the transition system
  of uploads, user, batch and admin deletes, garbage collection and expiration:
  each call has a program counter, each event is one statement of one call or
  the failure of that statement. It proves the ledger of charges against
  reference rows, which steps can remove a row, and that `ref_count` never
  influences anything. `RunAlone` runs each call with no other event, for every
  order of the rows its queries yield, and proves that it finishes with what the
  operation of the same name promises, also after a query that fails. `Usage`
  proves a balance of `used_bytes` for every
  schedule, with an explicit drift, and exactly when usage is exact: throughout
  a run, and once all its calls are done. `BlobServer` is the same code as
  methods run to completion; over every sequence of operations on plaintext or
  e2e blobs usage is exact, the clamp discards nothing and recalculation changes
  nothing, and without expiration usage is exact for encrypted blobs too.
- **Memory cache.** `Lru` says what the cache computes on its entries in
  recency order and proves the eviction, size and residency theorems, `TtlMap`
  relates it to a plain TTL map, and `MemoryCache` is the class with its map,
  recency list and byte count, proved against `Lru`. `Decimal` is the text form
  of counters.
- **Limiters.** `Limiter` is the request and bandwidth limiters on three back
  ends, all proved to decide like one ledger of counts; `BandwidthRace` is the
  charge-then-refund protocol under every interleaving; `MeteredBody` is the
  reader that charges a body in slices, and `MeteredRace` runs many of them
  against one window. Times in `Limiter` are nanoseconds.
- **Placeholders.** `Placeholders` is the SQL rewriting loop, proved equal to a
  character-level automaton.
- **Chunked uploads.** `Chunks` is a session with its chunk rows and files,
  `ChunkRace` the interleaving of UploadChunk statements, `ChunkReader` the
  streaming reader.
- **tus uploads.** `TusStore` is the upload row, chunk rows and objects,
  `TusHandler` the PATCH handler of the tus resumable upload protocol 1.0.0 run
  alone, `TusRace` racing PATCH, DELETE and expiry requests.
- **Encryption.** `Encryption` is the envelope scheme over a cipher of which
  only the laws in `Primitives.Lawful` are assumed; `BlobStore` stores and
  serves blobs in every mode.

## Properties that the code does not have

Each of these has an exact condition, a concrete run, or both.

- `used_bytes` is not conserved by every interleaving: if the credit of a delete
  lands before the charge of the upload it undoes, the clamp discards it
  (`Usage.CreditFirstIsLost`). Usage is exact throughout a run if and only if
  every step lands (`Usage.ExactThroughoutExactlyWhen`), and exact in the end if
  and only if every step landed, for runs in which no charge fails and no sweep
  credits too much (`Usage.ExactAtRestExactlyWhen`).
- Expiration credits the stored size, so a server-encrypted blob is credited
  with more than was charged (`BlobServer.ExpirationConservesExactlyWhen`, and
  the run `BlobServer.ExpiryOvercredits`), although the comment at
  `src/service/expiration_service.go:207-208` says each owner gets back what it
  was charged. Recalculating usage bills for ciphertext
  (`BlobServer.RecalculateIsNoOpExactlyWhen`, `BlobServer.RecalculateBillsCiphertext`).
- Removing a reported blob credits only its first uploader
  (`BlobServer.ReportedConservesExactlyWhen`, `BlobServer.ReportLeavesOwnersCharged`).
- With quotas disabled the batch paths charge and credit nothing, while the
  single-file paths still do (`BlobServer.BlobServer.BatchUpload`,
  `BlobServer.BlobServer.BatchDelete`, `BlobServer.BatchWithoutQuotaIsFree`).
- A bandwidth charge whose sum overflows an int64 is accepted
  (`BandwidthRace.CoveredExactlyWithoutOverflow`,
  `Limiter.LimitHoldsExactlyWithoutOverflow`).
- `cleanup` drops local buckets after ten minutes, not after two windows as its
  comment says, so it changes decisions for longer windows
  (`Limiter.CleanupIsHarmlessExactlyWhen`).
- Get and IncrBy disagree about an entry if and only if it is the very instant
  of its expiry: Get still serves a counter that IncrBy restarts
  (`TtlMap.LivenessDiffersExactlyAtExpiry`, `TtlMap.ExpiryInstantRun`).
- A lost update of `chunks_received` does not delay completion, it prevents it
  for ever: an active session at rest can still complete, in some run of all
  events, if and only if its count equals its recorded chunks
  (`ChunkRace.CompletesExactlyWhenCounted`). The file that a losing duplicate of
  a chunk removes stays missing as long as no statement fails
  (`ChunkRace.CompletesExactlyWhenHealthy`); a failing row lookup, which the code
  takes for "no such chunk", lets the chunk be written again.
- A tus upload deleted between its last append and its read-back is saved as an
  empty blob (`TusRace.FinalizesTheWholeUploadExactlyWhileItExists`).
- With encryption switched off GetFromHash serves the ciphertext of encrypted
  blobs (`BlobStore.SwitchedOffServesExactlyThePlain`).
- Cache keys of the limiters hold whole milliseconds, so windows shorter than one
  share a count (`Limiter.CacheKeysSeparateWindowsExactlyWhen`).
- A counter that was evicted or dropped starts again
  (`TtlMap.LostCounterAgreesExactlyWhen`, `TtlMap.EvictedCounterStartsAgain`), and
  a counter that never expires takes the TTL of an increment that finds it at zero
  (`TtlMap.ZeroCounterTakesExpiry`, `TtlMap.ZeroCounterRun`),
  although `internal/cache/cache.go:28-30` says the TTL is set at creation.

## Model

| member | source | states |
|---|---|---|
| Ownership.RunsKeepInv | src/service/blob_service.go:507-715 | after every schedule no reference dangles and every row describes its own content |
| Ownership.Ledger | src/core/blob_descriptor.go:118-145 | for every schedule, key and hash: reported charges minus credits minus cascades equal the change in the reference row (0 or 1) |
| Ownership.ChargesAreSeparatedByRemoval | api/gin/tus_controller.go:689-692 | between two charges of a key for a blob its reference was removed; so a blob finalized or saved again is charged once per continuous ownership |
| Ownership.RemovalsAreSeparatedByCharge | src/core/blob_descriptor.go:140-144 | between two removals of a reference its key was charged again; so a key is credited once per charge |
| Ownership.SaveReturnsOwnedBlob | src/service/blob_service.go:530-589 | a save with a nil error had row and own reference at that step, and is new exactly when the key did not own the blob before |
| Ownership.SaveFailsExactlyWhen | src/service/blob_service.go:530-589 | in every schedule a save that meets no database error fails only at an insert that finds the row, or at a first reference that does not find it |
| Ownership.ReferencesOfOthersStay | src/service/blob_service.go:619-656 | a reference disappears exactly by its own removal or a forced delete of its blob, and until then its blob row stays |
| Ownership.RowRemovedOnlyWhenUnowned | db/gc.sql.go:53-71 | a blob row goes only when it is ownerless, when its single owner is credited for removing it, or by a forced delete |
| Ownership.RefCountNeverMatters | src/service/blob_service.go:620-651 | runs from states differing only in ref_count take the same branches and stay equal but for ref_count |
| Ownership.ExecBisimilar | db/blobs.sql.go:13-25 | one statement of any call gives the same result whatever the ref_counts |
| RunAlone.EveryCallFinishes | src/service/blob_service.go:507-715 | from every reachable state each call whose statements meet no other event comes to its end |
| RunAlone.OneUploadBeforeCharge | src/bud-02/upload.go:95-124 | alone, an upload that is about to charge has added the reference, which was not there, changed no usage, and charges the blob's length |
| RunAlone.OneUploadAtEnd | src/service/blob_service.go:507-590 | alone, an upload ends with its reference and row there, the others kept, and its key charged the length exactly if it had no reference |
| RunAlone.UploadBeforeCharge | src/service/batch_service.go:192-206 | alone, a batch about to charge has all its references and rows, changed no usage, and charges what the key newly owns |
| RunAlone.UploadAtEnd | src/service/batch_service.go:102-206 | alone, a batch upload ends with all its references and rows, the others kept, and its key charged what it newly owns |
| RunAlone.DeleteBeforeCredit | src/bud-02/delete.go:48-60 | alone, a delete about to credit has removed the reference it is for, and credits the blob's length |
| RunAlone.DeleteAtEnd | src/bud-02/delete.go:10-63 | alone, a delete removes exactly the key's reference, the row with the last one, and credits the length exactly if there was one |
| RunAlone.BatchDeleteAtEnd | src/service/batch_service.go:488-552 | alone, a batch delete removes exactly the key's references, rows with their last one, and credits what the key no longer owns |
| RunAlone.AdminAtEnd | src/bud-02/admin_delete.go:34-102 | alone, for every order of the owners, an admin delete removes the row and every reference and credits every owner the length |
| RunAlone.GcAtEnd | src/service/gc_service.go:155-211 | alone, garbage collection removes exactly the listed rows without an owner |
| RunAlone.SweepAtEnd | src/service/expiration_service.go:155-227 | alone, for every order of the credits, a sweep removes the listed blobs and credits each owner their stored sizes, clamped |
| RunAlone.FailedLookup | src/service/blob_service.go:519-590 | a lookup that fails is taken for absence: the save of a blob already there changes nothing, that of a new one succeeds |
| RunAlone.FailedFileIsSkipped | src/service/batch_service.go:102-206 | a batch whose second statement for its first file fails saves and charges the others as without it |
| RunAlone.FailedHashIsSkipped | src/service/batch_service.go:496-506 | a batch delete whose check of its first hash fails removes and credits the others as without it |
| RunAlone.FailedSizeLookup | src/service/batch_service.go:516-547 | a batch delete whose size lookup fails removes the reference and credits nothing for it |
| RunAlone.FailedRowIsSkipped | src/service/gc_service.go:170-183 | garbage collection goes on with the other rows when its first delete fails |
| RunAlone.FailedOwnerLookup | src/service/expiration_service.go:177-190 | a sweep that cannot list the owners removes the blob for all of them and credits its first uploader alone |
| Usage.UsageBalance | db/users.sql.go:62-86 | for every schedule, usage plus pending charges minus pending credits minus owned sizes changes by exactly the drift of its events |
| Usage.UsageIsOwnedAtRest | src/core/quota.go:62-68 | when all calls are done, usage is what is owned plus the drift of the run |
| Usage.ExactThroughoutExactlyWhen | db/users.sql.go:62-68 | in every run the balance is exact at every point if and only if each credit finds its amount in used_bytes, each batch delete saw its row, no forced delete takes a reference, each sweep credits what was charged, and no charge or credit fails |
| Usage.ExactAtRestExactlyWhen | src/core/quota.go:62-68 | when all calls are done a key is charged for exactly what it owns if and only if every step landed, and otherwise for more, in runs where no charge fails and sweeps credit current owners with plaintext lengths |
| Usage.ClampNeedsUnchargedUpload | db/users.sql.go:62-68 | with an exact balance the clamp fires only while an upload of the same key is still uncharged |
| Usage.OrderlyRunIsExact | src/bud-02/delete.go:48-60 | a schedule that makes every step land: credits wait for charges and sweeps see current owners |
| Usage.CreditFirstIsLost | src/bud-02/upload.go:115-122 | the run in which a delete's credit overtakes the upload's charge leaves the key charged for nothing |
| BlobServer.BlobServer.AddReference | src/service/blob_service.go:681-715 | the statements of the transaction amount to one atomic step |
| BlobServer.BlobServer.DeleteReference | src/service/blob_service.go:619-675 | the statements of the transaction amount to one atomic step, rolled back when nothing was removed |
| BlobServer.BlobServer.SaveWithDedup | src/service/blob_service.go:507-590 | afterwards row and reference exist, other rows are kept, and newReference holds exactly when the key did not own the blob |
| BlobServer.BlobServer.UploadBlob | src/bud-02/upload.go:95-124 | charges the plaintext size exactly when the reference is new, conserves usage, adds the item's row if there was none and keeps the others |
| BlobServer.BlobServer.BatchUpload | src/service/batch_service.go:102-206 | charges together what the key newly owns; conserves usage exactly when quotas are enabled or nothing is due; the new rows are those of the files, the others are kept |
| BlobServer.BlobServer.DeleteBlob | src/bud-02/delete.go:10-63 | removes the reference exactly when it exists, the row with the last one, and credits what was charged, with no clamping; other rows are kept |
| BlobServer.BlobServer.BatchDelete | src/service/batch_service.go:488-552 | frees exactly the sizes the key stops owning; conserves usage exactly when quotas are enabled or nothing is due; rows go exactly with their last owner, others are kept |
| BlobServer.BlobServer.AdminDelete | src/bud-02/admin_delete.go:34-102 | removes and credits every owner, then the row, conserves every key's usage with no clamping, and keeps the other rows |
| BlobServer.BlobServer.CleanupExpired | src/service/expiration_service.go:155-227 | removes the listed rows with their references and credits each owner the stored sizes, clamped; conserves usage with no clamping when the listed blobs are stored as sent |
| BlobServer.BlobServer.Perform | src/service/blob_service.go:507-715 | every operation keeps the foreign key and that no row is smaller than its content, and conserves usage with no clamping unless it sweeps an encrypted blob or is a batch with quotas disabled |
| BlobServer.BlobServer.ServeWithoutSweeps | src/bud-02/upload.go:115-122 | over every sequence of operations other than sweeps, with blobs encrypted or not, usage is exact and the clamp discards nothing |
| BlobServer.BatchWithoutQuotaIsFree | src/service/batch_service.go:201-206 | a run from an empty server with quotas disabled in which a batch is not charged |
| BlobServer.BlobServer.Serve | db/users.sql.go:238-258 | over every sequence of uploads, batches, deletes, admin deletes, expirations and collections of blobs stored as sent, usage is exact, the clamp discards nothing and recalculation changes nothing |
| BlobServer.ExpiryOvercredits | src/service/expiration_service.go:207-227 | a run from an empty server that leaves used 84 against owned 100 |
| BlobServer.ExpirationConservesExactlyWhen | src/service/expiration_service.go:207-227 | usage stays exact if and only if no expired blob of the key is server-encrypted or the clamp hides the excess |
| BlobServer.RecalculateIsNoOpExactlyWhen | db/users.sql.go:238-258 | recalculation changes nothing if and only if none of the key's blobs is server-encrypted |
| BlobServer.RecalculateBillsCiphertext | db/users.sql.go:238-258 | a run from an empty server in which recalculating turns 1 used byte into 17 |
| BlobServer.BlobServer.RemoveReported | src/service/moderation_service.go:253-268 | removes the blob for all owners; conserves usage exactly when the credited uploader was the only owner |
| BlobServer.ReportedConservesExactlyWhen | src/service/moderation_service.go:262-267 | the same condition, on table values |
| BlobServer.ReportLeavesOwnersCharged | src/service/moderation_service.go:253-268 | a run from an empty server that leaves the second owner charged for a removed blob |
| BlobServer.BlobServer.DeleteOwnerlessBlobs | src/service/gc_service.go:155-211 | of any listing, exactly the rows still ownerless go, and usage is conserved |
| BlobServer.CreditRemoval | src/bud-02/delete.go:56-60 | crediting a removed reference restores conservation and the clamp does not fire |
| Lru.FitIsLongestPrefix | internal/cache/memory.go:68-71 | eviction keeps the longest recency prefix that fits |
| Lru.OversizedValueClears | internal/cache/memory.go:73-76 | a value larger than the cache is not stored and leaves the cache empty |
| Lru.StepKeepsDistinct | internal/cache/memory.go:87-89 | no operation leaves two entries for one key |
| Lru.StepKeepsBound | internal/cache/memory.go:156-165 | a Set leaves at most maxSize bytes, an IncrBy at most that or its lone counter of up to 20 bytes, other operations no more than before |
| Lru.SetLeavesAtMostMax | internal/cache/memory.go:68-89 | a Set leaves at most maxSize bytes whatever was there |
| Lru.Residency | internal/cache/memory.go:36-92 | a touched key stays cached through any operations on other keys while its size plus each other key's largest size since sums to at most maxSize |
| Lru.SetPutsInFront | internal/cache/memory.go:57-92 | a value that fits the cache goes to its front with its expiry a TTL from now; a larger one leaves it empty |
| Lru.ResidentIsServed | internal/cache/memory.go:36-92 | after any operations on other keys, each within its budget of bytes, a touched entry that fits beside the budgets is there, and a Get leaves it in front if and only if it has not expired |
| Lru.WrittenIsServed | internal/cache/memory.go:36-92 | so a value that was Set is served, exactly until its TTL has passed |
| Decimal.ParseFormat | internal/cache/memory.go:147-157 | parsing a formatted int64 gives it back |
| Decimal.DigitsCountByPlace | internal/cache/memory.go:147-157 | digits count by their places up to the largest int64, and a leading minus negates |
| Decimal.FormatLength | internal/cache/memory.go:157-158 | a formatted int64 takes at most 20 bytes |
| TtlMap.CacheIsLossyMap | internal/cache/memory.go:36-102 | over every run the cache agrees with a plain TTL map on a key it still has, as long as the key was not incremented after it was lost |
| TtlMap.CacheIsMapWhileKept | internal/cache/memory.go:36-166 | over every run in which a key is not lost the cache is the plain map on it, increments included |
| TtlMap.LostCounterAgreesExactlyWhen | internal/cache/memory.go:145-157 | incrementing a lost counter gives what the map gives if and only if the map's is no longer live, or zero with the same expiry |
| TtlMap.HitIsLatestWrite | internal/cache/memory.go:36-55 | a hit returns the value of the latest write or increment, unexpired, as long as the key was not incremented after it was lost |
| TtlMap.CounterIsSumOfIncrements | internal/cache/cache.go:27-32 | an undisturbed counter is the sum of its increments, wrapped to int64, with its creation-time expiry, if any |
| TtlMap.ZeroCounterTakesExpiry | internal/cache/memory.go:152-154 | a counter without expiry gets one if and only if it is at zero and the increment has a TTL |
| TtlMap.LivenessDiffersExactlyAtExpiry | internal/cache/memory.go:46-149 | Get and IncrBy disagree about an entry if and only if it expires at this instant |
| TtlMap.IncrByRestartsWhatGetServesExactlyWhen | internal/cache/memory.go:145-156 | an increment continues what Get serves, or restarts it if and only if it expires at this instant |
| TtlMap.ExpiryInstantRun | internal/cache/memory.go:46-149 | a run from an empty cache in which a served counter is restarted |
| TtlMap.EvictedCounterStartsAgain | internal/cache/memory.go:145-160 | a run from an empty cache in which 5 and 1 make 1 after an eviction |
| TtlMap.ZeroCounterRun | internal/cache/memory.go:152-154 | a run from an empty cache in which a counter without expiry gets one |
| MemoryCache.MemoryCache.Get | internal/cache/memory.go:36-55 | returns the key's stored bytes exactly if there is an entry that has no expiry or has not passed it, and moves it to the front; an expired one is dropped |
| MemoryCache.MemoryCache.Set | internal/cache/memory.go:57-92 | leaves the value in front with its expiry, or an empty cache if it is too large; computes the Lru operation with map, list and byte count in step |
| MemoryCache.MemoryCache.IncrBy | internal/cache/memory.go:139-166 | adds to the stored count if it is live and to 0 if not, keeps a live entry's expiry, and leaves the new count in front |
| MemoryCache.MemoryCache.Delete | internal/cache/memory.go:94-102 | removes exactly the key's entry |
| MemoryCache.MemoryCache.Close | internal/cache/memory.go:104-112 | leaves an empty cache |
| MemoryCache.MemoryCache.RemoveEntry | internal/cache/memory.go:115-119 | takes the entry out of map, list and byte count together |
| MemoryCache.MemoryCache.EvictLRU | internal/cache/memory.go:122-129 | removes exactly the least recently used entry, if there is one |
| Limiter.Limiter.AllowLocal | internal/ratelimit/ratelimit.go:236-264 | computes the bucket function; what its answers mean is Limiter.BackendAnswers |
| Limiter.Limiter.AllowWithCache | internal/ratelimit/ratelimit.go:207-234 | computes the read-decide-write function; what its answers mean is Limiter.BackendAnswers |
| Limiter.Limiter.AllowBytesWithCounter | internal/ratelimit/ratelimit.go:344-359 | computes the charge-then-refund function; what its answers mean is Limiter.BackendAnswers |
| Limiter.Limiter.AllowRequestsWithCounter | internal/ratelimit/ratelimit.go:194-205 | computes the counting function in which refused requests count; what its answers mean is Limiter.BackendAnswers |
| Limiter.Limiter.Cleanup | internal/ratelimit/ratelimit.go:154-164 | drops exactly the buckets more than 600 seconds old and keeps the others as they are |
| Limiter.CounterBytesStep | internal/ratelimit/ratelimit.go:344-359 | charging and handing back decides and leaves what checking first would |
| Limiter.RequestsStep | internal/ratelimit/ratelimit.go:189-205 | for single requests, counting the refused ones gives the same decisions and remaining values |
| Limiter.BackendsAgree | internal/ratelimit/ratelimit.go:170-264 | in every sequential run each back end gives the ledger's decisions and remaining values, cleanups included |
| Limiter.BackendAnswers | internal/ratelimit/ratelimit.go:170-264 | in every run each back end allows a request exactly if it fits in what its aligned window has admitted to the key so far, and reports limit minus what is admitted then |
| Limiter.CleanupIsHarmlessExactlyWhen | internal/ratelimit/ratelimit.go:311-322 | cleanup never changes a decision if and only if the window is at most ten minutes and one nanosecond |
| Limiter.CacheKeysSeparateWindowsExactlyWhen | internal/ratelimit/ratelimit.go:329 | cache keys tell windows apart if and only if a window lasts at least a millisecond |
| Limiter.WindowAdmitsAtMostLimit | internal/ratelimit/ratelimit.go:387-412 | an aligned window admits no more than what its count leaves of the limit |
| Limiter.LimitHoldsExactlyWithoutOverflow | internal/ratelimit/ratelimit.go:400-409 | every aligned window stays within the limit if and only if no count overflows |
| Limiter.IntervalAdmitsAtMostTwiceLimit | internal/ratelimit/ratelimit.go:324-339 | no interval as short as the window admits more than twice the limit |
| Limiter.BackendRespectsLimit | internal/ratelimit/ratelimit.go:324-412 | both bounds, for every back end |
| BandwidthRace.AcceptedWithinLimit | internal/ratelimit/ratelimit.go:344-359 | under every interleaving, refunds lost or not, accepted bytes never exceed the limit nor the counter |
| BandwidthRace.CoveredExactlyWithoutOverflow | internal/ratelimit/ratelimit.go:344-359 | the counter covers what was accepted at every point of a run if and only if no charge overflowed |
| BandwidthRace.OverflowBreaksTheLimit | internal/ratelimit/ratelimit.go:345-350 | a charge that overflows on a full window is accepted |
| BandwidthRace.CallAlone | internal/ratelimit/ratelimit.go:344-359 | an undisturbed call is allowed exactly if its bytes fit under the limit, and its refusal leaves the counter as it was |
| BandwidthRace.RefundsLand | internal/ratelimit/ratelimit.go:350-351 | in every interleaving without failures, once no call is under way the counter is what was accepted |
| MeteredBody.MeteredBody.Read | api/gin/ratelimit_middleware.go:330-346 | a charge is made exactly at 1 MiB pending or at the end with something pending; granted, the bytes pass and nothing is pending; refused, they are dropped and so is everything after |
| MeteredBody.DeliveredIsCharged | api/gin/ratelimit_middleware.go:318-346 | delivered bytes are a prefix of the source, at most the accepted charges plus a slice less one, all of it unless refused, and all charged at the end |
| MeteredBody.RefusedExactlyWhen | api/gin/ratelimit_middleware.go:318-346 | over every sequence of Reads the body is refused if and only if a charge falls due that is not granted, and otherwise delivers the whole source, charged but for what is pending |
| MeteredBody.FirstRefusalEnds | api/gin/ratelimit_middleware.go:330-346 | the first refusal leaves exactly what was read before it delivered |
| MeteredRace.DeliveredStaysNearLimit | api/gin/ratelimit_middleware.go:226-243 | in every interleaving of Reads and limiter calls, many bodies on one window deliver at most the limit, what a failing cache let through, and less than a slice each |
| MeteredRace.RunKeepsInv | api/gin/ratelimit_middleware.go:330-346 | in every such run all that bodies were charged was granted, once, and each has been charged all but less than a slice |
| MeteredRace.UndisturbedRead | api/gin/ratelimit_middleware.go:226-243 | an undisturbed Read delivers its bytes unless its charge finds no room in the window, and then the body is refused and the window as before |
| MeteredRace.FailingLimiterLetsThrough | internal/ratelimit/ratelimit.go:345-349 | a Read whose limiter call fails is delivered, and the window does not count it |
| MeteredBody.NothingAfterRefusal | api/gin/ratelimit_middleware.go:331-333 | nothing is delivered or charged after a refusal |
| Placeholders.NumberPlaceholders | db/sqlite_placeholders.go:74-123 | the loop computes the automaton's rewriting of every string |
| Placeholders.RewriteKeepsStates | db/sqlite_placeholders.go:72-73 | the output has the input's lexical state at every byte |
| Placeholders.RewriteIsIdempotent | db/sqlite_placeholders.go:72-73 | rewriting again changes nothing |
| Placeholders.NoDollarNoChange | db/sqlite_placeholders.go:75-77 | the fast path agrees with the loop |
| Placeholders.DoubledQuotesAgree | db/sqlite_placeholders.go:83-92 | reading a doubled quote as two quoted runs differs from SQL's escape rule only between the two quotes |
| Placeholders.RewritesExactlyCodePlaceholders | db/sqlite_placeholders.go:109-116 | a byte changes exactly when it is a dollar before a digit in SQL code, and then becomes a question mark |
| Chunks.ChunkSizeFor | src/service/chunked_upload_service.go:81-91 | the chunk size is the one within the configured bounds nearest to the requested or default one |
| Chunks.TotalChunksIsCeiling | src/service/chunked_upload_service.go:93-94 | just enough chunks, the last one not empty |
| Chunks.SizeAllowed | src/service/chunked_upload_service.go:241-253 | the size check amounts to: full chunks, and a last one no longer than a chunk |
| Chunks.Pigeonhole | src/service/chunked_upload_service.go:352-356 | n distinct ascending numbers below n are 0 to n - 1, so row i is chunk i |
| Chunks.ChunkStartsAtOffset | src/service/chunked_upload_service.go:265-266 | in the assembled bytes every chunk lies at its recorded offset |
| Chunks.AssembledLength | src/service/chunked_upload_service.go:241-253 | the length is between n - 1 and n chunks, and the declared total exactly when the last chunk has its expected size |
| Chunks.ArrivalOrderIsIrrelevant | src/service/chunked_upload_service.go:346-380 | the same chunks in any order leave the same table, hence the same bytes |
| Chunks.ChunkedUpload.UploadEach | src/service/chunked_upload_service.go:192-312 | any sequence of accepted uploads leaves exactly that table, each chunk once, and the files to match; a live session accepts the chunks of a file in any order |
| Chunks.ChunkedUpload.UploadChunk | src/service/chunked_upload_service.go:192-312 | accepted exactly under the listed checks, and then recorded, stored and counted; otherwise nothing but expiry changes, and the error is that of the first check that fails |
| Chunks.ChunkedUpload.GetUploadChunks | db/upload_sessions.sql.go:200-205 | all rows, ascending |
| Chunks.ChunkedUpload.Assemble | src/service/chunked_upload_service.go:365-380 | succeeds exactly when every file holds what was recorded, and gives those contents in order |
| Chunks.ChunkedUpload.CompleteUpload | src/service/chunked_upload_service.go:315-471 | succeeds exactly when every chunk is recorded, counted and intact, the digest matches, the tier allows the bytes and the blob is saved; the error names the first that does not hold |
| Chunks.ChunkedUpload.SplitIsReassembled | src/service/chunked_upload_service.go:315-471 | a file split into chunks uploaded in any order is put together again, and can be completed exactly if its digest is the one asked for |
| Chunks.InRangeBySize | src/service/chunked_upload_service.go:224-230 | a chunk number is in range if and only if the chunk starts before the end of the upload |
| Chunks.ChunkedUpload.AbortUpload | src/service/chunked_upload_service.go:474-511 | the session is aborted and its rows and files are gone |
| ChunkRace.CountNeverExceedsRecorded | src/service/chunked_upload_service.go:284-295 | under every interleaving, with any statement failing, an active session never counts more chunks than it has recorded |
| ChunkRace.LostUpdateIsForEver | src/service/chunked_upload_service.go:284-288 | a count behind the rows with no call in flight stays behind in every run, and the session never completes |
| ChunkRace.CompletesExactlyWhenHealthy | src/service/chunked_upload_service.go:337-380 | in runs in which no statement fails, an active session with no call in flight can still complete if and only if count, rows and files agree |
| ChunkRace.CompletesExactlyWhenCounted | src/service/chunked_upload_service.go:232-295 | over all runs, failures included, an active session with no call in flight can still complete if and only if its count equals its recorded chunks |
| ChunkRace.RewriteRepairs | src/service/chunked_upload_service.go:232-263 | a failing row lookup lets a recorded chunk's file be written again |
| ChunkRace.ConcurrentChunksCanBlockCompletion | src/service/chunked_upload_service.go:194-292 | two concurrent chunks can leave one uncounted |
| ChunkRace.DuplicateChunkCanRemoveTheFile | src/service/chunked_upload_service.go:259-282 | a concurrent duplicate that loses the insert removes the winner's file, and until a statement fails the upload cannot complete |
| ChunkRace.BrokenIsForEver | src/service/chunked_upload_service.go:232-239 | in runs in which no statement fails, a recorded chunk without its file is never written again |
| ChunkRace.UndisturbedUpload | src/service/chunked_upload_service.go:192-312 | an undisturbed call stores, records and counts its chunk, or changes nothing but an expired session's status |
| ChunkReader.StreamingChunkReader.Read | src/service/chunked_upload_service.go:654-685 | each read returns the next bytes, makes progress, and reports the end only when all files were read |
| ChunkReader.StreamingChunkReader.ReadEach | src/service/chunked_upload_service.go:653-685 | reads with any buffer sizes together return the stream in order, all of it once one reports the end |
| ChunkReader.StreamAll | src/service/chunked_upload_service.go:644-685 | a fresh reader gives a prefix of the files' bytes, and all of them once a read reports the end |
| TusStore.TusStore.Create | api/gin/tus_controller.go:178-193 | a new upload is empty, at offset 0, and expires in 86,400 seconds |
| TusStore.TusStore.AppendChunk | src/service/tus_store.go:82-130 | appends, advances and moves the expiry to 86,400 seconds from now exactly when the offset is still the upload's, else leaves nothing behind; zero bytes change nothing |
| TusStore.TusStore.ReadFrom | src/service/tus_store.go:136-164 | the accepted bytes from an offset on, an error past the end |
| TusStore.TusStore.ReadChunk | src/service/tus_store.go:166-180 | an object is read exactly when it is there with the recorded size |
| TusStore.TusStore.Delete | src/service/tus_store.go:185-196 | the upload goes with its rows and exactly their objects |
| TusStore.TusStore.DeleteIfExpired | src/service/tus_store.go:237-241 | an upload goes exactly when it is still expired |
| TusStore.FetchFacts | src/service/tus_store.go:136-164 | of rows that tile the upload, whatever is read back is the accepted bytes from the offset on |
| TusStore.TiledIsOrdered | db/tus_uploads.sql.go:217-222 | ordering by offset gives the rows in the order they were accepted |
| TusHandler.TusHandler.AppendBody | api/gin/tus_controller.go:534-544 | a body longer than the bytes left is refused whole, any other is appended |
| TusHandler.TusHandler.MatchStoredTail | api/gin/tus_controller.go:550-564 | a retry is taken exactly when it is the stored bytes from its offset to the end |
| TusHandler.TusHandler.FinalizeUpload | api/gin/tus_controller.go:619-700 | saves the upload's bytes and deletes it, keeps everything when a check may pass later, or deletes it unsaved when it never can |
| TusHandler.TusHandler.Patch | api/gin/tus_controller.go:295-421 | taken exactly for the next bytes within the size or a retry of the tail; completing it saves all accepted bytes, of the declared size; an unreachable blocklist, a wrong checksum or a failed save keeps the upload, a blocked key, lost access or an oversize deletes it; it is gone only past its expiry, a day from creation or the last chunk |
| TusRace.RunKeepsInv | api/gin/tus_controller.go:316-377 | every interleaving keeps the rows tiling the accepted bytes, the objects right and the snapshots whole or empty |
| TusRace.ChunksTileTheUpload | db/tus_uploads.sql.go:12-36 | in every run the rows cover [0, offset) without gap or overlap, the offset is at most the size, and reading back gives the accepted bodies joined |
| TusRace.OffsetOnlyGrows | db/tus_uploads.sql.go:12-16 | in every run the offset never decreases, accepted bytes never change, and a deleted upload stays deleted |
| TusRace.TakenRetryIsTheTail | api/gin/tus_controller.go:550-564 | whatever ran in between, a retry that is taken is the tail of the accepted bytes and writes nothing |
| TusRace.RetryIsTakenExactlyWhenItIsTheTail | api/gin/tus_controller.go:316-320 | while the upload exists a retry is taken if and only if it is the tail |
| TusRace.SavedIsWholeOrEmpty | api/gin/tus_controller.go:631-681 | in every run each saved blob is the accepted bodies joined, of the declared size, or empty |
| TusRace.FinalizesTheWholeUploadExactlyWhileItExists | api/gin/tus_controller.go:631-634 | whatever runs between listing and reading, the finalized bytes have the declared size if and only if the upload still exists at the listing or its size is zero |
| TusRace.DeleteDuringFinalizeSavesNothing | api/gin/tus_controller.go:447-455 | for every body, the run in which a DELETE overtakes the read-back saves an empty blob |
| TusRace.UndisturbedPatch | api/gin/tus_controller.go:295-421 | from every reachable state an undisturbed PATCH appends, saves, takes a retry, removes an expired upload or refuses, as the handler does |
| TusRace.UndisturbedRemoval | src/service/tus_store.go:185-241 | an undisturbed DELETE removes the upload, its rows and objects; a sweep does exactly if it has expired |
| TusRace.FailedRecordLeavesNothing | src/service/tus_store.go:82-130 | a chunk that cannot be recorded, or comes late, loses its object and changes nothing else |
| Encryption.DecryptUndoesEncrypt | internal/encryption/encryption.go:103-209 | decryption gives the plaintext back; the ciphertext is 16 bytes longer and opens under the drawn key, which is stored behind a nonce of 12 bytes and opens under the master key |
| BlobStore.BlobService.Save | src/service/blob_service.go:47-168 | under a new hash, with a master key of 32 bytes and mode server or none, row and object hold the sealed bytes, and otherwise the bytes as they came; a hash already stored keeps its row but loses its object |
| BlobStore.BlobService.Prepare | src/service/blob_service.go:58-114 | seals the blob exactly if there is a master key of 32 bytes and the mode is server or none |
| BlobStore.SealedExactlyWhen | src/service/blob_service.go:58-114 | the same, for the row of every mode, declared size and key |
| BlobStore.BlobService.GetFromHash | src/service/blob_service.go:191-234 | serves the bytes saved under the hash, whatever was saved, refused or deleted since, and reports their length, for e2e the declared one |
| BlobStore.BlobService.GetDescriptor | src/service/blob_service.go:176-189 | reports the length of the saved bytes |
| BlobStore.BlobService.DeleteFromHash | src/service/blob_service.go:455-472 | removes row and object of that hash and nothing else |
| BlobStore.SavedIsServed | src/service/blob_service.go:191-234 | in every mode, with or without object storage, the saved bytes are served |
| BlobStore.SizesAgree | src/service/blob_service.go:148-187 | with the length every caller passes, the sizes of Save, GetDescriptor and GetFromHash and the number of bytes served agree in every mode |
| BlobStore.SizesAgreeExactlyWhen | src/service/blob_service.go:183-187 | with any declared size, GetFromHash's size is the served length if and only if the blob is not e2e or the size is its length |
| BlobStore.ReportedSizesAgreeExactlyWhen | src/service/blob_service.go:183-197 | after any run the two sizes of a stored blob agree if and only if it is not e2e or was declared with its length |
| BlobStore.SwitchedOffServesExactlyThePlain | src/service/blob_service.go:211-231 | with encryption switched off since, the saved bytes are served if and only if they were not encrypted |

## Left out

- Ownership.Ledger: assumes that a content hash determines its content, hence its length; a cascade is counted beside credits because expiration removes references without DeleteReference.
- Usage.ExactAtRestExactlyWhen: in runs outside it, errors of both signs can cancel by the end; for those the statements are Usage.ExactThroughoutExactlyWhen and the error given by Usage.UsageIsOwnedAtRest.
- BlobServer.BlobServer.CleanupExpired: the owner lookup and the delete of a row are one step here; apart they are separate steps in Ownership.
- RunAlone.SweepAtEnd: for a listing of rows that exist, each once with its size, as the query gives it; stale listings are in Ownership.
- RunAlone.FailedFileIsSkipped: about one failing statement; every mixture of failures is in the runs of Ownership and Usage.
- Limiter.BackendsAgree: promised for amounts from 0 to the largest int64, a fixed window, of at least a millisecond for the cached back ends, and for the request counter single requests, which is what its callers make; a cache that loses entries or fails is not in it.
- Limiter.BackendRespectsLimit: for runs in which no count overflows; Limiter.LimitHoldsExactlyWithoutOverflow shows this is necessary.
- BandwidthRace.AcceptedWithinLimit: for runs in which no charge overflows; BandwidthRace.CoveredExactlyWithoutOverflow shows this is necessary. Requests a failing cache lets through are not counted as accepted.
- TtlMap.CacheIsLossyMap: a counter incremented after it was lost starts again, which a plain map would not; TtlMap.LostCounterAgreesExactlyWhen says when that shows.
- ChunkRace.BrokenIsForEver: for runs in which no statement fails; ChunkRace.CompletesExactlyWhenCounted covers the others.
- TusRace.SavedIsWholeOrEmpty: reading the listed objects is one step; objects never change, so a read spread over several steps gives the same bytes or an error.
- TusStore.TusStore.AppendChunk: the object key's random suffix is taken to be new; a commit whose outcome is unknown is not modelled.
- Chunks.ChunkedUpload.CompleteUpload: the outcomes of the tier check and of the save are parameters; the save and its charge are in Ownership and BlobServer.
- BlobStore.BlobService.Save: failures of the random source and of object storage are left out; both return before any row is written.
- MeteredRace.DeliveredStaysNearLimit: for runs in which no charge on the window overflows, as in BandwidthRace.
- Object storage in the interleavings: the cleanup of a failed insert and the delete after a row delete can remove an object that a concurrent upload has just written; the row also holds the bytes.
- Admission checks around the modelled calls: authentication, blocklist, access rules, MIME types, size caps, quota limits and dry runs. Quotas kept by an external platform are not part of this model.
- The listing order and limit of garbage collection and expiration queries, advisory locks, timers and worker loops.
- Redis, and the JSON form of the entries the read-then-write limiters keep in a cache.
- Creation-with-upload of tus, and the HTTP status of each refusal.
- SHA-256, AES-GCM and base64 themselves, and isolation below one SQL statement.
- HTTP routing, HTML, Nostr events, federation, payments, media processing, metrics and logging.
