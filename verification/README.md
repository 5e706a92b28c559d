# Garret: a Dafny model

Garret is a Nix binary cache. A push writes a blob to S3 and a row to SQLite, and
GC, operator deletes, prunes, orphan sweeps and fsck repairs take both away again,
all at once and with nothing but in-memory claims and the order of their steps to
keep the two stores in agreement. This project models that protocol and the
algorithms around it, and proves what they promise, over every run and every input.

| files | what they hold |
|---|---|
| `Basics`, `Graphs` | shared types; reference graphs, reachability, the least fixed point behind prune's mark |
| `Catalog`, `Connections` | the database as a value and its transactions; the connection as an object whose methods are proved to perform them |
| `Prune`, `Kahn`, `Sorts` | prune's mark against root-first deletion; the two Kahn sorts, on arrays of counters, and what each is used for |
| `Protocol`, `Safety`, `Closures`, `Repair` | every actor as one transition system; row-implies-blob; no new dangling references, pins, the push window; fsck |
| `InFlight`, `GcPass` | the claim set and its quiesce gate; one GC pass with its batches, claims and blob deletes |
| `Checkers`, `Offload` | the NarHash/NarSize check; the same check on a thread behind a bounded queue |
| `Framing`, `Uploads` | the preamble split; re-chunking, multipart uploads and a whole upload up to its row |
| `Budgets`, `Slots` | the byte budget's shift arithmetic; any number of uploads sharing it |
| `Watcher`, `Retries` | the store watcher's crash-safe files; one path's retry schedules |
| `Tree`, `Listing`, `Base32` | the dependency tree; keyset pagination and its cursors; Nix base32 |

`dafny verify dfyconfig.toml` checks all of it.

## How it is modelled

A step of the protocol is one SQLite transaction, one claim taken or dropped under
the in-flight lock, one S3 call, or one look at the clock. Any number of actors
interleave step by step; each may give up between two of its steps, and the process
may crash. Where the source changes things in place the model does too: the
connection, the claim set, a deletion, a GC pass, the checker, the body reader, a
multipart upload, the backoff, the failed list and the tree walker are classes with
`modifies` clauses, proved against functions about which the lemmas are stated.

Assumptions:

- S3 calls take effect before they return or not at all; a failed `DeleteObjects` may
  have removed any of its keys; a listing is a snapshot.
- The clock does not go backwards, sizes are not negative, integers are unbounded except
  where the source's width matters (the 32-bit length prefix, the 8-bit shifts, 64-bit
  cursors), and the GC watermark is an integer.
- SHA-256 is a free symbol: a digest stands for the bytes it was taken over. zstd is any
  decoder that obeys the contract `Checkers.Lawful` spells out; `Checkers.StoredIsLawful`
  shows one that does.
- The Pusher's one database connection is a lock; prune and the sweep's last check hold
  it over several steps.
- A claim records the actor whose guard will drop it.
- The upload semaphore is first come, first served, and gives permits to the waiter at
  its head as they come back, as tokio's does.
- Ids of the Nix database's valid paths are never reused.

Where the code and its comments part:

- `crates/garret-server/src/storage.rs:556-559` says that a waiter never holds a permit.
  The head of the semaphore's queue holds whatever permits the uploads do not, for as
  long as those are too few for it (`Slots.HeadHasTheRest`), and that comes about exactly
  if a part takes more than one permit (`Slots.WaitersHoldPermits`). The uploads do not
  wedge each other all the same (`Slots.NeverStuck`).
- Prune's mark is what GC's root-first deletion comes to exactly if the objects it marks
  form no cycle (`Prune.MarkEqualsRootFirst`), which is also exactly when prune's sort
  does not refuse them (`Connections.Connection.DeletePruned`).
- A tree with a depth limit cuts by the depth of a hash's first place in the walk, so it
  can leave out one that is nearer by another way: for every limit but 0 and 1
  (`Tree.NearIsShownToOne`). It is whole on all caches of a given size exactly from a
  limit of that size on (`Tree.WholeFromCount`).
- `crates/garret-pusher/src/verify.rs:47-50` bounds the chunks queued for an offloaded
  check. One more is in the thread's hands: up to nine chunks can be stored and unchecked
  (`Offload.OffloadedIsInline`), and are (`Offload.BoundIsReached`).
- The push window and the fsck grace are exact: pushes end whole within a window if and
  only if it is at most 82 800 s (`Closures.WindowIsExact`), and repairs spare healthy
  rows if and only if the grace is longer than the audit took (`Repair.GraceIsExact`).
- A preamble is found again exactly if it is within the limit (`Framing.FramedIsFound`);
  a length of 2^32 or more wraps in the prefix.

## Model

| member | source | states |
|---|---|---|
| Safety.RowImpliesBlob | crates/garret-pusher/src/main.rs:449-582 | from any intact start, in every state of every run of every actor with failures, drops and crashes but no drift: each row has a blob with exactly the recorded digest and size, no upload overwrites a row's blob, no blob delete hits a path with a row |
| Safety.NextKeepsSafe | crates/garret-pusher/src/deletion.rs:26-71 | every step of every actor keeps the invariant: claims exclusive, a queued blob under a delete claim and without a row, an upload past its re-check without a row, prune's doomed set closed under referrers, the counter equal to the sum |
| Safety.SafeSparesRows | crates/garret-pusher/src/gc.rs:152-235 | in a safe state no put or insert meets a row of its path, and no blob delete a path with a row |
| Safety.PruneKeepsSafe | crates/garret-pusher/src/admin.rs:292-326 | prune's steps, batch by batch under the lock, keep the invariant |
| Safety.SweepKeepsSafe | crates/garret-pusher/src/gc.rs:204-243 | the orphan sweep's snapshot, claims and final row checks keep the invariant |
| Safety.AdminKeepsSafe | crates/garret-pusher/src/admin.rs:179-227 | an operator's delete keeps the invariant |
| Closures.CommitKeepsClosures | crates/garret-server/src/db.rs:425-492 | no GC or prune commit, intermediate batches and stale candidates included, makes a reference dangle that did not, and every survivor reaches exactly what it reached |
| Closures.PinKeepsClosure | crates/garret-server/src/db.rs:249-309 | as long as a pin whose expiry is ahead or that has none is not replaced, its object keeps its whole present closure over any run, re-pushes included, whatever operators and repairs delete outside that closure |
| Closures.PermanentPinKeepsClosure | crates/garret-server/src/db.rs:435-444 | a pin without an expiry does so at any time |
| Closures.InsertKeepsRefs | crates/garret-server/src/db.rs:288-303 | over every run, the row an insert leaves has exactly the references its own upload's preamble named |
| Closures.UploadedRefsAreKept | crates/garret-server/src/db.rs:425-439 | for as long as that row stands it has just those references, and none of them but itself is evictable at any time |
| Closures.PushEndsWhole | crates/garret-client/src/push.rs:457-497 | a push of at most 82 800 s whose missing paths were all acknowledged ends with everything it negotiated present, whatever GC, prune and other pushers do |
| Closures.PushKeeps | crates/garret-server/src/db.rs:680-710 | during that window, what the push negotiated and is present stays present and counts as recently pushed |
| Closures.PushWindowIsTight | crates/garret-common/src/lib.rs:154 | one second past the window there is a run that evicts a path Negotiation had reported present |
| Closures.WindowIsExact | crates/garret-common/src/lib.rs:154 | every push within a window ends with all it negotiated present if and only if the window is at most 82 800 s |
| Repair.RepairSparesHealthy | crates/garret-pusher/src/fsck.rs:51-202 | in any run, with S3 losing blobs and giving a row's blob another size at any time, a repair deletes only a row with no blob of the recorded size, if the grace is longer than the time from blob listing to classification |
| Repair.RepairFindsNothing | crates/garret-pusher/src/fsck.rs:113-202 | without drift such a repair deletes nothing |
| Repair.RepairNeedsGrace | crates/garret-pusher/src/fsck.rs:113-152 | with a grace no longer than the audit takes, a run without drift comes to repair a healthy row |
| Repair.GraceIsExact | crates/garret-pusher/src/fsck.rs:113-202 | repairs spare every row whose blob is there with the recorded size if and only if the grace is longer than the time from blob listing to classification |
| Prune.MarkEqualsRootFirst | crates/garret-server/src/db.rs:717-749 | prune's mark is exactly what repeated deletion of old, unpinned, unreferenced objects removes, in any order, once none is left: if and only if the marked objects form no cycle; cycles among what stays do not matter |
| Prune.CyclesStay | crates/garret-server/src/db.rs:425-439 | root-first deletion never takes a member of a cycle |
| Prune.MarkExceedsRootFirstOnCycle | crates/garret-server/src/db.rs:728-749 | a database with a cycle on which the two differ |
| Prune.ReferrersFirstIsRootFirst | crates/garret-server/src/db.rs:754-767 | prune's set deleted in any referrers-first order is such a root-first deletion, and exhausts it |
| Catalog.PrunableIsClosed | crates/garret-server/src/db.rs:728-749 | what prune deletes is old, unpinned and closed under referrers |
| Catalog.PrunableIsUnreached | crates/garret-server/src/db.rs:728-749 | the mark's complement is exactly what neither an object pushed since the cutoff nor a pin in force reaches |
| Catalog.RemovedIsSound | crates/garret-server/src/db.rs:538-553 | a delete's debit never passes zero, so its clamp never fires, and the counter stays the sum of the sizes |
| Catalog.InsertedIsSound | crates/garret-server/src/db.rs:249-309 | an upsert credits the difference, and keeps the counter the sum |
| Catalog.NegotiatedIsSound | crates/garret-server/src/db.rs:680-710 | Negotiation moves no bytes |
| Graphs.MarkIsReached | crates/garret-server/src/db.rs:728-749 | the recursive query's fixed point is exactly what some root reaches |
| Graphs.MarkIsLeast | crates/garret-server/src/db.rs:728-749 | it is the least closed set holding the roots |
| Basics.BeforeIsByteOrder | crates/garret-server/src/db.rs:460 | one hash is before another exactly if it is a proper prefix or smaller at the first difference |
| Connections.Connection.InsertObject | crates/garret-server/src/db.rs:249-309 | the row is the object as given, references included, and no other row changes; the pins stay; the counter moves by the size less the old row's |
| Connections.Connection.EvictObject | crates/garret-server/src/db.rs:474-492 | deletes exactly if no other row refers to the object, no pin on it is without an expiry or has one ahead, and it was last pushed more than a day ago; then its row, pins and bytes go, else nothing changes |
| Connections.Connection.PinObject | crates/garret-server/src/db.rs:496-513 | the pin set or replaced, exactly if the object has a row |
| Connections.Connection.Unpin | crates/garret-server/src/db.rs:517-519 | that pin gone and no other, and whether it was there |
| Connections.Connection.DeleteObject | crates/garret-server/src/db.rs:526-534 | deletes the row with its pins and its bytes, and nothing else, if there is one |
| Connections.Connection.ReconcileTotalBytes | crates/garret-server/src/db.rs:405-415 | the counter is the sum of the rows, whatever it was |
| Connections.Connection.Missing | crates/garret-server/src/db.rs:680-710 | exactly the named hashes without a row, in order; those with one are marked pushed now if they were last an hour ago, and no other field changes |
| Connections.Connection.EvictableBatch | crates/garret-server/src/db.rs:455-468 | evictable objects only, ordered by last access and then by the bytes of their hashes, none skipped that was accessed earlier, none left out short of the limit |
| Connections.Connection.FindPrunable | crates/garret-server/src/db.rs:728-749 | refused exactly for a cutoff within the last day; else exactly the rows that no object pushed since the cutoff and no pin without an expiry or with one ahead reaches |
| Connections.Connection.DeletePruned | crates/garret-server/src/db.rs:754-767 | succeeds exactly if the doomed objects are acyclic among themselves; all of them go, or on refusal nothing does |
| Connections.RemovedTwice | crates/garret-server/src/db.rs:754-767 | deleting in short commits is deleting at once |
| Sorts.ReferrersFirstOrder | crates/garret-server/src/db.rs:771-808 | fails exactly on a cycle among the doomed; else every one once, each before what it refers to |
| Sorts.ReferencesFirst | crates/garret-client/src/push.rs:779-816 | always a permutation; references first for what no cycle blocks, the rest last in original order, each of them referring to another of the rest; all of it sorted exactly if the batch is acyclic |
| Kahn.SortByStack | crates/garret-server/src/db.rs:771-808 | over any multigraph of indexes: a topological order, complete exactly if the graph is acyclic, no counter below zero |
| Kahn.SortByQueue | crates/garret-client/src/push.rs:779-816 | the same with a queue, and the cycle-blocked rest appended in order |
| Kahn.CountOff | crates/garret-client/src/push.rs:779-816 | one node's edges counted off: each counter down by its edges, freed exactly when it reaches zero |
| InFlight.Set.Claim | crates/garret-server/src/inflight.rs:97-103 | an upload claim exactly if the gate is open and the path free; else refused with the reason and nothing changed |
| InFlight.Set.ClaimDelete | crates/garret-server/src/inflight.rs:107-109 | a delete claim exactly if the path is free, gate or no gate |
| InFlight.Set.Drop | crates/garret-server/src/inflight.rs:177-201 | the claim gone, the upload count down and waiters to be woken exactly if it was an upload's |
| InFlight.Set.Quiesce | crates/garret-server/src/inflight.rs:149-152 | one more guard on the gate, claims untouched |
| InFlight.DrainIsReliable | crates/garret-server/src/inflight.rs:149-201 | over every run: the count is the number of upload claims, a successful drain means no upload claim until the last guard drops, and no wake-up is lost |
| GcPass.Deletion.ClaimAll | crates/garret-pusher/src/deletion.rs:26-44 | every path claimed, or none |
| GcPass.Deletion.Finish | crates/garret-pusher/src/deletion.rs:66-71 | blobs deleted as far as S3 goes along, any of them on a failure, claims released in any case |
| GcPass.Gc.Evict | crates/garret-pusher/src/gc.rs:129-182 | a pass ends; evicts in root-first order and never past the mark; each batch takes, of what is evictable then and unclaimed, only what was accessed no later than all it leaves; counters and results are the true sums; it stops at the mark, when a whole batch is claimed, or exhausted, and exhausted leaves exactly what live pins and in-grace objects reach if and only if the others form no cycle; a failed blob delete ends it with any of the batch's blobs gone; claims are all given back |
| GcPass.Gc.Round | crates/garret-pusher/src/gc.rs:137-182 | one batch with its blobs: no object goes while an unclaimed evictable one that was accessed earlier stays; the blobs go as far as S3 goes along, and the claims with them |
| GcPass.Gc.EvictBatch | crates/garret-pusher/src/gc.rs:152-175 | one batch: exactly the candidates nobody has claimed, in order, as far as it takes for usage to reach the mark |
| GcPass.Gc.EvictOne | crates/garret-pusher/src/gc.rs:153-170 | one candidate: deleted exactly if unclaimed and still evictable; a declined one's claim is dropped and nothing changes |
| GcPass.ExhaustedLeavesReached | crates/garret-pusher/src/gc.rs:137-147 | nothing evictable left means what is left is what the roots reach, exactly if what they do not reach forms no cycle |
| Checkers.CheckIsExact | crates/garret-pusher/src/verify.rs:84-145 | for every chunking the check passes exactly the bodies that are whole frames of the claimed content, within the compressed bound, and what a refusal says of the body is so: too long, malformed, more than claimed, cut off in a frame, of that size, of that hash |
| Checkers.Checker.FeedChunk | crates/garret-pusher/src/verify.rs:84-125 | the decoder loop ends, and does what the check's definition says, refusal by refusal |
| Checkers.Checker.FinishCheck | crates/garret-pusher/src/verify.rs:127-145 | the three refusals at the end of the stream, in order |
| Offload.Inline | crates/garret-pusher/src/verify.rs:281-329 | polled to the end inline: the check's verdict, and the whole body passed on if it accepts |
| Offload.OffloadedIsInline | crates/garret-pusher/src/verify.rs:201-329 | under every schedule of task and thread the outcome is the inline one unless the thread died; accepted only with the body checked and passed on whole; never more than nine chunks passed on and unchecked, eight queued and one in the thread's hands |
| Offload.BoundIsReached | crates/garret-pusher/src/verify.rs:210-220 | for every longer body some schedule has nine chunks passed on and none checked |
| Offload.NeverStuck | crates/garret-pusher/src/verify.rs:253-329 | until the stream has ended task or thread can move |
| Offload.EveryScheduleEnds | crates/garret-pusher/src/verify.rs:201-329 | every schedule is at most linear in the chunks, and stops only with the stream ended |
| Offload.AcceptedIsHonest | crates/garret-pusher/src/verify.rs:148-329 | accepted exactly if the body is what was claimed, whatever the schedule and the chunking; and refused only for a reason that is so |
| Framing.FramedIsFound | crates/garret-common/src/lib.rs:30-51 | the framed preamble's end is found exactly if it is within the limit |
| Framing.PrefixRoundTrip | crates/garret-common/src/lib.rs:30-51 | the prefix is the length modulo 2^32, little end first, and is read as what was written |
| Framing.SplitIsSettled | crates/garret-pusher/src/main.rs:588-600 | later bytes change no split, they go to the NAR |
| Framing.SplitRoundTrip | crates/garret-common/src/lib.rs:30-51 | a preamble of up to a mebibyte and the NAR come back as sent; a longer one that fits the prefix is refused as implausible |
| Framing.ReadPreamble | crates/garret-pusher/src/main.rs:510-531 | the split, refusals included, depends on the body's bytes and not on the chunks |
| Uploads.BodyReader.Next | crates/garret-server/src/storage.rs:321-336 | carry first, then body; nothing skipped, the end seen only past the last byte |
| Uploads.BodyReader.Fill | crates/garret-server/src/storage.rs:350-366 | exactly the cap, or all that is left at the end; part and rest are the body; just those bytes hashed |
| Uploads.BodyReader.HasMore | crates/garret-server/src/storage.rs:370-378 | whether a byte is left, none consumed |
| Uploads.Multipart.Collect | crates/garret-server/src/storage.rs:385-392 | any part in flight may finish next; parts in flight and parts in stay all the parts |
| Uploads.Multipart.Complete | crates/garret-server/src/storage.rs:600-619 | sorted by number, the completed parts join to the body whatever order they finished in |
| Uploads.MultipartBody | crates/garret-server/src/storage.rs:560-603 | parts uniform and none empty, the body read to its end, at most the configured parts in flight |
| Uploads.PutStreaming | crates/garret-server/src/storage.rs:473-552 | all or nothing; on success the object is the body, uniform parts past one part, digest and length those of the object, and the stream's end was seen; refused over the hint exactly when a sub-part hint is outgrown, before any write; an S3 error only after one |
| Uploads.StoreUpload | crates/garret-pusher/src/main.rs:503-600 | inline or under any schedule of an offloaded check: stored exactly the NAR part of a body with a valid preamble and an honest NAR, digest and size its own; a preamble that is missing, malformed or invalid is a refusal before any write; each later error has its cause: a refusal a dishonest NAR, an S3 error a write that was tried, an outgrown limit, a body that broke off, a dead thread; any failure stores nothing |
| Uploads.StoreClaimed | crates/garret-pusher/src/main.rs:536-563 | the same from the preamble on: who is to blame for a NAR that was not stored |
| Uploads.CheckNar | crates/garret-pusher/src/verify.rs:201-329 | the check of a stream to its end or break: accepted only whole and honest, refused only if dishonest, failed only if the thread died |
| Uploads.StreamedIsExact | crates/garret-pusher/src/verify.rs:201-329 | at the end of every schedule: accepted only an honest NAR passed on whole, and an honest one that does not break is accepted unless the thread died |
| Budgets.BudgetFitsCap | crates/garret-server/src/storage.rs:127-137 | the whole budget is less than a unit away from a cap of at least one part |
| Budgets.BudgetHoldsAPart | crates/garret-server/src/storage.rs:127-137 | a part always fits, and a cap below one part becomes one part |
| Budgets.UnitsForCovers | crates/garret-server/src/storage.rs:135-142 | a reservation covers its buffer by less than a unit too much, and never exceeds the budget |
| Budgets.UnitIsLargest | crates/garret-server/src/storage.rs:123-132 | the unit is the largest power of two that is at most 64 KiB and 1/256 of a part, or 1 |
| Slots.BuffersStayWithinCap | crates/garret-server/src/storage.rs:91-142 | for any number of uploads, at any time: buffers within their permits, permits within the budget, less than a unit past the cap, at most the configured reservations each, and a waiting upload's only reservations are its parts on their way |
| Slots.HeadHasTheRest | crates/garret-server/src/storage.rs:91-107 | a waiter has permits exactly if it is at the head and the uploads hold fewer than all; the head then has just the difference, and too few for it |
| Slots.WaitersHoldPermits | crates/garret-server/src/storage.rs:554-559 | some run brings a waiter to hold permits exactly if a part takes more than one |
| Slots.NeverStuck | crates/garret-server/src/storage.rs:487-598 | with any upload under way some upload can move on |
| Slots.SettleKeeps | crates/garret-server/src/storage.rs:91-107 | handing out permits conserves them, keeps the queue in order, and leaves none free while anyone waits |
| Watcher.NothingIsLost | crates/garret-client/src/watcher.rs:362-480 | over every run of daemon, retries, drains and crashes between any two writes, with paths unlisted and listed anew at any time: each selected path the store lists now, between the starting cursor and the one on disk, has been held by the cache since it was listed, is missing from the store, or is on the failed list on disk |
| Watcher.BatchCovers | crates/garret-client/src/watcher.rs:131-148 | a batch leaves out no listed path up to its last |
| Watcher.HashOfStorePath | crates/garret-common/src/lib.rs:54-57 | the hash of `<dir>/<hash>-<name>`, whatever the directory |
| Watcher.FailedList.Apply | crates/garret-client/src/watcher.rs:241-258 | what failed again stays with another attempt spent, the rest of the chunk comes off, nothing else changes |
| Watcher.FailedList.RecordFailure | crates/garret-client/src/watcher.rs:216-221 | on the list, one more attempt spent |
| Watcher.Outside.PushBatch | crates/garret-client/src/watcher.rs:486-493 | every path of a batch comes out failed, held by the cache, or gone |
| Watcher.Outside.PushDescribed | crates/garret-client/src/watcher.rs:505-540 | every described path is failed or held, whether Negotiation or an upload settled it |
| Watcher.Outside.Describe | crates/garret-client/src/watcher.rs:546-564 | every path is described, failed, or gone |
| Retries.PushOne | crates/garret-client/src/push.rs:675-718 | against any server, clock and jitter it ends within 902 + 901 * max_retries attempts, and within 3602 + max_retries; every attempt but the last was one to retry, after exactly the wait its schedule has for it, and the last is a success or one not to retry: deadline, fault budget spent, second 401, refusal; pushed exactly if the last answer was that the path was created, deduplicated exactly if it was there, else failed |
| Retries.BoundIsReached | crates/garret-client/src/push.rs:959-1026 | some push takes 902 + 901 * max_retries attempts if and only if max_retries is 0, since the waits for faults use up the same deadline |
| Retries.SchedulesDouble | crates/garret-client/src/push.rs:977-1016 | the k-th fault waits 250 ms times 2^k, the k-th poll 2^k seconds but at most 30 |
| Retries.Backoff.Queued | crates/garret-client/src/push.rs:1020-1026 | a wait granted exactly if it ends by the deadline; the fault budget is renewed |
| Retries.Backoff.Next | crates/garret-client/src/push.rs:997-1008 | a fault is retried exactly while its budget lasts, after a delay doubling from 250 ms |
| Retries.Backoff.InProgress | crates/garret-client/src/push.rs:1012-1016 | the poll as it stands, granted exactly if it ends by the deadline, and doubled up to 30 s |
| Retries.ShedFor | crates/garret-client/src/push.rs:1115-1121 | between a second and the deadline, the value asked for when in range, a second when unreadable |
| Tree.EachHashExpandsOnce | crates/garret-server/src/browse.rs:174-238 | on any graph and depth: each hash in the tree is first at exactly one node, repeats are marked, repeats and missing objects have no children |
| Tree.TreeIsShaped | crates/garret-server/src/browse.rs:174-238 | at any depth limit: each node shows its references but itself, in order, unless it is a repeat, not cached or at the limit, and exactly the nodes whose hash came before them in the walk are repeats |
| Tree.TreeIsReached | crates/garret-server/src/browse.rs:174-238 | the tree shows only what the root reaches through cached objects |
| Tree.DeepTreeIsWhole | crates/garret-server/src/browse.rs:174-238 | with a limit of at least the number of cached objects, exactly that |
| Tree.WholeFromCount | crates/garret-server/src/browse.rs:174-238 | a limit makes the tree whole on every cache of n objects if and only if it is at least n |
| Tree.NearIsShownToOne | crates/garret-server/src/browse.rs:202-238 | a limit's tree shows everything within that many references on every cache if and only if the limit is 0 or 1 |
| Tree.Walker.ChildrenOf | crates/garret-server/src/browse.rs:202-238 | the walk with its mutable seen set builds the tree its definition gives |
| Tree.BuildTree | crates/garret-server/src/browse.rs:174-187 | the tree of a cached root, none for a missing one |
| Listing.List | crates/garret-server/src/browse.rs:75-110 | a page is the first of what follows the cursor, full and with a next cursor exactly if more is left |
| Listing.PageIsNewestFirst | crates/garret-server/src/browse.rs:75-110 | a page is newest first and then by hash, of objects that are there, match and lie past the cursor, never more than 500 of them nor than asked for; with a next cursor it is full |
| Listing.StableIsListedOnce | crates/garret-server/src/browse.rs:75-110 | whatever comes and goes between pages, of whatever limits, what stays is listed once and the listing is in strict order |
| Listing.FixedIsListedWhole | crates/garret-server/src/browse.rs:23-32 | over a fixed database the pages are together the whole sorted, filtered listing |
| Listing.FollowingEnds | crates/garret-server/src/browse.rs:75-110 | over a fixed database following the cursors ends, after at most one page more than there are objects |
| Listing.ListingIsUnique | crates/garret-server/src/browse.rs:23-32 | a listing in strict order is determined by what it lists |
| Listing.CursorRoundTrip | crates/garret-server/src/browse.rs:38-70 | a cursor survives printing and parsing, for every 64-bit time and any hash, colons included |
| Listing.CursorAsPrinted | crates/garret-server/src/browse.rs:66-70 | a cursor is its time in decimal, a colon, and its hash |
| Base32.DigitsAreBase32 | crates/garret-common/src/lib.rs:79-94 | the digits are those of the little-endian number in base 32, despite the truncating shifts |
| Base32.AlphabetIsNix | crates/garret-common/src/lib.rs:59-61 | the digits are those of decimal, then the letters in order but for e, o, t and u |
| Base32.LengthIsCeiling | crates/garret-common/src/lib.rs:69-75 | the length is the bits over five, rounded up |
| Base32.RoundTrip | crates/garret-common/src/lib.rs:69-94 | the digits spell the number, and a decoder gives the bytes back |
| Base32.EncodeIsInjective | crates/garret-common/src/lib.rs:79-94 | no two byte strings of any lengths share an encoding |

## Left out

- HTTP routing, the CLIs, progress and metrics, configuration parsing, signing, authentication and token minting, backup and resign: presentation, I/O, or library calls with a check.
- The Puller's serving and presigning, and last-accessed flush timing: bumps appear in the protocol as single steps at any time.
- Idle timeouts on bodies: a body may break at any point instead.
- Aborting multipart uploads, stale ones included: an upload may fail before its row; parts of a failed upload are no object.
- Deciding which paths to push (`Filters::should_skip`) and the substring match of a listing: any predicate stands for each.
- `key_for` and `hash_for`, and JSON: the model keys blobs by their hash and takes any function for a preamble's parser, so nothing it states depends on either.
- Order and concurrency of the uploads of one client batch beyond the order they start in.
- Safety.RowImpliesBlob: blobs S3 loses or damages by itself are excluded by hypothesis; what fsck does about them is in Repair.
- Repair.RepairSparesHealthy: drift is the loss of a blob or another size for the blob of a row; S3 restoring a blob by itself, or changing one that has no row, is not modelled.
- Closures.PushEndsWhole: assumes no operator delete or repair of the push's own paths, and no insert of one of them that waited more than an hour for the database.
- GcPass.Gc.Evict: nobody else writes the database during the pass, so the re-check of a candidate passes (one that does not is covered by EvictOne); with others at work GC is an actor of the protocol.
- Uploads.StoreUpload: the stream storage reads is a schedule followed to its end; storage giving up earlier fails the upload either way. The row's insert is a step of the protocol.
- Checkers.CheckIsExact: of several reasons that hold of a refused body, which one it gets depends on the chunking and is not stated; the bound on compressed size is a parameter, and its counter does not saturate.
- Slots.NeverStuck: a body that stalls is not a deadlock of the budget; the idle timeout that ends it is left out.
- Watcher.NothingIsLost: one process at a time works on the files; `held` means that the cache was seen to hold the path since it was listed, not that it holds it still, and a path once found missing that is put back without being listed anew counts as missing.
- Retries.PushOne: a token that cannot be had at all ends the push before the attempt, which is not modelled; the doubling delay does not overflow.
- Listing.StableIsListedOnce: rows fit their columns, with 64-bit times and a hash that is not empty.
