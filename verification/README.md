# Verified models of frameless

frameless is a Go toolbox of small, mostly independent packages. This project models the ones
that carry real state-machine, concurrency or arithmetic obligations, and proves what they
promise. Each module follows one component of the repository:

| module | component |
|---|---|
| `Common` (Common.dfy) | an optional value and a minimum, shared by the models |
| `Caching` (Caching.dfy) | the read-through and write-through cache |
| `Lockstep` (Lockstep.dfy) | n readers of one stream through one sliding window |
| `MemoryTransactions` (MemoryTx.dfy) | nested change-set overlays of the in-memory repository |
| `TransactionalQueue` (Queue.dfy) | the take, ACK and NACK protocol of the in-memory queue |
| `EventSourcing` (EventLog.dfy) | the event log, its nested transactions, and compaction |
| `MathKit`, `TimeKit` (MathKit.dfy) | integers that switch to big integers on overflow, and durations built on them |
| `RateLimiting` (RateLimit.dfy) | the sliding-window rate limiter |
| `Teardowns`, `TransactionKit` (Teardown.dfy, TxKit.dfy) | LIFO compensations and the context transaction manager |
| `ConcurrencyLimiter` (Limiter.dfy) | the limiter whose limit changes at run time |
| `ResumableReader` (ResumableReader.dfy) | the reader that reopens a failing source where it stopped |
| `ListFormat` (ConvKit.dfy) | printing and parsing lists with an escaped separator |
| `Uuids` (Uuid.dfy) | UUID text and order, and the time-ordered version 7 |

Code that changes state in place is a class whose methods are tied to a value-level
specification; the promises are then proved about that specification, over every step and
every run. Concurrent protocols are step relations in which one step is what the code does
under one lock, and the class methods are proved to take exactly those steps. Clocks, random
bytes, other goroutines' timing and the faults of a surrounding system are parameters: an
oracle, a script, or an argument of the call.

## What the proofs found

Each of these is a place where the code keeps its promise only under a condition. The
condition is proved, and for most a concrete run is given.

- **Cache.** When writes into the cache or lookups in the source fail, the cached FindByID can
  contradict the source. It does so exactly for the ids of which `Misleads` holds, and these are
  always among the ids whose own write met a fault. After a Create: exactly when the cache's own
  create failed, by a fault the code only logs or because the id was still cached after a failed
  delete, and what the cache answered before differs from the new record. After a Save or Update:
  exactly when the code logs that save, refresh and invalidation all failed, the refresh had not
  saved the record before it failed, and what the cache held before differs from the new record.
  After a delete: exactly when a lookup of the invalidation failed and the entity was cached.
  `CreatedButAbsent`, `CreatedButOld` and `DeletedButPresent` are runs.
  In a run without faults there are none.
- **Lockstep readers.** The documentation promises that readers pause only until a slower one
  catches up. A reader that is the last one open can be parked for good although a whole unread
  window lies in front of it: another reader moved the window and closed between this reader's
  read and its wait. `WaitSticks` gives the exact condition, `LostWakeup` a run, `RunStuck`
  shows that nothing else can get stuck on a non-empty stream, and `NeverStuck` that nothing does
  while no reader closes.
- **Queue.** Ownership is recorded per subscription, not per delivery. A NACK or ACK on a finished
  handle is harmless unless its message is owned by the same subscription again; then it releases
  the message under the live delivery, and two transactions can commit for one message. Subscribers
  that use only the message they have in hand, one call at a time, never meet this
  (`SubscribersExclusive`).
- **BigInt.** `Sub` is wrong when both operands are words, the subtrahend is the smallest word and
  the minuend is not negative. `Div` truncates words and divides big integers by the Euclidean rule, and
  the smallest word by -1 is the smallest word again (`DivModesDiffer`).
- **Rate limiter.** A refused call waits until the oldest event reaches the edge of the window,
  where it still counts, so a retry exactly on time is refused again (`Retry`, with the exact time
  from which it is admitted; `OnTime` is a run).
- **Transaction manager.** A step done after a joined call rolled back stays done, because its
  compensation is refused. The resource is ended once more by each rollback of an unfinished
  context whose first context is finished, and by nothing else (`Calls`): two open siblings that
  both roll back, or a child rolled back after its parent committed, which compensates the
  committed steps.
- **Resumable reader.** When a read fails after some bytes and the reopening fails too, the bytes
  come back with the error but the offset does not pass them: a caller that reads on gets them
  again. That happens exactly when a call returns bytes with an error other than the end
  and a later call returns bytes (`ConsumeOn`; `HandedTwice` is a run). If the reopening fails with
  the error of an end, the call reports the end of the stream with content left, also with bytes
  that come again (`FalselyEnded`).
- **UUID.** `fillWithRandom` shadows its error variable, so it reports success even when all 128
  attempts failed; the UUID then has the bytes those attempts left.

Comments in the repository that the code does not match are followed by the code: the variant
comment of `pkg/uuid/uuid.go` calls 1 the standard variant while the code writes 2, which is the
one section 4.1 of RFC 9562 assigns.

## Model

| member | source | states |
|---|---|---|
| Caching.SelfContainedShrunk | pkg/cache/cache.go:112-228 | a set of ids the invalidation cascade cannot leave stays such a set while hits and entities disappear |
| Caching.NarrowedTrans | pkg/cache/cache.go:112-220 | what an invalidation guarantees (shrinking, coherence outside the ids in flight, touching only concerned hits) composes over its steps |
| Caching.NarrowedCaused | pkg/cache/cache.go:134-149 | a cascade into a query the entity causes is part of that entity's own invalidation |
| Caching.NarrowedRelated | pkg/cache/cache.go:151-186 | a hit dropped because it lists the entity or because a rule checks it needs no other reason |
| Caching.AccountedTrans | pkg/cache/cache.go:112-228 | what explains the hits that are gone (all entities they list are gone, a rule checks them, or they list an id whose invalidation was reached from the start or from another hit that is gone) composes over the steps of an invalidation |
| Caching.TrailedTrans | pkg/cache/cache.go:134-149 | that every entity which goes takes with it the queries the rules name for it composes over the steps of an invalidation |
| Caching.Landing | pkg/cache/cache.go:112-187 | an id whose entity, own hit and referring hits are gone is coherent again |
| Caching.CoherentSaved | pkg/cache/cache.go:405-437 | saving current records keeps the cache in agreement with the source |
| Caching.CoherentHit | pkg/cache/cache.go:405-437 | so does recording a hit that lists cached entities and is no wrong answer to FindByID |
| Caching.CoherentRewritten | pkg/cache/cache.go:460-590 | writing one record of the source leaves the cache in agreement about every other id |
| Caching.Cache.InvalidateWithoutCascade | pkg/cache/cache.go:222-228 | exactly one hit is deleted and reported |
| Caching.Cache.InvalidateCachedQuery | pkg/cache/cache.go:200-220 | terminates for any hit graph and succeeds exactly if no lookup in it fails; the hit and every entity it listed are gone and unreferenced, and every entity that is gone, listed or evicted by the cascade, took with it the queries the rules name for it; what is left was there before and agrees with the source outside the ids in flight, and every other hit that is gone is accounted for; on an error nothing has changed |
| Caching.Cache.InvalidateByID | pkg/cache/cache.go:112-187 | terminates with its mutual recursion and succeeds exactly if no lookup in it fails; the entity, its own hit, all hits that list it, the queries the rules name for it as cached or else as the source has it, those they name for every other entity evicted, and all hits a rule checks are gone; every other hit that is gone is accounted for, and coherence broken for ids in flight is restored for this one |
| Caching.Cache.Cascade | pkg/cache/cache.go:134-149 | no query the rules name for the entity is left, nor its own hit, and every hit that is gone is accounted for |
| Caching.Cache.DropRelated | pkg/cache/cache.go:151-186 | no hit is left that lists the entity or that a rule checks; no other hit is dropped, and no entity |
| Caching.Cache.Invalidate | pkg/cache/cache.go:112-187 | the public call: evicts the entity and the hits that the rules check, with the queries the rules name for it and for whatever else is evicted, accounts for every other hit that is gone, touches no entity outside any set the cascade cannot leave, and keeps the invariant |
| Caching.Cache.InvalidateQuery | pkg/cache/cache.go:200-220 | the public call on a query, with the same account and the same bound on what it evicts |
| Caching.Cache.DropCachedValues | pkg/cache/cache.go:189-198 | an empty cache is coherent and nothing is stale |
| Caching.Cache.FindByIDs | pkg/cache/cache.go:250-268 | all entities of the ids, or an error when one is missing, after nothing or after the entities listed before it, as the repository behind the cache has it |
| Caching.Cache.CachedValues | pkg/cache/cache.go:230-306 | what a cached lookup returns is the source's record for every id that is not stale |
| Caching.Cache.CacheQuery | pkg/cache/cache.go:405-437 | saves what the query yields even when it or a later write then fails, records the hit only if nothing did, and keeps coherence |
| Caching.Cache.ServeHit | pkg/cache/cache.go:230-306 | a hit is answered without the source, with the entities as cached; one that lists a missing entity is dropped, and no other, and the answer is what was yielded before it or else one execution of the query |
| Caching.Cache.ServeMiss | pkg/cache/cache.go:230-306 | a miss is answered with one execution of the query, which is then cached and repeated when caching it gave nothing |
| Caching.Cache.CachedQueryMany | pkg/cache/cache.go:230-306 | every value returned for an id that is not stale is the source's current record, the answer is that of the cached hit or of one execution, and a miss is cached |
| Caching.Cache.CachedQueryOne | pkg/cache/cache.go:308-322 | the first value, its absence or the failure, of the cached hit or of one execution, which is then cached; for the cache's own query it agrees with the source exactly when the cache does not mislead |
| Caching.Cache.OnlyStaleMisleads | pkg/cache/cache.go:460-590 | cached presence or absence contradicts the source only for ids whose write-through failed |
| Caching.Cache.FindByID | pkg/cache/cache.go:517-534 | answers what the source's FindByID answers exactly when the cache does not mislead about the id; a cached absence is served without a lookup, and a miss is cached |
| Caching.Cache.RefreshByID | pkg/cache/cache.go:332-336 | records the hit, and brings the source's record into the cache and repairs the id if there is one; a cached entity without a record stays; on failure nothing changes |
| Caching.Cache.RefreshQueryMany | pkg/cache/cache.go:370-373 | the hit lists exactly what the query yielded |
| Caching.Cache.Create | pkg/cache/cache.go:460-472 | creates in the source iff the id is free; misleads afterwards exactly when the cache's own create failed, by a fault or because the id was cached, and what it answered before differs from the new record |
| Caching.Cache.RefreshWritten | pkg/cache/cache.go:501-503 | the refresh after a write fails at the source, at the entity or at the hit; in the last case the entity is current all the same |
| Caching.Cache.ShouldUpdateRefresh | pkg/cache/cache.go:486-515 | save, else refresh, else invalidate, and what the cache holds after each; the error is logged exactly when all three fail, and the cache misleads exactly if in addition the refresh saved nothing and what the cache held differs from the new record |
| Caching.Cache.Save | pkg/cache/cache.go:474-484 | writes through and keeps the invariant; misleads about the id on that same condition |
| Caching.Cache.Update | pkg/cache/cache.go:558-568 | updates an existing record only; misleads about the id on the same condition |
| Caching.Cache.DeleteByID | pkg/cache/cache.go:570-579 | the record is gone from the source; succeeds iff there was one and no lookup of the invalidation failed, and otherwise misleads about it exactly if the entity was cached |
| Caching.Cache.DeleteAll | pkg/cache/cache.go:581-590 | source and cache are empty |
| Caching.Cache.Step | pkg/cache/cache.go:112-590 | every public call keeps the invariant under any faults, changes the source's records as that call alone decides, and leaves stale at most the id it writes, and only if something in it failed; without a failing lookup a dropped cache is empty, what is invalidated is gone, and what is found, queried or refreshed is cached |
| Caching.Cache.RunThenFind | pkg/cache/cache.go:112-590 | over every run of calls, with any pattern of faults, FindByID answers as the source would for each id that no delete and no write with a failing cache write touched; while no lookup fails, for each id that no failing create touched; without faults for every id |
| Caching.CreatedButAbsent | pkg/cache/cache.go:460-472 | a run after which the cache says a created record does not exist |
| Caching.CreatedButOld | pkg/cache/cache.go:460-472 | a run, without a fault of the create, after which the cache serves the record deleted before |
| Caching.DeletedButPresent | pkg/cache/cache.go:570-579 | a run after which the cache serves a deleted record |
| Lockstep.StepInv | pkg/iokit/iokit.go:671-922 | every step of every reader keeps open readers inside the window, the error after the last byte, and the window full or untouched while there is no error |
| Lockstep.ReportedMeaning | pkg/iokit/iokit.go:705-723 | a stream that ends or is cut short is reported as ended, any other failure as it is |
| Lockstep.AdvanceMeaning | pkg/iokit/iokit.go:705-761 | unless the stream ends in the refill, the window then starts at the slowest open reader and is as full as the stream allows |
| Lockstep.PullMeaning | pkg/iokit/iokit.go:869-908 | a pass takes as much as is asked for or there, and with bytes in front of it nobody stays parked |
| Lockstep.WaitMeaning | pkg/iokit/iokit.go:763-786 | a wait that finds an error, moves the window or finds everybody else waiting leaves nobody else parked |
| Lockstep.CloseMeaning | pkg/iokit/iokit.go:819-826 | a close leaves nobody parked |
| Lockstep.AdvanceInv | pkg/iokit/iokit.go:746-761 | advancing never moves the window or its tail back |
| Lockstep.FillInv | pkg/iokit/iokit.go:705-723 | without an error a refill leaves the window full |
| Lockstep.WithinWindow | pkg/iokit/iokit.go:591-594 | two open readers are never further apart than the buffer window |
| Lockstep.SlowestProgress | pkg/iokit/iokit.go:746-786 | the slowest open reader of a non-empty stream has bytes to pull, or one advance moves the tail or records the error |
| Lockstep.StuckIffAllParked | pkg/iokit/iokit.go:763-786 | no step is possible exactly when all open readers are parked |
| Lockstep.AdvanceFutile | pkg/iokit/iokit.go:746-761 | advancing reports nothing exactly when the slowest reader has the whole window before it, or the stream is empty |
| Lockstep.WaitSticks | pkg/iokit/iokit.go:763-786 | a wait leaves everybody parked exactly when the caller is the last open reader and has a whole unread window before it, or the stream is empty |
| Lockstep.LoneWait | pkg/iokit/iokit.go:763-786 | a lone reader that has taken the whole window gets more, or the error, and is not parked |
| Lockstep.LonePull | pkg/iokit/iokit.go:869-908 | a lone reader goes on to wait only after it has taken the whole window |
| Lockstep.RunStuck | pkg/iokit/iokit.go:746-922 | over every interleaving of any number of readers of a non-empty stream, the only stuck states are those of a last open reader before a full window |
| Lockstep.RunMonotone | pkg/iokit/iokit.go:746-922 | over every interleaving the window, its tail and the readers only move forward, and a recorded error stays |
| Lockstep.NeverStuck | pkg/iokit/iokit.go:746-922 | over every interleaving in which no reader closes, the readers of a non-empty stream are never all parked |
| Lockstep.SoleStep | pkg/iokit/iokit.go:763-922 | a sole reader waits only in front of a window it has taken, and is never parked |
| Lockstep.LostWakeup | pkg/iokit/iokit.go:763-786 | a run of two readers after which one is parked for good with a byte left to read |
| Lockstep.Feed.ReadFull | pkg/iokit/iokit.go:705-723 | the next bytes of the stream, fewer than asked for only together with its error |
| Lockstep.Source.FillBuffer | pkg/iokit/iokit.go:705-723 | the buffer holds the stream from the window's index on, and the error is mapped as the code maps it |
| Lockstep.Source.ShiftLeft | pkg/iokit/iokit.go:790-810 | dropping n bytes keeps the rest of the window in place of the stream |
| Lockstep.Source.AdvanceableIndexDistance | pkg/iokit/iokit.go:671-692 | how far the slowest open reader is ahead of the window |
| Lockstep.Source.AdvanceWindow | pkg/iokit/iokit.go:746-761 | takes exactly the advance step, keeping the buffer equal to the stream's slice |
| Lockstep.Source.WaitForWindowUpdate | pkg/iokit/iokit.go:763-786 | takes exactly the wait step |
| Lockstep.Source.CloseOutput | pkg/iokit/iokit.go:819-826 | takes exactly the close step |
| Lockstep.Source.ReadPass | pkg/iokit/iokit.go:861-922 | takes exactly the pull step; the bytes put into the caller's buffer are the stream's at the reader's index, what a reader was given so far is the stream up to its index, and whoever sees the error was given all of it |
| Lockstep.Source.Perform | pkg/iokit/iokit.go:763-922 | any step of any reader, performed on the byte array, is the step of the protocol |
| Lockstep.OthersStay | pkg/iokit/iokit.go:763-922 | a step of one reader moves no other, though it may wake it |
| Lockstep.Source.ReadAmong | pkg/iokit/iokit.go:832-852 | whatever other readers do between its locked sections: the call takes the passes and waits that are its turn until it is done, the bytes delivered are always the next ones of the stream, and a call that returns has delivered as many as asked for, or all that were left, with the error |
| Lockstep.LoneRounds | pkg/iokit/iokit.go:832-852 | for a sole open reader of a non-empty stream each such turn brings the call closer to its end, so that it is done after a number of turns fixed by what is left |
| Lockstep.Source.Read | pkg/iokit/iokit.go:832-852 | for a reader without open company the call also returns |
| MemoryTransactions.Tx.All | adapter/memory/Repository.go:497-513 | the complete table the chain of layers stands for |
| MemoryTransactions.Tx.Lookup | adapter/memory/Repository.go:515-527 | agrees with that table on every key |
| MemoryTransactions.Tx.Set | adapter/memory/Repository.go:529-533 | changes one key of the own table and no table below |
| MemoryTransactions.Tx.Del | adapter/memory/Repository.go:535-545 | removes one key from the own table, reports whether it was visible, and changes no table below |
| MemoryTransactions.Tx.Purge | adapter/memory/Repository.go:308-325 | empties the own table of a namespace and leaves the parent's |
| MemoryTransactions.Tx.Flush | adapter/memory/Repository.go:547-564 | applies tombstones and values in any map order, to the parent only |
| MemoryTransactions.Tx.Commit | adapter/memory/Repository.go:547-564 | the parent shows exactly what the child showed, in every namespace, whatever the map iteration order |
| MemoryTransactions.Tx.Rollback | adapter/memory/Repository.go:566-580 | no table in the stack changes; the whole chain is done unless a part of it already was |
| MemoryTransactions.BeginTx | adapter/memory/Repository.go:606-619 | a new layer shows what its parent shows; refused on a cancelled context |
| MemoryTransactions.CommitTx | adapter/memory/Repository.go:621-629 | commit through the context, with its error cases |
| MemoryTransactions.RollbackTx | adapter/memory/Repository.go:631-639 | rollback through the context, with its error cases |
| MemoryTransactions.PlainSurvives | adapter/memory/Repository.go:547-580 | whether anything in a nested use rolled back does not depend on the data |
| MemoryTransactions.Perform | adapter/memory/Repository.go:497-639 | any nested use of transactions shows what plain tables would show, its parent sees nothing of it, and a rollback inside ends the whole chain |
| MemoryTransactions.Transact | adapter/memory/Repository.go:497-639 | the memory gets all of the plain effect or none of it |
| TransactionalQueue.StepConserved | adapter/memory/pubsub.go:56-180 | every step keeps each published message in exactly one place: queued, acknowledged or purged |
| TransactionalQueue.StepAtomic | adapter/memory/pubsub.go:215-268 | what a delivery published is in the queue's history exactly when its acknowledgement committed |
| TransactionalQueue.StaleCall | adapter/memory/pubsub.go:104-180 | an ACK or NACK on a finished delivery has no effect, unless its message is owned by the same subscription again |
| TransactionalQueue.StepExclusive | adapter/memory/pubsub.go:479-508 | one owner and one live delivery per message, one acknowledgement at most; a step keeps this exactly when it is no such call |
| TransactionalQueue.StepBacked | adapter/memory/pubsub.go:104-180 | every owned message has a live delivery |
| TransactionalQueue.LeavesByOwner | adapter/memory/pubsub.go:104-180 | a message leaves the queue only by a purge or by its owner's acknowledgement |
| TransactionalQueue.RunConserved | adapter/memory/pubsub.go:41-268 | conservation and atomic publication over every interleaving |
| TransactionalQueue.RunFollows | adapter/memory/pubsub.go:41-268 | over every interleaving from an empty queue, the history is what the publications outside deliveries and the committed acknowledgements put there, in order, and each delivery has buffered what was published with it before it was finished |
| TransactionalQueue.PublishedIn | adapter/memory/pubsub.go:215-268 | what was published with a delivery is in the history exactly if an acknowledgement was the first to finish the delivery, and then all of it, in order |
| TransactionalQueue.PublishedDirectly | adapter/memory/pubsub.go:41-67 | the other messages carry the data published outside deliveries, in order |
| TransactionalQueue.StepInOrder | adapter/memory/pubsub.go:41-358 | the queue stays in the order of publication, and a purge empties it |
| TransactionalQueue.RunExclusive | adapter/memory/pubsub.go:104-508 | exclusive ownership and single acknowledgement over every interleaving without calls on stale handles of the owner |
| TransactionalQueue.TidyIff | adapter/memory/pubsub.go:104-508 | ownership is exclusive after every step of an interleaving exactly if it has no such call |
| TransactionalQueue.InHandNoHazard | adapter/memory/pubsub.go:104-180 | an ACK or NACK of the message a subscription has in hand is never such a call |
| TransactionalQueue.OthersHold | adapter/memory/pubsub.go:104-422 | other subscriptions, publishers and purges leave a subscription with what it has in hand |
| TransactionalQueue.DisciplinedTidy | adapter/memory/pubsub.go:104-422 | interleavings of subscribers that use only what they have in hand contain no such call |
| TransactionalQueue.SubscribersExclusive | adapter/memory/pubsub.go:104-422 | so in these, from an empty queue on, each message has one owner and is acknowledged at most once |
| TransactionalQueue.Subscription.Next | adapter/memory/pubsub.go:388-422 | refuses what is in hand, without effect if that was finished, then takes the next unowned message; nothing after the context ended, no message after Close |
| TransactionalQueue.Subscription.Close | adapter/memory/pubsub.go:372-382 | refuses what is in hand, once |
| TransactionalQueue.Subscription.Ack | adapter/memory/pubsub.go:446-451 | acknowledges what is in hand, never with a hazard |
| TransactionalQueue.StaleRefusal | adapter/memory/pubsub.go:104-180 | a run in which a stale NACK lets two subscriptions acknowledge one message |
| TransactionalQueue.Msg.Take | adapter/memory/pubsub.go:479-492 | succeeds exactly for an unowned message |
| TransactionalQueue.Msg.Release | adapter/memory/pubsub.go:495-508 | only the owning subscription releases |
| TransactionalQueue.Queue.Publish | adapter/memory/pubsub.go:41-67 | one new message with the data, owned by nobody, is added at the end |
| TransactionalQueue.Queue.PublishIn | adapter/memory/pubsub.go:233-268 | adds the data to the delivery's buffer, refused without effect when its transaction is over |
| TransactionalQueue.Queue.TakeNext | adapter/memory/pubsub.go:104-180 | delivers the first message of the queue that nobody owns; none only when every message is owned |
| TransactionalQueue.Queue.Nack | adapter/memory/pubsub.go:104-180 | the message is owned by nobody when the refusing subscription held it, and its buffer is dropped; nothing is published |
| TransactionalQueue.Queue.Flush | adapter/memory/pubsub.go:215-231 | a message for each buffered datum joins the queue at its end, in order, numbered on |
| TransactionalQueue.Queue.Commit | adapter/memory/pubsub.go:104-180 | takes the first half of an acknowledgement, or releases when the transaction is over |
| TransactionalQueue.Queue.Remove | adapter/memory/pubsub.go:104-180 | takes the second half: the message leaves the queue and is released |
| TransactionalQueue.Queue.Ack | adapter/memory/pubsub.go:446-451 | both halves, when nothing comes between |
| TransactionalQueue.Queue.Purge | adapter/memory/pubsub.go:350-358 | no message is left in the queue |
| EventSourcing.ViewOnly | adapter/memory/EventLogRepository.go:358-382 | a namespace's view depends on its own events alone |
| EventSourcing.ViewCreates | adapter/memory/EventLogRepository.go:394-423 | creation events rebuild the entities they create, whatever their order |
| EventSourcing.SnapshotView | adapter/memory/EventLogRepository.go:394-423 | one creation event per live entity rebuilds the view |
| EventSourcing.CompactionPreserves | adapter/memory/EventLogRepository.go:394-423 | compaction changes no namespace's view, with any events layered on the log |
| EventSourcing.CompactionViews | adapter/memory/EventLogRepository.go:394-423 | nor the view of any open transaction in a stack on top of the log |
| EventSourcing.CompactionCount | adapter/memory/EventLogRepository.go:394-423 | exactly one own event per live entity is left, no transaction marker, and everybody else's events in order |
| EventSourcing.ViewWithoutMarkers | adapter/memory/EventLog.go:278-295 | transaction markers carry nothing of a view |
| EventSourcing.NoMarkers | adapter/memory/EventLog.go:278-295 | the log's own compression leaves none of them |
| EventSourcing.ViewKeyed | adapter/memory/EventLogRepository.go:427-451 | entities are kept under their own id |
| EventSourcing.Log.Compress | adapter/memory/EventLog.go:278-295 | the log without its markers |
| EventSourcing.Tx.Commit | adapter/memory/EventLog.go:214-237 | the parent's events become what the child saw, then the commit marker |
| EventSourcing.Tx.Rollback | adapter/memory/EventLog.go:239-257 | the parent's events stay as they were |
| EventSourcing.Repository.ViewOf | adapter/memory/EventLogRepository.go:358-382 | the loop computes the fold |
| EventSourcing.Repository.EventsInContext | adapter/memory/EventLog.go:155-166 | the log's events and those of every transaction down to this one |
| EventSourcing.Repository.Compress | adapter/memory/EventLogRepository.go:394-423 | rewrites the log into its unrelated events, the siblings' events and one creation per live entity |
| EventSourcing.Repository.CompactedUnder | adapter/memory/EventLogRepository.go:394-423 | compaction underneath a transaction shows neither in it nor in any transaction below it |
| EventSourcing.Repository.Append | adapter/memory/EventLogRepository.go:384-392 | moves the view by one event and nothing below; adds the event to the innermost transaction or to the log, and compacts the log exactly if so configured |
| EventSourcing.Repository.FindByID | adapter/memory/EventLogRepository.go:123-134 | looks the id up in the folded view |
| EventSourcing.Repository.Create | adapter/memory/EventLogRepository.go:85-121 | succeeds iff the id is free, and then adds exactly that entity |
| EventSourcing.Repository.Update | adapter/memory/EventLogRepository.go:153-180 | succeeds iff the id is there, and then replaces exactly that entity |
| EventSourcing.Repository.DeleteByID | adapter/memory/EventLogRepository.go:182-201 | succeeds iff the id is there, and then removes exactly that entity |
| EventSourcing.Repository.DeleteAll | adapter/memory/EventLogRepository.go:203-214 | empties the own namespace and no other |
| EventSourcing.Repository.Save | adapter/memory/EventLogRepository.go:234-266 | creates or updates in a transaction of its own, and leaves the outer context usable |
| EventSourcing.Repository.BeginTx | adapter/memory/EventLog.go:182-207 | shows what the outer context shows; refused on a done or cancelled one |
| EventSourcing.Repository.CommitTx | adapter/memory/EventLog.go:214-237 | the outer context sees what the transaction saw, and what lies below it does not change |
| EventSourcing.Repository.RollbackTx | adapter/memory/EventLog.go:239-257 | the outer context sees what it saw before, and stays usable |
| EventSourcing.Repository.Perform | adapter/memory/EventLogRepository.go:85-214 | any nested use, with compactions at any point, refines the same use of a plain map |
| MathKit.AbsIntExact | pkg/mathkit/mathkit.go:94-104 | the absolute value is exact for every word, the smallest included |
| MathKit.SumOverflowExact | pkg/mathkit/mathkit.go:44-65 | reports an overflow iff the exact sum is out of range, for every signed width |
| MathKit.MulOverflowExact | pkg/mathkit/mathkit.go:67-90 | reports an overflow iff the exact product is out of range |
| MathKit.SwitchCanonical | pkg/mathkit/mathkit.go:250-275 | a value is a word exactly when it fits one |
| MathKit.ExactArithmetic | pkg/mathkit/mathkit.go:142-227 | Add, Mul, Abs and Compare are those of the integers and keep the canonical form |
| MathKit.SubExact | pkg/mathkit/mathkit.go:211-218 | Sub is exact iff not both are words with the smallest word subtracted from a non-negative one |
| MathKit.SubWraps | pkg/mathkit/mathkit.go:211-218 | the exception in eight bits |
| MathKit.TruncatedEuclid | pkg/mathkit/mathkit.go:229-237 | truncating and Euclidean division agree iff the dividend is not negative or the division is exact |
| MathKit.TruncatedMeaning | pkg/mathkit/mathkit.go:229-233 | what a truncating division of words leaves has the sign of the dividend and is smaller than the divisor |
| MathKit.DivBig | pkg/mathkit/mathkit.go:234-237 | with a big integer on either side what is left is never negative and smaller than the divisor, and the quotient is canonical |
| MathKit.DivWords | pkg/mathkit/mathkit.go:229-233 | the quotient of words is the truncated one, except for the smallest word by -1, which stays as it is |
| MathKit.DivModesAgree | pkg/mathkit/mathkit.go:229-237 | the two modes of Div agree on words exactly then, and when the quotient fits |
| MathKit.DivModesDiffer | pkg/mathkit/mathkit.go:229-237 | inputs at which they differ |
| MathKit.Iter | pkg/mathkit/mathkit.go:149-186 | terminates; the words are in range, not zero, of the value's sign, all but the last as large as words get, and sum to the value; a word is its own only word |
| TimeKit.Between | pkg/timekit/timekit.go:498-513 | terminates with the exact distance although each difference saturates |
| TimeKit.AddTo | pkg/timekit/timekit.go:515-524 | moves an instant by exactly the duration |
| TimeKit.RoundTrip | pkg/timekit/timekit.go:498-524 | adding the distance of two instants to the first gives the second |
| RateLimiting.CountStretch | pkg/resilience/ratelimit.go:102-137 | the calls an interval holds are one stretch of the history |
| RateLimiting.BoundedIffSpread | pkg/resilience/ratelimit.go:63-68 | at most N calls in every closed interval of the period, iff calls N places apart are more than the period apart |
| RateLimiting.AdmitKeepsSpread | pkg/resilience/ratelimit.go:26-61 | admitting a call when the window holds fewer than N keeps this, although the clock is read again after counting |
| RateLimiting.Decided | pkg/resilience/ratelimit.go:26-61 | a pass is not admitted exactly if it was cancelled or the admissions before it fill its window, whatever comes later |
| RateLimiting.WaitNeeded | pkg/resilience/ratelimit.go:37-51 | after a refusal by a full window a retry can be admitted iff the oldest of its N events is strictly before the new window |
| RateLimiting.SlidingWindow.Retry | pkg/resilience/ratelimit.go:26-61 | a call is refused iff N admissions lie in its window, and told the time until its oldest event is at the window's edge; a retry is admitted iff the oldest of the N is strictly before the new window, so never after waiting just that long; exactly the admission is recorded |
| RateLimiting.OnTime | pkg/resilience/ratelimit.go:26-61 | a run: refused at 5, told 5, refused at 10, admitted at 11 |
| RateLimiting.SlidingWindow.Filter | pkg/resilience/ratelimit.go:117-126 | keeps exactly the events not before the window, and notes the oldest event |
| RateLimiting.SlidingWindow.RLE | pkg/resilience/ratelimit.go:102-137 | the count is that of all admitted calls in the window, although old ones were discarded |
| RateLimiting.SlidingWindow.Tick | pkg/resilience/ratelimit.go:139-145 | records the call |
| RateLimiting.SlidingWindow.Pass | pkg/resilience/ratelimit.go:26-61 | admits exactly when fewer than N admitted calls lie in the window; a zero rate is no limit, a rate without tokens admits nothing |
| RateLimiting.SlidingWindow.RateLimit | pkg/resilience/ratelimit.go:26-61 | is admitted by the first pass that is free of the limit, having been refused by every pass before for a full window or a rate without tokens; returns only then or when cancelled, and records exactly one admission |
| RateLimiting.Run | pkg/resilience/ratelimit.go:26-145 | over every run of any number of callers, no closed interval of the period holds more than N admissions, the history stays within N, and the admissions are those the tries alone decide |
| Teardowns.RunsOnce | pkg/teardown/Teardown.go:41-68 | everything deferred, also while running, runs exactly once |
| Teardowns.FlatOrder | pkg/teardown/Teardown.go:55-68 | functions that defer nothing run last in, first out |
| Teardowns.ErrorsExact | pkg/teardown/Teardown.go:55-68 | the errors reported are those of the functions that failed, each once, in order |
| Teardowns.SizeDeferred | pkg/teardown/Teardown.go:41-47 | each round leaves less to run |
| Teardowns.Compensated | pkg/txkit/txkit.go:26-34 | a compensation registered after its step cancels the step out of the eventual rollback |
| Teardowns.Teardown.Run | pkg/teardown/Teardown.go:55-68 | runs the queue from its end, collects the errors, and leaves what was deferred meanwhile |
| Teardowns.Teardown.Finish | pkg/teardown/Teardown.go:41-47 | terminates with nothing left, having run everything in that order |
| TransactionKit.Resource.OnRollback | pkg/txkit/txkit.go:26-34 | registers unless the transaction is done |
| TransactionKit.Resource.Rollback | pkg/txkit/txkit.go:60-66 | runs the compensations once and is done |
| TransactionKit.Node.Err | pkg/txkit/txkit.go:179-202 | a context is over iff its base or any context of its chain is |
| TransactionKit.Node.LookupRoot | pkg/txkit/txkit.go:289-303 | finds the chain's one resource |
| TransactionKit.BeginTx | pkg/txkit/txkit.go:179-202 | joins the context's transaction or begins the resource; refused iff the context is over |
| TransactionKit.CommitTx | pkg/txkit/txkit.go:204-221 | only the first context's commit reaches the resource, as a rollback when the context is over; the exact error in each case |
| TransactionKit.RollbackTx | pkg/txkit/txkit.go:223-245 | terminates, finishes and cancels the whole chain, and reaches the resource once, whether or not that was finished |
| TransactionKit.OnRollback | pkg/txkit/txkit.go:102-120 | registers with the chain's resource, with its two errors |
| TransactionKit.Finish | pkg/txkit/txkit.go:73-88 | commits without an error to return: then no error iff the context is not over, and NoTx without a context; rolls back otherwise: then the returned error comes first, followed by the compensations' errors |
| TransactionKit.GoodIffClean | pkg/txkit/txkit.go:179-245 | a run stays good iff no part fails and nobody cancels |
| TransactionKit.PlainSteps | pkg/txkit/txkit.go:73-303 | without transactions a use does its steps one after the other |
| TransactionKit.Endings | pkg/txkit/txkit.go:204-245 | how the first context ends: by its commit, its rollback, the rollback of its child, or a commit after the base was cancelled |
| TransactionKit.NoLate | pkg/txkit/txkit.go:102-120 | no step's compensation is refused before something was rolled back |
| TransactionKit.Perform | pkg/txkit/txkit.go:73-303 | whatever a well-nested use does, what a rollback would restore stays the same, and after one only late steps are left |
| TransactionKit.Transact | pkg/txkit/txkit.go:73-303 | one begin and one end; a commit iff no part failed and nobody cancelled, else the initial state is restored up to late steps |
| TransactionKit.LateStepStays | pkg/txkit/txkit.go:102-120 | a step done after a joined call rolled back is not undone |
| TransactionKit.OneCall | pkg/txkit/txkit.go:179-245 | once the first context is finished, a call reaches the resource exactly if it rolls back an unfinished context |
| TransactionKit.Calls | pkg/txkit/txkit.go:179-245 | over any calls in any order, with the base context cancelled at any point, a commit reaches the resource only as its first end, and the first end and the further ones, which are exactly the rollbacks of unfinished contexts whose first context is finished, are as the calls alone decide |
| TransactionKit.NoExtras | pkg/txkit/txkit.go:179-245 | without nesting there is no further end |
| TransactionKit.Siblings | pkg/txkit/txkit.go:223-245 | two open siblings roll the resource back twice |
| TransactionKit.Orphan | pkg/txkit/txkit.go:223-245 | a child rolled back after its parent's commit compensates the committed step |
| ConcurrencyLimiter.StepInv | pkg/synckit/synckit.go:934-1015 | every step keeps: while somebody is parked and there is room, at least as many woken goroutines are pending as there are free places |
| ConcurrencyLimiter.NobodyForgotten | pkg/synckit/synckit.go:934-1015 | only an acquisition takes a goroutine out of those that wait |
| ConcurrencyLimiter.AsksThenWaits | pkg/synckit/synckit.go:934-942 | whoever asked and did not acquire waits |
| ConcurrencyLimiter.RunInv | pkg/synckit/synckit.go:934-1015 | the same over every interleaving, and holders are acquisitions minus releases |
| ConcurrencyLimiter.Settled | pkg/synckit/synckit.go:934-1015 | with nobody pending, somebody is parked only at a full or disabled limiter; never at an unlimited one |
| ConcurrencyLimiter.AcquireWithin | pkg/synckit/synckit.go:934-966 | an acquisition leaves a positive limit respected, and none happens while disabled |
| ConcurrencyLimiter.NeverExceeded | pkg/synckit/synckit.go:934-1015 | a bound no limit ever exceeds is never exceeded by the holders |
| ConcurrencyLimiter.Admitted | pkg/synckit/synckit.go:934-942 | the pending goroutines, in any order, acquire exactly as many places as there are |
| ConcurrencyLimiter.Settle | pkg/synckit/synckit.go:934-942 | once all of them ran, nobody is parked beside a free place |
| ConcurrencyLimiter.Limiter.Lock | pkg/synckit/synckit.go:934-942 | takes the lock step: acquires iff there is room, else parks |
| ConcurrencyLimiter.Limiter.Resume | pkg/synckit/synckit.go:934-942 | takes the wait loop's step: the room is checked again after a wake |
| ConcurrencyLimiter.Limiter.TryLock | pkg/synckit/synckit.go:957-966 | acquires iff there is room |
| ConcurrencyLimiter.Limiter.Unlock | pkg/synckit/synckit.go:944-953 | releases and wakes one, or panics and changes nothing |
| ConcurrencyLimiter.Limiter.SetLimit | pkg/synckit/synckit.go:988-1005 | the limit is the new one, the holders stay, and everybody parked is woken when there is room under it, nobody otherwise |
| ConcurrencyLimiter.Run | pkg/synckit/synckit.go:934-1015 | the limiter follows any interleaving and keeps the invariant |
| ResumableReader.Reader.SeekBy | pkg/resilience/resio.go:152-171 | without an error the reader has moved by exactly the distance, seeking or skipping |
| ResumableReader.Reader.Attempt | pkg/resilience/resio.go:79-101 | without an error a freshly opened reader stands at the offset |
| ResumableReader.Reader.TryOnce | pkg/resilience/resio.go:103-121 | an attempt that fails leaves no open reader behind; the end of the stream as the answer to a seek is believed exactly if the seek claims the whole distance |
| ResumableReader.Reader.Restart | pkg/resilience/resio.go:72-128 | one open reader at the offset, or none and an error, the latter only after every attempt the retry strategy allows was used up by a failure; every other opened reader is closed |
| ResumableReader.Reader.Close | pkg/resilience/resio.go:130-140 | closes the one open reader; a second close is an error |
| ResumableReader.Reader.Read | pkg/resilience/resio.go:32-57 | the bytes returned are the content's at the offset under any failures; the offset passes them with no error or the reader's own end, not with any other error, and with an end that is not the reader's own there are none unless an opening or seek claims it; when nothing fails any more, as many as asked for or left come, with the true end; bytes are not passed only after a restart that used up its attempts, so that any number of failing reads is recovered from while the restarts still have attempts |
| ResumableReader.Consume | pkg/resilience/resio.go:32-57 | what is read up to and including the first error is exactly a prefix of the rest of the content; it is all of it at an end, unless that was the error of a failed opening or seek |
| ResumableReader.ConsumeOn | pkg/resilience/resio.go:32-57 | reading on past errors, each call's bytes are the content's at the offset and the passed bytes are a prefix; a byte is handed out twice iff a call returned bytes with an error other than the end and a later call returned bytes, unless an opening or seek claims an end |
| ResumableReader.TwiceIff | pkg/resilience/resio.go:43-56 | a byte of the content is handed out twice iff a call that did not pass its bytes had some and a later call has some |
| ResumableReader.HandedTwice | pkg/resilience/resio.go:43-56 | a run in which the first byte is handed out with an error, and then all bytes from the first on |
| ResumableReader.FalselyEnded | pkg/resilience/resio.go:43-56 | a run in which a refused reopening reports the end of the stream with content left |
| ListFormat.Format | pkg/convkit/convkit.go:454-474 | the loop prints every element escaped, joined by the separator |
| ListFormat.Split | pkg/convkit/convkit.go:233-258 | the loop computes the scan, for any separator |
| ListFormat.EscapeIsBackslash | pkg/convkit/convkit.go:246 | separators are escaped with one backslash |
| ListFormat.ScanElement | pkg/convkit/convkit.go:233-258 | reading a printed element adds exactly that element to the one being read |
| ListFormat.ScanPrinted | pkg/convkit/convkit.go:233-258 | after a printed list the last element is being read, and each backslash before a separator merged two elements |
| ListFormat.RoundTrip | pkg/convkit/convkit.go:233-258 | with a one-character separator other than the backslash, a list comes back iff it is empty, or no element but the last ends in a backslash and the last is not empty and does not end in the separator |
| ListFormat.NeverMore | pkg/convkit/convkit.go:233-258 | at least one element is lost for each backslash before a separator |
| ListFormat.PrintAndParse | pkg/convkit/convkit.go:454-474 | the same for the two loops run after each other |
| Uuids.LexIsNumeric | pkg/uuid/uuid.go:145-173 | byte order is the order of the 128-bit numbers |
| Uuids.Compare | pkg/uuid/uuid.go:145-155 | the sign of that order; zero only for equal UUIDs |
| Uuids.Less | pkg/uuid/uuid.go:157-164 | that order |
| Uuids.Equal | pkg/uuid/uuid.go:166-173 | equality |
| Uuids.Parse | pkg/uuid/uuid.go:44-61 | accepts exactly 32 hexadecimal digits, hyphens and surrounding space aside, and reads them as bytes |
| Uuids.DigitMeaning | pkg/uuid/uuid.go:54-58 | a digit is hexadecimal in either case, with the same value |
| Uuids.TrimMeaning | pkg/uuid/uuid.go:45 | space on both sides is trimmed, and no more |
| Uuids.ParseLoosely | pkg/uuid/uuid.go:44-68 | space around the printed form and capital letters in it change nothing |
| Uuids.StringShape | pkg/uuid/uuid.go:66-68 | 36 characters: lower-case digits in groups of 8, 4, 4, 4 and 12 with hyphens between |
| Uuids.BareString | pkg/uuid/uuid.go:66-68 | printed without its hyphens a UUID is its 32 digits |
| Uuids.PrintAndParse | pkg/uuid/uuid.go:44-68 | parsing the printed form gives every UUID back |
| Uuids.MonotonicCounter.Next | pkg/uuid/uuidv7.go:117-138 | restarts in a new millisecond, counts up within one, and stays at 4095 |
| Uuids.V7.SetTimestamp | pkg/uuid/uuidv7.go:96-104 | the first six bytes are the milliseconds, big-endian |
| Uuids.V7.SetRandA | pkg/uuid/uuidv7.go:85-94 | the next twelve bits are the counter |
| Uuids.FilledMeaning | pkg/uuid/random.go:10-25 | the bytes left are those of the first full attempt, or else each is from the last attempt that reached it |
| Uuids.V7.FillWithRandom | pkg/uuid/random.go:10-25 | never reports a failure; the last eight bytes are those of the first full attempt among 128, or else what partial ones left |
| Uuids.Assembled | pkg/uuid/uuidv7.go:64-83 | the fields in their places are the layout |
| Uuids.V7.Make | pkg/uuid/uuidv7.go:64-83 | the layout of section 5.7 of RFC 9562 |
| Uuids.Fields | pkg/uuid/uuid.go:70-81 | version 7 and variant 2, with timestamp, counter and the other random bits undamaged |
| Uuids.Order | pkg/uuid/uuidv7.go:64-104 | the timestamp orders first, then the counter, then the random bytes |
| Uuids.EarlierGrows | pkg/uuid/uuidv7.go:117-138 | a later call of the same millisecond has seen more calls |
| Uuids.CounterStep | pkg/uuid/uuidv7.go:117-138 | the counter of a call is the number of earlier calls in its millisecond, up to 4095 |
| Uuids.MakeAll | pkg/uuid/uuidv7.go:64-138 | two UUIDs are in order iff their milliseconds differ, or the earlier counter was not at its end, or the random bytes they carry are in order; always within the first 4096 calls of a millisecond |

## Left out

- Caching.Cache.RunThenFind: each public call is one atomic step; overlapping calls, refresh-behind, cancellation in the middle of a write and transactions of the cache repository itself are not modelled. A failed invalidation rolls back, as its repository transaction does.
- Caching.Cache.CachedQueryMany: user queries are assumed to answer with current source records; which entities belong to a cached query is as of caching time. The cache's own writes fail in creates, saves, updates and the refresh after them; those of a query or of a public refresh, and lookups in the cache itself, do not fail. The textual form of a hit id is assumed injective.
- Cache.Refresh, FindAll and the separate RefreshCache: iteration over repositories that adds no new invariant.
- Lockstep.Source.ReadAmong: says what a call that returns has delivered, not that it returns. While no reader closes some step is always possible (NeverStuck), and the slowest reader's pull or advance makes progress (SlowestProgress); that a fair scheduler lets every call return is not stated. Woken readers that have not left the phaser yet are any number the code could see.
- A lockstep source that ends within the first read is kept in the invariants; progress is claimed for non-empty streams only. A reader is closed by its own goroutine.
- Memory and event log: keys derived from ids are assumed injective, generated ids, metadata and tracing are left out, and maps created on first use are present from the start.
- TransactionalQueue.RunExclusive: a hazard-free run is required because the property is false otherwise (StaleRefusal); the condition is exact (StepExclusive, TidyIff), and met by subscribers that use what they have in hand.
- Queue ordering by timestamp, volatile and blocking mode, the waiting loop of a subscription, and the fan-out exchange.
- EventSourcing.Repository.Perform: all operations of one goroutine; the log's mutex makes each of them atomic.
- MathKit.DivModesAgree: a zero divisor panics in the original and is excluded. Words of all signed widths are covered up to 64 bits; the textual forms are left out.
- TimeKit.RoundTrip: instants are integers of nanoseconds, without the range limit and the monotonic reading of the standard library.
- RateLimiting.Run: the clock does not go back and the rate stays fixed; the time slept is not modelled, since an early or late retry is just another pass.
- TransactionKit.Transact: the resource is the package's own list of compensations, whose begin and commit cannot fail; panics, which a teardown survives, are left out.
- ConcurrencyLimiter.Settle: fairness of the mutex and of the condition variable is not assumed, so nothing is said about how long one goroutine waits.
- ResumableReader.Reader.Read: returns only if the source stops failing, since a reader that can always be reopened is retried for ever; the model's script of failures is finite. A seek that fails with the error of an end but claims the full distance leaves the reader at an unknown position, from which the claims stop.
- TransferManager, KeepAliveReader and the retry strategies' timing.
- ListFormat.RoundTrip: separators of one code point; for longer ones only the loops are modelled. Invalid UTF-8 and element types other than strings are left out.
- Uuids.MakeAll: the monotonic counter as source of the twelve bits, in one goroutine; the sub-millisecond fraction is floating point.
- SQL, HTTP, CLI, environment, logging and reflection-based packages: drivers and I/O without an invariant of their own.
