# ProactiveCache in Dafny

A model of the two generations of caches in the ProactiveCache repository, with proofs.

**Proactive generation (`ProactiveCache`)**
- `ProCache` is a single-key cache.
- `ProCacheBatch` is a batch cache.
- Both share:
  - `MemoryCache`, an expiring store;
  - `ProCacheEntry`, whose packed flag word and outdated timestamp carry the state;
  - `ProCacheTimer`, a millisecond clock that carries into a high 32-bit half when the tick count wraps;
  - a table of 256 shard locks.

**Sliding generation (`SlidingCache`)**
- `SCache` and `SlidingCache` are single-key caches with the same code.
- `BatchSlidingCache` is a batch cache.
- The sliding generation's own `MemoryCache` uses strict expiry and has no expiry hook.

**How a read works.** A cache reads its store.
- On a hit whose refresh time has passed, one caller claims the refresh and calls the producer. Every other reader keeps getting the old value.
- On a miss, under the key's shard lock, the store is checked again and exactly one entry is created. The producer's answer then completes the creation task that all readers of the entry share.
- A failed creation removes the key, so the next read starts afresh.
- A failed refresh gives the claim back and keeps the old value.

**How the batch caches work.**
1. They classify each requested key: answered now, refreshed, created, or awaited.
2. They call the producer once, for the refreshed and created keys.
3. They consume the producer's pairs against those keys. The first pair per key wins.
4. They mark the keys the producer left out as empty.
5. When the producer throws, creations are rolled back and claims are given back.

**How the model is built**
- Objects the code updates in place are Dafny classes whose methods name what they modify. This covers entries, stores, timer, lock table and caches.
- Each method is tied to a specification function of the old state.
- The producer's answer is an input. It is available `Now`, as a value or a failure, or `Later`. `FinishAdd` and `FinishUpdate` model the code that runs once a `Later` answer arrives.
- The clock reading (`nowSec`) is an input.
- The sliding entry classes (`SCacheEntry`, `SlidingCacheEntry`) are not part of this model. They are represented by what the caches can see:
  - the creation task they were built with;
  - the log of state-changing calls the caches make on them;
  - an unspecified function (`Behaviour`) from those to the entry's answers.

## Model

| member | source | states |
|---|---|---|
| Common.ToUInt32 | ProactiveCache/ProCache.cs:89 | `(uint)` of an `int` agrees with it modulo 2^32 and keeps non-negative values |
| Common.AnswerTask | SlidingCache/SCache.cs:80-87 | the creation task is pending exactly while the producer runs, faulted exactly when it throws, and completed with `(true, value)` exactly when it returns |
| Common.WholeSeconds | ProactiveCache/MemoryCache.cs:26 | `ttl.Ticks / TicksPerSecond` truncates toward zero: the whole seconds in a ttl, bracketed by the ttl on each side |
| Common.SubSecondTtlIsZero | ProactiveCache/MemoryCache.cs:26 | a ttl shorter than one second in either direction adds no seconds |
| ProCacheEntries.WithClaimBit | ProactiveCache/Internal/ProCacheEntry.cs:57 | OR-ing in `OUTDATED_FLAG` sets the claim bit, lifts any non-negative timestamp past every unflagged one, and is idempotent |
| ProCacheEntries.WithoutClaimBit | ProactiveCache/Internal/ProCacheEntry.cs:78-79 | `&= ~OUTDATED_FLAG` clears the claim bit, changes nothing when it was clear, and undoes `WithClaimBit` |
| ProCacheEntries.GetOutdatedSec | ProactiveCache/Internal/ProCacheEntry.cs:93-94 | the refresh time is now plus the whole seconds of the ttl, truncated toward zero, and stays below the claim bit |
| ProCacheEntries.NewEntry | ProactiveCache/Internal/ProCacheEntry.cs:29-33 | a new entry holds no value, is not empty, has an empty wait queue, reads through its pending task and carries the refresh time from its ttl |
| ProCacheEntries.GetValue | ProactiveCache/Internal/ProCacheEntry.cs:35-41 | a published value is read in preference to the task; the result is complete exactly when `IsCompleted` holds |
| ProCacheEntries.GetCompletedValue | ProactiveCache/Internal/ProCacheEntry.cs:43-49 | on a completed entry it gives the published value, or the task's result, and fails exactly when the task faulted |
| ProCacheEntries.Claim | ProactiveCache/Internal/ProCacheEntry.cs:57 | a won compare-exchange sets the claim bit and changes nothing else |
| ProCacheEntries.Unclaim | ProactiveCache/Internal/ProCacheEntry.cs:78-79 | `Reset()` clears the claim bit and changes nothing else |
| ProCacheEntries.Publish | ProactiveCache/Internal/ProCacheEntry.cs:60-67 | `Reset(value, ttl)` publishes the value, clears the empty mark and the queue, keeps the task, and moves the refresh time only when a ttl is given |
| ProCacheEntries.PublishEmpty | ProactiveCache/Internal/ProCacheEntry.cs:69-75 | `Reset(ttl)` publishes "no value" with the empty mark, clears the queue, keeps the task, and moves the refresh time only when a ttl is given |
| ProCacheEntries.EnterQueue | ProactiveCache/Internal/ProCacheEntry.cs:82-91 | admission is refused exactly when no value is published, the task is still running and the queue is full; an admitted waiter adds one and never exceeds the bound; only the queue count changes |
| ProCacheEntries.ClaimOnce | ProactiveCache/Internal/ProCacheEntry.cs:51-58 | once claimed, an entry cannot be claimed again, whatever the clock says |
| ProCacheEntries.UnclaimUndoesClaim | ProactiveCache/Internal/ProCacheEntry.cs:78-79 | giving the claim back restores the entry exactly, so it is claimable again as before |
| ProCacheEntries.ClaimableHasNoClaimBit | ProactiveCache/Internal/ProCacheEntry.cs:51-58 | a claimable entry's timestamp does not carry the claim bit |
| ProCacheEntries.QueueNeverExceedsMax | ProactiveCache/Internal/ProCacheEntry.cs:82-91 | any number of admission attempts leaves the queue count within the bound |
| ProCacheEntries.TransitionsPreserveWellFormed | ProactiveCache/Internal/ProCacheEntry.cs:10-13 | claiming, unclaiming and queueing keep the flag word within the masks' layout |
| ProCacheEntries.EmptyReadsAsNoValue | ProactiveCache/Internal/ProCacheEntry.cs:69-75 | an entry marked empty reads as completed with "no value" |
| ProCacheEntries.IsEmptyMask | ProactiveCache/Internal/ProCacheEntry.cs:20 | `IsEmpty`, the flag word masked with `ISEMPTY_MASK` and compared with zero, is the top-bit test the model uses |
| ProCacheEntries.HasValueMask | ProactiveCache/Internal/ProCacheEntry.cs:21 | `HasValue`, the flag word masked with `HASVALUE_MASK` and compared with zero, is the bit-30 test the model uses |
| ProCacheEntries.CompletedStaysCompleted | ProactiveCache/Internal/ProCacheEntry.cs:24 | `IsCompleted` (a published value, or a finished task) survives every transition: claiming, giving back, publishing a value or "no value", queueing |
| ProCacheEntries.ClaimableLater | ProactiveCache/Internal/ProCacheEntry.cs:53-55 | the `Outdated()` guard passes only for a completed entry whose refresh second has come, and keeps passing as the clock moves on until the entry is claimed |
| ProCacheEntries.ProCacheEntry.constructor | ProactiveCache/Internal/ProCacheEntry.cs:29-33 | the new object's state is `NewEntry` |
| ProCacheEntries.ProCacheEntry.Outdated | ProactiveCache/Internal/ProCacheEntry.cs:51-58 | it claims exactly when the refresh time has come and the creation task has finished (a held claim puts the time out of reach); only a claim changes the state |
| ProCacheEntries.ProCacheEntry.ResetValue | ProactiveCache/Internal/ProCacheEntry.cs:60-67 | the new state is `Publish` of the old one |
| ProCacheEntries.ProCacheEntry.ResetEmpty | ProactiveCache/Internal/ProCacheEntry.cs:69-75 | the new state is `PublishEmpty` of the old one |
| ProCacheEntries.ProCacheEntry.Reset | ProactiveCache/Internal/ProCacheEntry.cs:78-79 | the new state is `Unclaim` of the old one |
| ProCacheEntries.ProCacheEntry.TryEnterQueue | ProactiveCache/Internal/ProCacheEntry.cs:82-91 | answer and new state are `EnterQueue` of the old state |
| ProCacheEntries.ProCacheEntry.SetResult | ProactiveCache/ProCache.cs:147 | the pending creation task completes with the value and nothing else changes |
| ProCacheEntries.ProCacheEntry.SetException | ProactiveCache/ProCache.cs:170 | the pending creation task faults and nothing else changes |
| ProCacheEntries.ProCacheEntry.TrySetException | ProactiveCache/ProCache.cs:155 | a pending task faults; a finished one is left as it is |
| ProCacheTimers.AdvanceLowIsTick | ProactiveCache/Internal/ProCacheTimer.cs:27 | after a tick, the low 32 bits of the millisecond clock are the tick count |
| ProCacheTimers.AdvanceKeepsHigh | ProactiveCache/Internal/ProCacheTimer.cs:22-27 | without a wrap of the tick count, the high half is kept |
| ProCacheTimers.AdvanceCarriesOnWrap | ProactiveCache/Internal/ProCacheTimer.cs:22-27 | when the tick count wraps, the high half goes up by exactly one |
| ProCacheTimers.AdvanceMonotonic | ProactiveCache/Internal/ProCacheTimer.cs:20-29 | the millisecond clock never goes backwards while the high half has room |
| ProCacheTimers.SecondsFollowClock | ProactiveCache/Internal/ProCacheTimer.cs:28 | the seconds (here and at line 17) are the whole seconds of the millisecond clock, and never go back while it moves on, until they outgrow 32 bits |
| ProCacheTimers.ProCacheTimer.constructor | ProactiveCache/Internal/ProCacheTimer.cs:16-17 | the clock starts at the tick count with an empty high half, and seconds are milliseconds / 1000 |
| ProCacheTimers.ProCacheTimer.Elapsed | ProactiveCache/Internal/ProCacheTimer.cs:20-29 | one tick sets the clock to `Advance`: low half is the tick, never earlier than before while the high half has room, seconds follow |
| ProCacheLocks.LockIndex | ProactiveCache/Internal/ProCache.cs:11 | `hash % 256` on a `uint` is a valid index congruent to the hash |
| ProCacheLocks.LockIndexForHashCode | ProactiveCache/ProCache.cs:89 | casting the hash code to `uint` first always gives a valid index congruent to the hash code, negative codes included |
| ProCacheLocks.CongruentHashesShareLock | ProactiveCache/Internal/ProCache.cs:11 | hashes equal modulo 256 share a lock |
| ProCacheLocks.LockTable.constructor | ProactiveCache/Internal/ProCache.cs:9 | 256 distinct lock objects |
| ProCacheLocks.LockTable.GetLock | ProactiveCache/Internal/ProCache.cs:11 | two hashes get the same lock object exactly when their indices agree |
| ProMemoryCache.NewCacheEntry | ProactiveCache/MemoryCache.cs:24-30 | a stored item is already expired exactly when its ttl is under one second, and stays live for every whole second its ttl covers |
| ProMemoryCache.ExpiryIsInclusive | ProactiveCache/MemoryCache.cs:30 | `now_sec >= _expireAt`: an item is expired from its `expireAt` second on, that second included, and stays expired |
| ProMemoryCache.Lookup | ProactiveCache/MemoryCache.cs:53-63 | a read finds the value exactly when the key is stored and not expired (`now >= expireAt` is expired) |
| ProMemoryCache.Unexpired | ProactiveCache/MemoryCache.cs:77-87 | the store after a sweep: exactly the unexpired items, unchanged |
| ProMemoryCache.ExpiredKeys | ProactiveCache/MemoryCache.cs:77-87 | exactly the keys a sweep removes |
| ProMemoryCache.SetThenLookup | ProactiveCache/MemoryCache.cs:44-63 | a value set is read back at once exactly when its ttl is at least one second |
| ProMemoryCache.SetKeepsOtherKeys | ProactiveCache/MemoryCache.cs:44-48 | setting one key does not change what any other key reads |
| ProMemoryCache.RemoveOnlyThatKey | ProactiveCache/MemoryCache.cs:65 | removing a key makes it miss and changes no other read |
| ProMemoryCache.SweepKeepsReadings | ProactiveCache/MemoryCache.cs:77-87 | a sweep changes no read at the sweep's time |
| ProMemoryCache.SweepPartitions | ProactiveCache/MemoryCache.cs:77-87 | the keys kept and the keys removed split the store with no overlap |
| ProMemoryCache.RemoveExpired | ProactiveCache/MemoryCache.cs:82-87 | the sweep loop leaves exactly the unexpired items and lists each removed key once, with the value it held |
| ProMemoryCache.MemoryCache.constructor | ProactiveCache/MemoryCache.cs:35-42 | an empty store whose first sweep is due one window from now |
| ProMemoryCache.MemoryCache.Count | ProactiveCache/MemoryCache.cs:33 | the number of stored keys, expired ones included |
| ProMemoryCache.MemoryCache.Set | ProactiveCache/MemoryCache.cs:44-51 | inserts or overwrites with the expiry from the ttl, and starts a sweep exactly when one is due and none is running |
| ProMemoryCache.MemoryCache.TryGet | ProactiveCache/MemoryCache.cs:53-63 | the read `Lookup` gives, with nothing changed |
| ProMemoryCache.MemoryCache.Remove | ProactiveCache/MemoryCache.cs:65 | only that key goes |
| ProMemoryCache.MemoryCache.StartScanForExpiredItemsIfNeeded | ProactiveCache/MemoryCache.cs:67-75 | a sweep starts exactly when `now >= next` and the last one has finished; the next one is then due one window later |
| ProMemoryCache.MemoryCache.ScanForExpiredItems | ProactiveCache/MemoryCache.cs:77-91 | removes exactly the expired items, reports each once with its value, and calls the hook on them only when one is set |
| SlidingMemoryCache.NewCacheEntry | SlidingCache/MemoryCache.cs:21-27 | a stored item is already expired only when its ttl is at most minus one second (`now > expireAt`), and stays live through every whole second its ttl covers |
| SlidingMemoryCache.ExpiryIsStrict | SlidingCache/MemoryCache.cs:27 | `now_sec > _expireAt`: unlike the proactive store, an item is still live during its `expireAt` second; it is expired from the next one on and stays expired |
| SlidingMemoryCache.Lookup | SlidingCache/MemoryCache.cs:46-56 | a read finds the value exactly when the key is stored and not strictly past its expiry |
| SlidingMemoryCache.Unexpired | SlidingCache/MemoryCache.cs:70-79 | the store after a sweep: exactly the unexpired items, unchanged |
| SlidingMemoryCache.ExpiredKeys | SlidingCache/MemoryCache.cs:70-79 | exactly the keys a sweep removes |
| SlidingMemoryCache.SetThenLookup | SlidingCache/MemoryCache.cs:37-56 | a value set is read back at once exactly when its ttl is above minus one second, so a zero ttl still reads in the same second |
| SlidingMemoryCache.SetKeepsOtherKeys | SlidingCache/MemoryCache.cs:37-44 | setting one key does not change what any other key reads |
| SlidingMemoryCache.RemoveOnlyThatKey | SlidingCache/MemoryCache.cs:58 | removing a key makes it miss and changes no other read |
| SlidingMemoryCache.SweepKeepsReadings | SlidingCache/MemoryCache.cs:70-79 | a sweep changes no read at the sweep's time |
| SlidingMemoryCache.SweepPartitions | SlidingCache/MemoryCache.cs:70-79 | the keys kept and the keys removed split the store |
| SlidingMemoryCache.RemoveExpired | SlidingCache/MemoryCache.cs:74-78 | the sweep loop leaves exactly the unexpired items and lists each removed key once |
| SlidingMemoryCache.MemoryCache.constructor | SlidingCache/MemoryCache.cs:30-35 | an empty store whose first sweep is due one window from now |
| SlidingMemoryCache.MemoryCache.Set | SlidingCache/MemoryCache.cs:37-44 | inserts or overwrites with the expiry from the ttl, and starts a sweep exactly when `now > next` |
| SlidingMemoryCache.MemoryCache.TryGet | SlidingCache/MemoryCache.cs:46-56 | the read `Lookup` gives, with nothing changed |
| SlidingMemoryCache.MemoryCache.Remove | SlidingCache/MemoryCache.cs:58 | only that key goes |
| SlidingMemoryCache.MemoryCache.StartScanForExpiredItemsIfNeeded | SlidingCache/MemoryCache.cs:60-68 | a sweep starts exactly when `now > next`, with no check for one still running; the next is due one window later |
| SlidingMemoryCache.MemoryCache.ScanForExpiredItems | SlidingCache/MemoryCache.cs:70-79 | removes exactly the expired items |
| ProCaches.CreatedState | ProactiveCache/ProCache.cs:136-171 | the entry a creation leaves: its task carries the producer's outcome, a returned value is also published, and the refresh time comes from the outdate ttl |
| ProCaches.RefreshedState | ProactiveCache/ProCache.cs:117-134 | a refresh that returns publishes the value with a new refresh time; one that throws only gives the claim back; one still running keeps the claim |
| ProCaches.EnterWaitQueue | ProactiveCache/ProCache.cs:104-115 | a reader is refused exactly when the bound is not unlimited and `EnterQueue` refuses; an admitted reader gets `GetValue` |
| ProCaches.RefreshFailureKeepsServing | ProactiveCache/ProCache.cs:129-133 | after a failed refresh the entry is exactly as it was before the claim |
| ProCaches.ConcurrentReaderGetsOldValue | ProactiveCache/ProCache.cs:67-83 | while a refresh runs, no other reader can claim, and every reader gets the old value at once |
| ProCaches.CreationOutcomeReachesWaiters | ProactiveCache/ProCache.cs:136-171 | once the producer has answered, a reader of the new entry gets exactly the creation's outcome |
| ProCaches.CreatorRefusedOnlyWithZeroBound | ProactiveCache/ProCache.cs:104-115 | the creator of an entry is refused only when the queue bound is zero and the producer is still running |
| ProCaches.ProCache.constructor | ProactiveCache/ProCache.cs:37-57 | an empty cache with the given ttls and queue bound |
| ProCaches.ProCache.Create | ProactiveCache/ProCache.cs:37-57 | the constructor throws exactly when the outdate ttl exceeds the expire ttl |
| ProCaches.ProCache.Get | ProactiveCache/ProCache.cs:59-65 | as `TryGet`, with a refused admission reported as the queue-limit exception |
| ProCaches.ProCache.TryGet | ProactiveCache/ProCache.cs:67-83 | claimed stale hit: producer answer returned, entry `RefreshedState`, key restored on success. Other hit: `EnterWaitQueue`, store unchanged. Miss: new entry `CreatedState`, stored unless the creation failed. No other entry changes |
| ProCaches.ProCache.Add | ProactiveCache/ProCache.cs:85-102 | re-checks the store; creates and stores one entry only on a miss, hands it to the producer, and removes the key when the producer throws |
| ProCaches.ProCache.TryEnterWaitQueue | ProactiveCache/ProCache.cs:104-115 | answer and new entry state are `EnterWaitQueue` |
| ProCaches.ProCache.UpdateAsync | ProactiveCache/ProCache.cs:117-134 | a returned value is published with the outdate ttl and the entry stored again; a throw only gives the claim back; the caller gets the producer's outcome |
| ProCaches.ProCache.FinishUpdate | ProactiveCache/ProCache.cs:123-133 | the same once a late producer answers |
| ProCaches.ProCache.AddAsync | ProactiveCache/ProCache.cs:136-157 | a value is published without a new refresh time and completes the task; a throw removes the key and faults the task |
| ProCaches.ProCache.FinishAdd | ProactiveCache/ProCache.cs:159-172 | the same once a late producer answers |
| BatchSpec.RoutesPartition | ProactiveCache/ProCacheBatch.cs:159-191 | every requested key goes to exactly one of: answered now, producer, wait list |
| BatchSpec.RoutedKeyIsListed | ProactiveCache/ProCacheBatch.cs:159-191 | each key is found in the list its route names |
| BatchSpec.RoutedKeysAreRequested | ProactiveCache/ProCacheBatch.cs:159-191 | nothing but requested keys reaches any of the three lists |
| BatchSpec.AllAnsweredReply | ProactiveCache/ProCacheBatch.cs:201-203 | when every key is answered now, no key goes to the producer or the wait list, and the reply is just the answered-now values present |
| BatchSpec.ForeseenAsPlannedStep | ProactiveCache/ProCacheBatch.cs:159-191 | routing one more key keeps "each first-met or answered-now key took its foreseen route" |
| BatchSpec.FirstsAsPlannedStep | SlidingCache/BatchSlidingCache.cs:174-199 | routing one more key keeps "each first-met key took its foreseen route" |
| BatchSpec.ConsumeSplits | ProactiveCache/ProCacheBatch.cs:237-246 | the producer's pairs consume exactly the pending keys they name, each at most once; the keys left are exactly those it did not name |
| BatchSpec.ConsumeNothingPending | ProactiveCache/ProCacheBatch.cs:230 | with nothing pending no pair is used |
| BatchSpec.ConsumeUsesAtMostOnePairPerKey | ProactiveCache/ProCacheBatch.cs:239-245 | no more pairs are used than keys were sent |
| BatchSpec.ConsumeTakesFirstPair | ProactiveCache/ProCacheBatch.cs:239-243 | a used pair is the first in the reply with its key |
| BatchSpec.AwaitAllSlots | ProactiveCache/ProCacheBatch.cs:260-271 | the wait loop succeeds exactly when every awaited task does, and keeps the wait list's keys and order |
| BatchSpec.ReplyBounded | ProactiveCache/ProCacheBatch.cs:228-273 | a batch reply has no more pairs than keys requested |
| BatchSpec.ReplyKeysRequested | ProactiveCache/ProCacheBatch.cs:228-273 | every key in a batch reply was requested |
| BatchSpec.AsyncListAdd | ProactiveCache/ProCacheBatch.cs:106-112 | `Dictionary.Add` throws exactly on a key already present, and otherwise adds just that key |
| BatchSpec.AwaitWaits | ProactiveCache/ProCacheBatch.cs:260-271 | the wait loop throws exactly when an awaited task faults, and otherwise appends the present values in wait-list order |
| SCacheInternal.TryAddValue | SlidingCache/Internal/SCache.cs:11-15 | appends the pair exactly when a value is present and keeps what was there |
| SCacheInternal.Present | SlidingCache/Internal/SCache.cs:11-15 | repeated `TryAddValue` keeps no more pairs than slots |
| SCacheInternal.PresentComesFromSlots | SlidingCache/Internal/SCache.cs:11-15 | every pair kept comes from a slot holding that key and value |
| SCacheInternal.CsRemainder | SlidingCache/Internal/SCache.cs:22 | C#'s `%` on `int`: congruent to the dividend, smaller than the divisor, and with the dividend's sign |
| SCacheInternal.GetLock | SlidingCache/Internal/SCache.cs:22 | `_locks[hash % 256]` as written: the lookup finds a lock exactly when C#'s truncating remainder of the hash by 256 is not negative, and then the index is that remainder, below 256 and congruent to the hash; otherwise the indexing throws |
| SCacheInternal.GetLockSucceedsIff | SlidingCache/Internal/SCache.cs:22 | the lock is found exactly for non-negative hashes and multiples of 256 |
| SCacheInternal.NegativeHashThrows | SlidingCache/Internal/SCache.cs:22 | a hash code of -1 makes the lookup throw |
| SlidingEntries.SlidingEntry.constructor | SlidingCache/SlidingCache.cs:80 | an entry built on the creation task, with no calls yet |
| SlidingEntries.SlidingEntry.Outdated | SlidingCache/SlidingCache.cs:63 | the answer is the entry's own decision at this time; the call is logged with it |
| SlidingEntries.SlidingEntry.ResetValue | SlidingCache/SlidingCache.cs:92 | logs `Reset(value, ttl)` and changes nothing else |
| SlidingEntries.SlidingEntry.ResetEmpty | SlidingCache/BatchSlidingCache.cs:73 | logs `Reset(ttl)` and changes nothing else |
| SlidingEntries.SlidingEntry.Reset | SlidingCache/SlidingCache.cs:98 | logs `Reset()` and changes nothing else |
| SlidingEntries.SlidingEntry.SetResult | SlidingCache/SlidingCache.cs:108 | the pending creation task completes with `(true, value)` |
| SlidingEntries.SlidingEntry.SetException | SlidingCache/SlidingCache.cs:114 | the pending creation task faults |
| SlidingEntries.Refreshed | SlidingCache/BatchSlidingCache.cs:90 | a refresh adds exactly one `Reset(v, ttl)` after the earlier calls and keeps the task |
| SlidingSteps.AnswerValue | SlidingCache/SCache.cs:76-90 | the caller's task is running, faulted or completed exactly as the producer is |
| SlidingSteps.CreatorAndWaitersAgree | SlidingCache/SCache.cs:80-88 | the creator's result and the shared creation task carry the same outcome |
| SlidingSteps.RefreshCalls | SlidingCache/SCache.cs:60-74 | a refresh calls `Reset(value, outdateTtl)` on success, `Reset()` on failure and nothing while it runs |
| SCaches.SCache.constructor | SlidingCache/SCache.cs:21-30 | an empty cache with the given ttls |
| SCaches.SCache.Create | SlidingCache/SCache.cs:21-30 | the constructor throws exactly when the outdate ttl exceeds the expire ttl |
| SCaches.SCache.Get | SlidingCache/SCache.cs:32-42 | claimed stale hit: producer answer returned, refresh calls logged, key restored on success. Other hit: the entry's `GetValue()`, store unchanged. Miss: one new entry whose task is the creation's outcome, removed again on failure. No other entry changes |
| SCaches.SCache.Add | SlidingCache/SCache.cs:44-58 | under the corrected shard lock, re-checks the store and creates exactly one entry only on a miss |
| SCaches.SCache.UpdateAsync | SlidingCache/SCache.cs:60-74 | the caller gets the producer's outcome; the refresh calls of `RefreshCalls` are made; the entry is stored again only on success |
| SCaches.SCache.FinishUpdate | SlidingCache/SCache.cs:64-73 | the same once a late producer answers |
| SCaches.SCache.AddAsync | SlidingCache/SCache.cs:76-90 | the creation task takes the producer's outcome; a throw removes the key |
| SCaches.SCache.FinishAdd | SlidingCache/SCache.cs:80-89 | the same once a late producer answers |
| SlidingCaches.SlidingCache.constructor | SlidingCache/SlidingCache.cs:46-55 | an empty cache with the given ttls |
| SlidingCaches.SlidingCache.Create | SlidingCache/SlidingCache.cs:46-55 | the constructor throws exactly when the outdate ttl exceeds the expire ttl |
| SlidingCaches.SlidingCache.Get | SlidingCache/SlidingCache.cs:57-67 | as `SCache.Get` |
| SlidingCaches.SlidingCache.Add | SlidingCache/SlidingCache.cs:69-85 | re-checks the store and creates exactly one entry only on a miss |
| SlidingCaches.SlidingCache.UpdateAsync | SlidingCache/SlidingCache.cs:87-101 | the caller gets the producer's outcome; the refresh calls are made; the entry is stored again only on success |
| SlidingCaches.SlidingCache.FinishUpdate | SlidingCache/SlidingCache.cs:91-100 | the same once a late producer answers |
| SlidingCaches.SlidingCache.AddAsync | SlidingCache/SlidingCache.cs:103-117 | the creation task takes the producer's outcome; a throw removes the key, and a failing removal is swallowed |
| SlidingCaches.SlidingCache.FinishAdd | SlidingCache/SlidingCache.cs:107-116 | the same once a late producer answers |
| ProCacheBatches.TasksOf | ProactiveCache/ProCacheBatch.cs:176 | the wait list holds each awaited entry's task, in order |
| ProCacheBatches.SuccessState | ProactiveCache/ProCacheBatch.cs:50-65 | a value completes a creation's task with `(true, v)` and nothing else; it publishes into a claimed entry, keeping its task |
| ProCacheBatches.EmptyState | ProactiveCache/ProCacheBatch.cs:33-48 | a key left out completes a creation with `(false, default)`; it marks a claimed entry empty |
| ProCacheBatches.ErrorState | ProactiveCache/ProCacheBatch.cs:67-80 | a throw faults a creation's task; it only gives a claimed entry's claim back |
| ProCacheBatches.Success | ProactiveCache/ProCacheBatch.cs:50-65 | applies `SuccessState` and answers "store again" exactly for a claimed entry |
| ProCacheBatches.Empty | ProactiveCache/ProCacheBatch.cs:33-48 | applies `EmptyState` and answers "store again" exactly for a claimed entry |
| ProCacheBatches.Error | ProactiveCache/ProCacheBatch.cs:67-80 | applies `ErrorState` and answers "remove" exactly for a creation |
| ProCacheBatches.Restamped | ProactiveCache/ProCacheBatch.cs:241-249 | storing refreshed entries again renews their expiry and changes no key and no value |
| ProCacheBatches.ProCacheBatch.constructor | ProactiveCache/ProCacheBatch.cs:127-147 | an empty cache; refreshes are on exactly when the outdate ttl is positive |
| ProCacheBatches.ProCacheBatch.Create | ProactiveCache/ProCacheBatch.cs:127-147 | the constructor throws exactly when the outdate ttl exceeds the expire ttl |
| ProCacheBatches.ProCacheBatch.GetOrAdd | ProactiveCache/ProCacheBatch.cs:206-226 | re-checks the store; on a miss exactly one new entry is created and stored |
| ProCacheBatches.ProCacheBatch.SyncOrWait | ProactiveCache/ProCacheBatch.cs:180-187 | an entry found on re-check is answered now when complete, with a fault when its task faulted, and awaited otherwise |
| ProCacheBatches.ProCacheBatch.RouteKey | ProactiveCache/ProCacheBatch.cs:159-190 | a completed stale hit is claimed for refresh when refreshes are on; other completed hits are answered now; running ones are awaited; a miss creates an entry for the producer; only the claimed or created entry changes |
| ProCacheBatches.ProCacheBatch.ClassifyKey | ProactiveCache/ProCacheBatch.cs:159-191 | without a fault, the key takes the route `RouteFor` foresees from its entry's state at the start: absent → producer, running → wait, claimable with refreshes on → producer, else answered with `GetCompletedValue()`. The key then joins the list its route names, and the producer map keeps matching the producer list. The only faults: a faulted entry (exactly when `RouteFor` foresees none), and a key already in the producer map. Every other key's entry and state are unchanged, and so is the key's own when it is answered now. The key's own entry ends as `NextHit` of its state: a claimable stale entry is claimed when it goes to the producer, and a missing key gets a fresh entry stored under it and, for the producer, put in the producer map |
| ProCacheBatches.ProCacheBatch.ClassifyNext | ProactiveCache/ProCacheBatch.cs:159-191 | one loop pass keeps the loop state: routes recorded, and each first-met or answered key took its foreseen route; a fault on such a key is a faulted entry foreseen as such. The pass leaves the met key's entry as `NextHit` of its state and every other key's entry as it was |
| ProCacheBatches.ProCacheBatch.Classify | ProactiveCache/ProCacheBatch.cs:159-191 | the loop routes the keys in order until a fault, recording each key in the list its route names. Each key met for the first time, and each key answered from the cache, takes the route `RouteFor` foresees from the store and entry states at the call's start. The loop stops early on such a key only when its entry is faulted |
| ProCacheBatches.HitAfterMetOnce | ProactiveCache/ProCacheBatch.cs:159-191 | meeting a key again changes nothing more: a claimed entry is not claimable again and a new entry is still pending, so a key requested several times ends as `NextHit` of its state, as if requested once |
| ProCacheBatches.ProCacheBatch.ConsumePair | ProactiveCache/ProCacheBatch.cs:239-245 | one pair for a pending key is applied with `Success` and the key leaves the pending map |
| ProCacheBatches.ProCacheBatch.ConsumeReply | ProactiveCache/ProCacheBatch.cs:237-246 | the reply loop uses exactly the pairs `Consume` picks, applies `SuccessState` to their entries, leaves the other entries alone, and restamps the refreshed ones |
| ProCacheBatches.ProCacheBatch.EmptyOne | ProactiveCache/ProCacheBatch.cs:247-249 | one left-out key is applied with `Empty` |
| ProCacheBatches.ProCacheBatch.MarkEmpty | ProactiveCache/ProCacheBatch.cs:247-249 | every left-out key gets `EmptyState`, and refreshed ones are restamped |
| ProCacheBatches.ProCacheBatch.RollBackOne | ProactiveCache/ProCacheBatch.cs:253-255 | one pending key is applied with `Error` |
| ProCacheBatches.ProCacheBatch.RollBack | ProactiveCache/ProCacheBatch.cs:251-257 | every pending key gets `ErrorState`, and exactly the created keys are removed |
| ProCacheBatches.ProCacheBatch.Get | ProactiveCache/ProCacheBatch.cs:152-273 | routes as `Classify`; a fault in classification throws, and a faulted entry foreseen at the start is exactly such a fault. The producer is called only with the keys routed to it. Its reply is consumed at the later clock reading `replySec` (entries reset and stored again then). A throwing producer gives its exception; otherwise the reply is the answered-now pairs, then the consumed pairs, then the awaited values present, or the awaited exception. When every key is foreseen as answered from the cache, nothing is produced or awaited and the reply is the cached values present, in request order (lines 201-203) |
| BatchSlidingCaches.TasksOf | SlidingCache/BatchSlidingCache.cs:187 | the wait list holds each awaited entry's `GetValueWithState()`, in order |
| BatchSlidingCaches.SuccessState | SlidingCache/BatchSlidingCache.cs:80-95 | a value completes a creation's task with `(true, v)`; it calls `Reset(v, outdateTtl)` on a claimed entry |
| BatchSlidingCaches.EmptyState | SlidingCache/BatchSlidingCache.cs:63-78 | a left-out key completes a creation with `(false, default)`; it calls `Reset(outdateTtl)` on a claimed entry |
| BatchSlidingCaches.ErrorState | SlidingCache/BatchSlidingCache.cs:97-110 | a throw faults a creation's task; it calls `Reset()` on a claimed entry |
| BatchSlidingCaches.Success | SlidingCache/BatchSlidingCache.cs:80-95 | applies `SuccessState` and answers "store again" exactly for a claimed entry |
| BatchSlidingCaches.Empty | SlidingCache/BatchSlidingCache.cs:63-78 | applies `EmptyState` and answers "store again" exactly for a claimed entry |
| BatchSlidingCaches.Error | SlidingCache/BatchSlidingCache.cs:97-110 | applies `ErrorState` and answers "remove" exactly for a creation |
| BatchSlidingCaches.Restamped | SlidingCache/BatchSlidingCache.cs:235-243 | storing refreshed entries again renews their expiry and changes no key and no value |
| BatchSlidingCaches.BatchSlidingCache.constructor | SlidingCache/BatchSlidingCache.cs:156-167 | an empty cache; refreshes are on exactly when the outdate ttl is positive |
| BatchSlidingCaches.BatchSlidingCache.Create | SlidingCache/BatchSlidingCache.cs:156-167 | the constructor throws exactly when the outdate ttl exceeds the expire ttl |
| BatchSlidingCaches.BatchSlidingCache.Add | SlidingCache/BatchSlidingCache.cs:206-222 | re-checks the store; on a miss exactly one new entry is created on a pending task and stored |
| BatchSlidingCaches.BatchSlidingCache.SyncOrWait | SlidingCache/BatchSlidingCache.cs:194-197 | an entry found on re-check is answered now when complete, with a fault when its task faulted, and awaited otherwise |
| BatchSlidingCaches.BatchSlidingCache.RouteKey | SlidingCache/BatchSlidingCache.cs:174-198 | a completed hit calls `Outdated()` when refreshes are on and goes to the producer when claimed; otherwise it is answered from `GetCompletedValue()`. A running hit is awaited. A miss creates an entry for the producer |
| BatchSlidingCaches.BatchSlidingCache.ClassifyKey | SlidingCache/BatchSlidingCache.cs:174-199 | without a fault, the key takes the route `RouteFor` foresees from its entry and state at the start: absent → producer, running → wait, `Outdated()` claims with refreshes on → producer, else answered from `GetCompletedValue()` read after `Outdated()`. The key then joins the list its route names, and the producer map keeps matching the producer list. The only faults: a faulted entry (exactly when `RouteFor` foresees none), and a key already in the producer map. Every other key's entry and state are unchanged. A found entry stays stored and its state becomes `NextState` of the old one: with refreshes on, a completed entry logs its `Outdated()` call with the answer. A missing key gets a fresh pending entry of this cache's code and outdate ttl, stored under it with the expire ttl |
| BatchSlidingCaches.BatchSlidingCache.ClassifyNext | SlidingCache/BatchSlidingCache.cs:174-199 | one loop pass keeps the loop state: routes recorded, each first-met key took its foreseen route, and keys not yet met keep their entry states; a fault on a first-met key is a faulted entry foreseen as such. The pass leaves a found entry with `NextState` of its state, gives a missing key a fresh pending entry of this cache's code and outdate ttl, and leaves every other key's entry and state as they were |
| BatchSlidingCaches.BatchSlidingCache.Classify | SlidingCache/BatchSlidingCache.cs:174-199 | the loop routes the keys in order until a fault, recording each key in the list its route names. Each key met for the first time takes the route `RouteFor` foresees from the store and entry states at the call's start. The loop stops early on such a key only when its entry is faulted |
| BatchSlidingCaches.ClaimLogged | SlidingCache/BatchSlidingCache.cs:179-182 | a found entry goes to the producer exactly when the `Outdated()` call that `NextState` logs answered that it claims |
| BatchSlidingCaches.BatchSlidingCache.ConsumePair | SlidingCache/BatchSlidingCache.cs:233-239 | one pair for a pending key is applied with `Success` and the key leaves the pending map |
| BatchSlidingCaches.BatchSlidingCache.ConsumeReply | SlidingCache/BatchSlidingCache.cs:231-240 | the reply loop uses exactly the pairs `Consume` picks, applies `SuccessState` to their entries, leaves the rest alone, and restamps the refreshed ones |
| BatchSlidingCaches.BatchSlidingCache.EmptyOne | SlidingCache/BatchSlidingCache.cs:241-243 | one left-out key is applied with `Empty` |
| BatchSlidingCaches.BatchSlidingCache.MarkEmpty | SlidingCache/BatchSlidingCache.cs:241-243 | every left-out key gets `EmptyState`, and refreshed ones are restamped |
| BatchSlidingCaches.BatchSlidingCache.RollBackOne | SlidingCache/BatchSlidingCache.cs:247-249 | one pending key is applied with `Error` |
| BatchSlidingCaches.BatchSlidingCache.RollBack | SlidingCache/BatchSlidingCache.cs:245-251 | every pending key gets `ErrorState`, and exactly the created keys are removed |
| BatchSlidingCaches.BatchSlidingCache.Reconcile | SlidingCache/BatchSlidingCache.cs:231-251 | the producer's pairs are consumed exactly as `Consume` picks them, whether the producer then threw or not, and the store stays well formed |
| BatchSlidingCaches.BatchSlidingCache.Respond | SlidingCache/BatchSlidingCache.cs:224-266 | the producer is called exactly when the producer map is not empty, with its keys; a throw gives `ProducerFailed` and nothing is awaited; otherwise the wait-list tasks are read at `replySec` and the reply is the answered-now pairs, the pairs `Consume` picks, and the awaited values present, or `WaitFailed` when an awaited task faulted |
| BatchSlidingCaches.BatchSlidingCache.Get | SlidingCache/BatchSlidingCache.cs:169-267 | routes as `Classify`; a fault in classification throws, and a faulted entry foreseen at the start for a first-met key is exactly such a fault. The producer is called only with the keys routed to it. Its reply is consumed, and the wait list read, at the later clock reading `replySec`. A throwing producer gives its exception; otherwise the reply is the answered-now pairs, the consumed pairs, then the awaited values present, or the awaited exception. When the keys are distinct and each is foreseen as answered from the cache, nothing is produced or awaited and the reply is the cached values present, in request order (lines 199-201) |

## Left out

- Concurrency is not modelled. This covers locks, `Volatile`, `Interlocked` and compare-exchange races. Every operation runs to completion before the next starts, so the shard locks have no effect and only their index is modelled.
- The clock is an input (`nowSec`). Where the source reads it again after awaiting the producer (`FinishUpdate`, `FinishAdd`, and the batch `Get`'s `replySec`), the later reading is a second input. The timer callback is modelled as `ProCacheTimer.Elapsed`, called explicitly. `Environment.TickCount` is an input, and the `System.Timers.Timer` that drives it is not modelled.
- The background sweep is modelled as `ScanForExpiredItems`, called explicitly. `Set` only reports that a sweep would start, and the task it would run on is not modelled.
- Hooks are not modelled: `ProCacheHook`, `ProCacheBatchHook`, `DoCallback`, and the `miss`/`outdated` lists passed to them. The expiry hook of the proactive store is represented only by which items it would receive. Hook exceptions are swallowed in the source, so they change nothing.
- Not modelled because they add nothing to the caches' logic:
  - external caches (`ExternalCacheFactory`, `ICache` implementations other than the two `MemoryCache`s);
  - the factories;
  - the `state` argument and `CancellationToken`;
  - `AsValueTask`.
- The producer is not called. Its answer is an input of type `Answer`: a value, a failure or `Later`. The batch producer's answer is a list of pairs plus a flag for throwing. The only exception kind is "throws".
- Awaits on tasks of other entries are inputs too: `later` gives the outcome of a task that is still running when it is awaited. A wait task is read at the time of the wait.
- `SCacheEntry` and `SlidingCacheEntry` are not part of this model. `SlidingCache<Tval>.GetLock` and `SlidingCacheTimer` are not part of this model either. The entries are represented by `Behaviour`: their answers are an unspecified function of the creation task, the outdate ttl, the calls made on them and the clock.
- SlidingCaches.SlidingCache.Add and BatchSlidingCaches.BatchSlidingCache.Add: the lock they take comes from the missing `GetLock`, so no hash code is modelled.
- SCaches.SCache.Add, SCaches.SCache.Get: the shard lock is found with the corrected index (see Findings), so the `IndexOutOfRangeException` that `SCache.Add` (SlidingCache/SCache.cs:47) raises through `GetLock` (SlidingCache/Internal/SCache.cs:22) for a negative hash code is not modelled; for such a key the model answers where the source throws. That defect is modelled on its own by `SCacheInternal.GetLock`.
- `SlidingCache/Internal/BatchSlidingCache.cs` is not modelled. It declares a second `GetLock(int)`, with the same negative-index defect as the one under Findings, and nothing in the cores calls it.
- Two ordering choices:
  - dictionary enumeration order is taken as insertion order, both for the keys sent to the producer and for the left-out keys;
  - the producer gets a snapshot of the producer map's keys. `ProactiveCache/ProCacheBatch.cs:235-236` copies them first, but `SlidingCache/BatchSlidingCache.cs:231` hands over the live `vals.Keys` view, which the consume loop then shrinks with `vals.Remove`; that aliasing is not captured;
  - the order of the sweep over the store is not fixed.
- Mixed-revision code:
  - the proactive batch cache calls `GetCompletedValue()` and `GetValueWithState()` as the sliding entry defines them, returning `(present, value)`. They are modelled with that meaning: a completed task holds `Option<V>`;
  - `ProactiveCache/ProCache.cs:51` and `ProactiveCache/ProCacheBatch.cs:141` pass the `MemoryCache` constructor arguments in the other order; at both call sites the model takes scan window 600 and the hook.
- ProCacheBatches.ProCacheBatch.Get, BatchSlidingCaches.BatchSlidingCache.Get: the contract states the reply, not the final store and entries. The reconciliation methods (`ConsumeReply`, `MarkEmpty`, `RollBack`) state their effect on the entries; in the sliding module `Reconcile` runs them in turn and states only the pairs consumed. Each classification pass states its effect on its own key (see `Classify` below); no contract composes these into the state the whole call leaves. When classification stops on a fault, entries already claimed or created by the same call stay claimed or pending, as the source leaves them.
- BatchSlidingCaches.BatchSlidingCache.Reconcile: states the pairs consumed, not the entries and store it leaves; `ConsumeReply`, `MarkEmpty` and `RollBack`, which it calls in turn, state those.
- ProCacheBatches.ProCacheBatch.Classify, BatchSlidingCaches.BatchSlidingCache.Classify: the contract states each key's route and the lists, not the entry states the loop leaves behind (the claims it makes, the `Outdated()` calls it logs, the entries it creates). `ClassifyKey` and `ClassifyNext` state that effect pass by pass: the met key's entry ends as `NextHit` (proactive) or `NextState` (sliding) of its state, a missing key gets a fresh pending entry, and every other key's entry is untouched. The loop invariant does not carry these to the end of the loop.
- ProCacheBatches.ProCacheBatch.ConsumeReply, ProCacheBatches.ProCacheBatch.MarkEmpty, ProCacheBatches.ProCacheBatch.RollBack, ProCacheBatches.ProCacheBatch.GetOrAdd, the same three in `BatchSlidingCaches` with BatchSlidingCaches.BatchSlidingCache.Add, ProCaches.ProCache.Get, ProCaches.ProCache.TryGet, ProCaches.ProCache.Add, ProCaches.ProCache.UpdateAsync, ProCaches.ProCache.FinishUpdate, SCaches.SCache.Get, SCaches.SCache.Add, SCaches.SCache.UpdateAsync, SCaches.SCache.FinishUpdate, SlidingCaches.SlidingCache.Get, SlidingCaches.SlidingCache.Add, SlidingCaches.SlidingCache.UpdateAsync, SlidingCaches.SlidingCache.FinishUpdate: the store's sweep schedule (`nextExpirationScan`, and `scanRunning` in the proactive store) after their `Set` calls is left unspecified.
- ProCacheTimers.ProCacheTimer.Elapsed: monotonicity is stated only while the high half of the millisecond clock is below its maximum; the `ulong` overflow after that is not modelled.
- SCacheInternal.TryAddValue: the in-place append to the caller's list is modelled as a function that returns the extended list. The classification loops assign it back to their local result list, so no aliasing of that list is modelled.
- ProCacheLocks.LockTable.GetLock: the lock objects are distinct model objects; the monitors behind them are not modelled.

## Findings

| source | as written | input that shows it | evidently intended | confidence | as-written member | corrected member |
|---|---|---|---|---|---|---|
| SlidingCache/Internal/SCache.cs:22 | `_locks[hash % 256]` on an `int` hash: C#'s remainder is negative for a negative hash, so the indexing throws `IndexOutOfRangeException` on the `SCache.Add` path (SlidingCache/SCache.cs:47) | `key.GetHashCode() == -1` | a shard index in [0, 256) for every hash, as the proactive generation gets by casting to `uint` first (ProactiveCache/ProCache.cs:89) | not executed | SCacheInternal.GetLockSucceedsIff | ProCacheLocks.LockIndexForHashCode |
