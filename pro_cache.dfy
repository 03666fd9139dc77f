/**
 * The single-key proactive cache. A read either finds a live entry, which
 * it claims for a refresh once stale or else joins as a waiter, or misses
 * and creates the entry under the key's shard lock. The producer's answer
 * is an input: `Now` when its ValueTask is already finished when the cache
 * looks at it, `Later` when the rest happens in a continuation
 * (`FinishAdd`, `FinishUpdate`).
 */
module ProCaches {
  import opened Common
  import opened ProCacheEntries
  import opened ProMemoryCache

  /** `ProCache.UNLIMITED_QUEUE_SIZE`, `ushort.MaxValue`. */
  const UNLIMITED_QUEUE_SIZE: uint16 := 0xFFFF

  /** The default scan window of the store the cache creates for itself. */
  const DEFAULT_CACHE_EXPIRATION_SEC: int32 := 600

  /** What `Get` hands back: the caller's task, or the queue-limit exception. */
  datatype GetReply<V> = Value(task: Task<Option<V>>) | QueueLimitExceeded

  /**
   * A new entry after the synchronous part of `AddAsync`: the completion
   * mirrors the producer, and a value published on creation keeps the
   * creation-time deadline (`Reset(res, null)`).
   */
  function CreatedState<V>(answer: Answer<V>, outdateTtl: TimeSpan, nowSec: uint32): (s: EntryState<V>)
    ensures WellFormed(s)
    ensures s.task == AnswerTask(answer)
    ensures s.outdatedSec == GetOutdatedSec(nowSec, outdateTtl)
    ensures HasValue(s) <==> answer.Now? && answer.outcome.Ok?
    ensures HasValue(s) ==> s.value == Some(answer.outcome.value) && !IsEmpty(s)
    ensures QueueSize(s) == 0
  {
    var s0 := NewEntry(outdateTtl, nowSec);
    match answer
    case Now(Ok(v)) => Publish(s0, v, None, nowSec).(task := Completed(Some(v)))
    case Now(Fail) => s0.(task := Faulted)
    case Later => s0
  }

  /**
   * A claimed entry after the synchronous part of `UpdateAsync`: a new
   * value with a new deadline, the claim undone on failure, or still
   * claimed while the producer runs.
   */
  function RefreshedState<V>(s: EntryState<V>, answer: Answer<V>, outdateTtl: TimeSpan, nowSec: uint32): (r: EntryState<V>)
    ensures WellFormed(s) ==> WellFormed(r)
    ensures answer.Now? && answer.outcome.Ok? ==>
      HasValue(r) && !IsEmpty(r) && r.value == Some(answer.outcome.value) && r.outdatedSec == GetOutdatedSec(nowSec, outdateTtl)
    ensures answer == Now(Fail) ==> r.(outdatedSec := s.outdatedSec) == s && !HasClaimBit(r.outdatedSec)
    ensures answer.Later? ==> r.(outdatedSec := s.outdatedSec) == s && HasClaimBit(r.outdatedSec)
    ensures r.task == s.task
  {
    match answer
    case Now(Ok(v)) => Publish(Claim(s), v, Some(outdateTtl), nowSec)
    case Now(Fail) => Unclaim(Claim(s))
    case Later => Claim(s)
  }

  /**
   * `TryEnterWaitQueue`: with an unlimited queue every caller is admitted
   * and nothing is counted; otherwise admission is `TryEnterQueue`. An
   * admitted caller gets the entry's `GetValue()`.
   */
  function EnterWaitQueue<V>(s: EntryState<V>, max: uint16): (r: (Option<Task<Option<V>>>, EntryState<V>))
    ensures r.0.None? <==> max != UNLIMITED_QUEUE_SIZE && !HasValue(s) && !s.task.IsCompleted() && QueueSize(s) >= max
    ensures r.0.Some? ==> r.0.value == GetValue(s) && GetValue(r.1) == GetValue(s)
    ensures max == UNLIMITED_QUEUE_SIZE ==> r.1 == s
    ensures max != UNLIMITED_QUEUE_SIZE ==> r.1 == EnterQueue(s, max).1
  {
    if max == UNLIMITED_QUEUE_SIZE then (Some(GetValue(s)), s)
    else
      var (admitted, s') := EnterQueue(s, max);
      (if admitted then Some(GetValue(s')) else None, s')
  }

  /** A refresh that fails leaves the entry exactly as it was before the claim. */
  lemma RefreshFailureKeepsServing<V>(s: EntryState<V>, outdateTtl: TimeSpan, nowSec: uint32)
    requires WellFormed(s) && !HasClaimBit(s.outdatedSec)
    ensures RefreshedState(s, Now(Fail), outdateTtl, nowSec) == s
  {
  }

  /**
   * While a refresh runs, another reader at any second cannot claim the
   * entry again and is served the old value at once.
   */
  lemma ConcurrentReaderGetsOldValue<V>(s: EntryState<V>, outdateTtl: TimeSpan, nowSec: uint32, later: uint32, max: uint16)
    requires WellFormed(s) && HasValue(s) && 0 <= s.outdatedSec
    ensures !Claimable(RefreshedState(s, Later, outdateTtl, nowSec), later)
    ensures EnterWaitQueue(RefreshedState(s, Later, outdateTtl, nowSec), max).0 == Some(Completed(s.value))
  {
    ClaimOnce(s, later);
  }

  /**
   * Readers that join a creation whose producer failed synchronously see
   * the fault; readers of a successful one see the value.
   */
  lemma CreationOutcomeReachesWaiters<V>(answer: Answer<V>, outdateTtl: TimeSpan, nowSec: uint32, max: uint16)
    requires answer.Now?
    ensures EnterWaitQueue(CreatedState(answer, outdateTtl, nowSec), max).0 == Some(AnswerTask(answer))
  {
  }

  /** The creator itself is refused only when the queue bound is zero and the producer is still running. */
  lemma CreatorRefusedOnlyWithZeroBound<V>(answer: Answer<V>, outdateTtl: TimeSpan, nowSec: uint32, max: uint16)
    ensures EnterWaitQueue(CreatedState(answer, outdateTtl, nowSec), max).0.None? <==> answer.Later? && max == 0
  {
  }

  class ProCache<K(==), V> {
    const store: MemoryCache<K, ProCacheEntry<V>>
    const outdateTtl: TimeSpan
    const expireTtl: TimeSpan
    const maxQueueLength: uint16

    /** The entries the store currently holds. */
    function Entries(): set<ProCacheEntry<V>>
      reads this, store
    {
      set k | k in store.entries :: store.entries[k].value
    }

    ghost predicate Valid()
      reads this, store, Entries()
    {
      && TtlsConsistent(outdateTtl, expireTtl)
      && forall e :: e in Entries() ==> e.Valid()
    }

    /** The constructor, once the ttl check has passed. */
    constructor (outdateTtl: TimeSpan, expireTtl: TimeSpan, maxQueueLength: uint16, hasHook: bool, nowSec: uint32)
      requires TtlsConsistent(outdateTtl, expireTtl)
      ensures Valid() && fresh(store)
      ensures this.outdateTtl == outdateTtl && this.expireTtl == expireTtl && this.maxQueueLength == maxQueueLength
      ensures store.entries == map[] && store.hasExpiredHook == hasHook
    {
      this.outdateTtl := outdateTtl;
      this.expireTtl := expireTtl;
      this.maxQueueLength := maxQueueLength;
      store := new MemoryCache(hasHook, DEFAULT_CACHE_EXPIRATION_SEC, nowSec);
    }

    /**
     * `new ProCache(get, expire_ttl, outdate_ttl, ...)`: an outdate ttl
     * longer than the expire ttl is rejected with an `ArgumentException`.
     */
    static method Create(outdateTtl: TimeSpan, expireTtl: TimeSpan, maxQueueLength: uint16, hasHook: bool, nowSec: uint32)
      returns (r: Option<ProCache<K, V>>, error: Option<ConfigError>)
      ensures r.None? <==> outdateTtl > expireTtl
      ensures error.Some? <==> r.None?
      ensures r.Some? ==> fresh(r.value) && r.value.Valid() && r.value.store.entries == map[]
      ensures r.Some? ==> r.value.outdateTtl == outdateTtl && r.value.expireTtl == expireTtl && r.value.maxQueueLength == maxQueueLength
    {
      if outdateTtl > expireTtl {
        return None, Some(OutdateTtlExceedsExpireTtl);
      }
      var c := new ProCache(outdateTtl, expireTtl, maxQueueLength, hasHook, nowSec);
      return Some(c), None;
    }

    /**
     * The effect of one `TryGet`, by the path it takes: a refresh claimed on
     * a stale hit, a plain hit, or a miss that creates the entry. No entry
     * other than the one read or created changes.
     */
    twostate predicate TryGetPost(key: K, nowSec: uint32, answer: Answer<V>, new r: Option<Task<Option<V>>>)
      reads *
    {
      var hit := Lookup(old(store.entries), key, nowSec);
      && (forall k :: k in old(store.entries) && (hit.None? || old(store.entries)[k].value != hit.value) ==>
            unchanged(old(store.entries)[k].value))
      && if hit.Some? then
           var e := hit.value;
           if outdateTtl > 0 && Claimable(old(e.State()), nowSec) then
             && r == Some(AnswerTask(answer))
             && e.State() == RefreshedState(old(e.State()), answer, outdateTtl, nowSec)
             && store.entries == (if answer.Now? && answer.outcome.Ok?
                                  then old(store.entries)[key := NewCacheEntry(e, expireTtl, nowSec)]
                                  else old(store.entries))
           else
             && (r, e.State()) == EnterWaitQueue(old(e.State()), maxQueueLength)
             && store.entries == old(store.entries)
         else
           var created := CreatedState(answer, outdateTtl, nowSec);
           && r == EnterWaitQueue(created, maxQueueLength).0
           && if answer == Now(Fail) then
                store.entries == old(store.entries) - {key}
              else
                && key in store.entries
                && var e := store.entries[key].value;
                && fresh(e)
                && store.entries == old(store.entries)[key := NewCacheEntry(e, expireTtl, nowSec)]
                && e.State() == EnterWaitQueue(created, maxQueueLength).1
    }

    /** `Get`: `TryGet`, with a refused admission turned into the exception. */
    method Get(key: K, nowSec: uint32, answer: Answer<V>) returns (r: GetReply<V>)
      requires Valid()
      modifies store, Entries()
      ensures Valid()
      ensures TryGetPost(key, nowSec, answer, if r.Value? then Some(r.task) else None)
    {
      var res := TryGet(key, nowSec, answer);
      if res.Some? {
        return Value(res.value);
      }
      r := QueueLimitExceeded;
    }

    /** `TryGet`. */
    method TryGet(key: K, nowSec: uint32, answer: Answer<V>) returns (r: Option<Task<Option<V>>>)
      requires Valid()
      modifies store, Entries()
      ensures Valid()
      ensures TryGetPost(key, nowSec, answer, r)
    {
      var entry: ProCacheEntry<V>;
      var res := store.TryGet(key, nowSec);
      if res.Some? {
        entry := res.value;
        assert entry in Entries();
        if outdateTtl > 0 {
          var claimed := entry.Outdated(nowSec);
          if claimed {
            var t := UpdateAsync(key, entry, answer, nowSec);
            return Some(t);
          }
        }
      } else {
        entry := Add(key, nowSec, answer);
      }
      r := TryEnterWaitQueue(entry);
    }

    /**
     * `Add`: re-checks the store under the key's shard lock; only if the key
     * is still missing is one entry created, stored with the expire ttl and
     * handed to the producer.
     */
    method Add(key: K, nowSec: uint32, answer: Answer<V>) returns (entry: ProCacheEntry<V>)
      requires Valid()
      modifies store
      ensures Valid()
      ensures entry.Valid()
      ensures var hit := Lookup(old(store.entries), key, nowSec);
        if hit.Some? then entry == hit.value && store.entries == old(store.entries)
        else
          && fresh(entry)
          && entry.State() == CreatedState(answer, outdateTtl, nowSec)
          && store.entries == if answer == Now(Fail) then old(store.entries) - {key}
                              else old(store.entries)[key := NewCacheEntry(entry, expireTtl, nowSec)]
    {
      var res := store.TryGet(key, nowSec);
      if res.Some? {
        assert res.value in Entries();
        return res.value;
      }
      entry := new ProCacheEntry(outdateTtl, nowSec);
      var _ := store.Set(key, entry, expireTtl, nowSec);
      AddAsync(key, entry, answer, nowSec);
    }

    /** `TryEnterWaitQueue`. */
    method TryEnterWaitQueue(entry: ProCacheEntry<V>) returns (r: Option<Task<Option<V>>>)
      requires entry.Valid()
      modifies entry
      ensures entry.Valid()
      ensures (r, entry.State()) == EnterWaitQueue(old(entry.State()), maxQueueLength)
    {
      var admitted := true;
      if maxQueueLength != UNLIMITED_QUEUE_SIZE {
        admitted := entry.TryEnterQueue(maxQueueLength);
      }
      if admitted {
        return Some(GetValue(entry.State()));
      }
      r := None;
    }

    /**
     * The synchronous part of `UpdateAsync` on an entry this caller has
     * claimed: a value is published with a new deadline and the entry is
     * stored again with the expire ttl; a failure only undoes the claim and
     * is rethrown to this caller.
     */
    method UpdateAsync(key: K, entry: ProCacheEntry<V>, answer: Answer<V>, nowSec: uint32) returns (t: Task<Option<V>>)
      requires entry.Valid()
      modifies store, entry
      ensures entry.Valid()
      ensures t == AnswerTask(answer)
      ensures answer.Now? && answer.outcome.Ok? ==>
        && entry.State() == Publish(old(entry.State()), answer.outcome.value, Some(outdateTtl), nowSec)
        && store.entries == old(store.entries)[key := NewCacheEntry(entry, expireTtl, nowSec)]
      ensures answer == Now(Fail) ==> entry.State() == Unclaim(old(entry.State())) && store.entries == old(store.entries)
      ensures answer.Later? ==> entry.State() == old(entry.State()) && store.entries == old(store.entries)
    {
      match answer {
        case Now(Ok(v)) =>
          entry.ResetValue(v, Some(outdateTtl), nowSec);
          var _ := store.Set(key, entry, expireTtl, nowSec);
          t := Completed(Some(v));
        case Now(Fail) =>
          entry.Reset();
          t := Faulted;
        case Later =>
          t := Pending;
      }
    }

    /** The continuation of `UpdateAsync` once a producer that ran `Later` finishes. */
    method FinishUpdate(key: K, entry: ProCacheEntry<V>, outcome: Outcome<V>, nowSec: uint32) returns (t: Task<Option<V>>)
      requires entry.Valid()
      modifies store, entry
      ensures entry.Valid()
      ensures t == AnswerTask(Now(outcome))
      ensures outcome.Ok? ==>
        && entry.State() == Publish(old(entry.State()), outcome.value, Some(outdateTtl), nowSec)
        && store.entries == old(store.entries)[key := NewCacheEntry(entry, expireTtl, nowSec)]
      ensures outcome.Fail? ==> entry.State() == Unclaim(old(entry.State())) && store.entries == old(store.entries)
    {
      t := UpdateAsync(key, entry, Now(outcome), nowSec);
    }

    /**
     * The synchronous part of `AddAsync`: a value is published keeping the
     * creation deadline and completes the completion; a failure removes the
     * key and faults the completion, so the next read creates afresh.
     */
    method AddAsync(key: K, entry: ProCacheEntry<V>, answer: Answer<V>, nowSec: uint32)
      requires entry.Valid() && entry.task.Pending?
      modifies store, entry
      ensures entry.Valid()
      ensures answer.Now? && answer.outcome.Ok? ==>
        && entry.State() == Publish(old(entry.State()), answer.outcome.value, None, nowSec).(task := Completed(Some(answer.outcome.value)))
        && store.entries == old(store.entries)
      ensures answer == Now(Fail) ==>
        entry.State() == old(entry.State()).(task := Faulted) && store.entries == old(store.entries) - {key}
      ensures answer.Later? ==> entry.State() == old(entry.State()) && store.entries == old(store.entries)
    {
      match answer {
        case Now(Ok(v)) =>
          entry.ResetValue(v, None, nowSec);
          entry.SetResult(Some(v));
        case Now(Fail) =>
          store.Remove(key);
          entry.TrySetException();
        case Later =>
      }
    }

    /** The continuation of `AddAsync` once a producer that ran `Later` finishes. */
    method FinishAdd(key: K, entry: ProCacheEntry<V>, outcome: Outcome<V>, nowSec: uint32)
      requires entry.Valid() && entry.task.Pending?
      modifies store, entry
      ensures entry.Valid()
      ensures outcome.Ok? ==>
        && entry.State() == Publish(old(entry.State()), outcome.value, None, nowSec).(task := Completed(Some(outcome.value)))
        && store.entries == old(store.entries)
      ensures outcome.Fail? ==>
        entry.State() == old(entry.State()).(task := Faulted) && store.entries == old(store.entries) - {key}
    {
      match outcome {
        case Ok(v) =>
          entry.ResetValue(v, None, nowSec);
          entry.SetResult(Some(v));
        case Fail =>
          store.Remove(key);
          entry.SetException();
      }
    }
  }
}
