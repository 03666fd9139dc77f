/**
 * `SCache`, the single-key cache of the sliding generation. A read either
 * hits, and then claims the refresh through the entry's own `Outdated()`
 * or reads the entry, or misses and creates the entry under the key's
 * shard lock.
 */
module SCaches {
  import opened Common
  import opened ProCacheLocks
  import opened SlidingEntries
  import opened SlidingMemoryCache
  import opened SlidingSteps

  class SCache<K(==), V> {
    const store: MemoryCache<K, SlidingEntry<V>>
    const outdateTtl: TimeSpan
    const expireTtl: TimeSpan
    /** The code of the entries this cache creates. */
    const behaviour: Behaviour<V>

    /** The entries the store currently holds. */
    function Entries(): set<SlidingEntry<V>>
      reads this, store
    {
      set k | k in store.entries :: store.entries[k].value
    }

    /** An entry this cache created: it carries the cache's outdate ttl. */
    ghost predicate Owns(e: SlidingEntry<V>)
    {
      e.outdateTtl == outdateTtl && e.behaviour == behaviour
    }

    ghost predicate Valid()
      reads this, store
    {
      && TtlsConsistent(outdateTtl, expireTtl)
      && forall e :: e in Entries() ==> Owns(e)
    }

    /** The constructor, once the ttl check has passed. */
    constructor (expireTtl: TimeSpan, outdateTtl: TimeSpan, behaviour: Behaviour<V>, nowSec: uint32)
      requires TtlsConsistent(outdateTtl, expireTtl)
      ensures Valid() && fresh(store)
      ensures this.outdateTtl == outdateTtl && this.expireTtl == expireTtl && this.behaviour == behaviour
      ensures store.entries == map[]
    {
      this.outdateTtl := outdateTtl;
      this.expireTtl := expireTtl;
      this.behaviour := behaviour;
      store := new MemoryCache(DEFAULT_SCAN_FREQUENCY_SEC, nowSec);
    }

    /**
     * `new SCache(get, expire_ttl, outdate_ttl)`: an outdate ttl longer than
     * the expire ttl is rejected with an `ArgumentException`.
     */
    static method Create(expireTtl: TimeSpan, outdateTtl: TimeSpan, behaviour: Behaviour<V>, nowSec: uint32)
      returns (r: Option<SCache<K, V>>, error: Option<ConfigError>)
      ensures r.None? <==> outdateTtl > expireTtl
      ensures error.Some? <==> r.None?
      ensures r.Some? ==> fresh(r.value) && r.value.Valid() && r.value.store.entries == map[]
      ensures r.Some? ==> r.value.outdateTtl == outdateTtl && r.value.expireTtl == expireTtl
    {
      if outdateTtl > expireTtl {
        return None, Some(OutdateTtlExceedsExpireTtl);
      }
      var c := new SCache(expireTtl, outdateTtl, behaviour, nowSec);
      return Some(c), None;
    }

    /** `Get`, with the key's `GetHashCode()` as an input. */
    method Get(key: K, hashCode: int32, nowSec: uint32, answer: Answer<V>) returns (t: Task<V>)
      requires Valid()
      modifies store, Entries()
      ensures Valid()
      ensures GetPost(store, outdateTtl, expireTtl, behaviour, key, nowSec, answer, t)
    {
      var res := store.TryGet(key, nowSec);
      if res.None? {
        t := Add(key, hashCode, nowSec, answer);
        return;
      }
      var entry := res.value;
      assert entry in Entries();
      if outdateTtl > 0 {
        var claimed := entry.Outdated(nowSec);
        if claimed {
          t := UpdateAsync(key, entry, answer, nowSec);
          return;
        }
      }
      t := entry.Observe(nowSec).value;
    }

    /**
     * `Add`: under the shard lock of the key's hash the store is checked
     * again; only if the key is still missing is one entry created around a
     * fresh completion, stored with the expire ttl and handed to the
     * producer. The lock is found with the corrected index (the hash cast to
     * `uint`); locks have no effect on a sequential run.
     */
    method Add(key: K, hashCode: int32, nowSec: uint32, answer: Answer<V>) returns (t: Task<V>)
      requires Valid()
      modifies store
      ensures Valid()
      ensures var hit := Lookup(old(store.entries), key, nowSec);
        if hit.Some? then t == hit.value.Observe(nowSec).value && store.entries == old(store.entries)
        else
          && t == AnswerValue(answer)
          && if answer == Now(Fail) then store.entries == old(store.entries) - {key}
             else
               && key in store.entries
               && var e := store.entries[key].value;
               && fresh(e) && Owns(e)
               && e.State() == SlidingState(AnswerTask(answer), [])
               && store.entries == old(store.entries)[key := NewCacheEntry(e, expireTtl, nowSec)]
    {
      // The shard lock `Add` takes: with the corrected index it exists for every hash code.
      ghost var shard := LockIndexForHashCode(hashCode);
      assert shard < LOCK_COUNT;
      var res := store.TryGet(key, nowSec);
      if res.Some? {
        return res.value.Observe(nowSec).value;
      }
      var entry := new SlidingEntry(behaviour, Pending, outdateTtl);
      var _ := store.Set(key, entry, expireTtl, nowSec);
      t := AddAsync(key, entry, answer, nowSec);
    }

    /**
     * `UpdateAsync` on an entry this caller has claimed: a value is
     * published with the outdate ttl and the entry stored again with the
     * expire ttl; a failure only gives the claim back, keeps the key and is
     * rethrown to this caller.
     */
    method UpdateAsync(key: K, entry: SlidingEntry<V>, answer: Answer<V>, nowSec: uint32) returns (t: Task<V>)
      requires Valid() && Owns(entry)
      modifies store, entry
      ensures Valid()
      ensures t == AnswerValue(answer)
      ensures entry.State() == old(entry.State()).(calls := old(entry.calls) + RefreshCalls(answer, outdateTtl))
      ensures store.entries == if answer.Now? && answer.outcome.Ok?
                               then old(store.entries)[key := NewCacheEntry(entry, expireTtl, nowSec)]
                               else old(store.entries)
    {
      match answer {
        case Now(Ok(v)) =>
          entry.ResetValue(v, outdateTtl);
          var _ := store.Set(key, entry, expireTtl, nowSec);
          t := Completed(v);
        case Now(Fail) =>
          entry.Reset();
          t := Faulted;
        case Later =>
          t := Pending;
      }
    }

    /** The continuation of `UpdateAsync` once a producer that ran `Later` finishes. */
    method FinishUpdate(key: K, entry: SlidingEntry<V>, outcome: Outcome<V>, nowSec: uint32) returns (t: Task<V>)
      requires Valid() && Owns(entry)
      modifies store, entry
      ensures Valid()
      ensures t == AnswerValue(Now(outcome))
      ensures entry.State() == old(entry.State()).(calls := old(entry.calls) + RefreshCalls(Now(outcome), outdateTtl))
      ensures store.entries == if outcome.Ok?
                               then old(store.entries)[key := NewCacheEntry(entry, expireTtl, nowSec)]
                               else old(store.entries)
    {
      t := UpdateAsync(key, entry, Now(outcome), nowSec);
    }

    /**
     * `AddAsync`: a value completes the shared completion with
     * `(true, res)` and is returned; a failure removes the key, faults the
     * completion and is rethrown, so the next read creates afresh.
     */
    method AddAsync(key: K, entry: SlidingEntry<V>, answer: Answer<V>, nowSec: uint32) returns (t: Task<V>)
      requires Valid() && entry.task.Pending?
      modifies store, entry
      ensures Valid()
      ensures t == AnswerValue(answer)
      ensures entry.State() == old(entry.State()).(task := AnswerTask(answer))
      ensures store.entries == if answer == Now(Fail) then old(store.entries) - {key} else old(store.entries)
    {
      match answer {
        case Now(Ok(v)) =>
          entry.SetResult(Some(v));
          t := Completed(v);
        case Now(Fail) =>
          store.Remove(key);
          entry.SetException();
          t := Faulted;
        case Later =>
          t := Pending;
      }
    }

    /** The continuation of `AddAsync` once a producer that ran `Later` finishes. */
    method FinishAdd(key: K, entry: SlidingEntry<V>, outcome: Outcome<V>, nowSec: uint32) returns (t: Task<V>)
      requires Valid() && entry.task.Pending?
      modifies store, entry
      ensures Valid()
      ensures t == AnswerValue(Now(outcome))
      ensures entry.State() == old(entry.State()).(task := AnswerTask(Now(outcome)))
      ensures store.entries == if outcome.Fail? then old(store.entries) - {key} else old(store.entries)
    {
      t := AddAsync(key, entry, Now(outcome), nowSec);
    }
  }
}
