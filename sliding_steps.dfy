/**
 * What the two single-key caches of the sliding generation (`SCache` and
 * `SlidingCache`, whose code is the same) do to their store and entries on
 * one `Get`. The producer's answer is an input, as for the proactive cache.
 */
module SlidingSteps {
  import opened Common
  import opened SlidingEntries
  import opened SlidingMemoryCache

  /**
   * The ValueTask a caller awaiting the producer through the cache gets:
   * the producer's value, its rethrown exception, or still running.
   */
  function AnswerValue<V>(a: Answer<V>): (t: Task<V>)
    ensures t.Pending? <==> a.Later?
    ensures t.Faulted? <==> a == Now(Fail)
    ensures t.Completed? ==> a == Now(Ok(t.result))
  {
    match a
    case Later => Pending
    case Now(Fail) => Faulted
    case Now(Ok(v)) => Completed(v)
  }

  /** The creator and the readers sharing its completion see the same outcome. */
  lemma CreatorAndWaitersAgree<V>(a: Answer<V>)
    ensures AnswerValue(a).Completed? <==> AnswerTask(a).Completed?
    ensures AnswerValue(a).Completed? ==> AnswerTask(a).result == Some(AnswerValue(a).result)
    ensures AnswerValue(a).Faulted? <==> AnswerTask(a).Faulted?
  {
  }

  /**
   * The calls `UpdateAsync` makes on the entry it has claimed: the new value
   * with the outdate ttl, the claim given back on failure, nothing yet while
   * the producer runs.
   */
  function RefreshCalls<V>(a: Answer<V>, outdateTtl: TimeSpan): (cs: seq<EntryCall<V>>)
    ensures a.Later? <==> cs == []
    ensures a == Now(Fail) <==> cs == [ResetCall]
    ensures a.Now? && a.outcome.Ok? ==> cs == [ResetValueCall(a.outcome.value, outdateTtl)]
  {
    match a
    case Later => []
    case Now(Fail) => [ResetCall]
    case Now(Ok(v)) => [ResetValueCall(v, outdateTtl)]
  }

  /**
   * The effect of one `Get` at `nowSec` on a cache with this store, by the
   * path it takes: a hit whose refresh this caller claims, any other hit,
   * or a miss that creates the entry. No entry other than the one read or
   * created changes.
   */
  twostate predicate GetPost<K, V>(store: MemoryCache<K, SlidingEntry<V>>, outdateTtl: TimeSpan, expireTtl: TimeSpan,
                                   behaviour: Behaviour<V>, key: K, nowSec: uint32, answer: Answer<V>, new t: Task<V>)
    reads *
  {
    var hit := Lookup(old(store.entries), key, nowSec);
    && (forall k :: k in old(store.entries) && (hit.None? || old(store.entries)[k].value != hit.value) ==>
          unchanged(old(store.entries)[k].value))
    && if hit.Some? then
         var e := hit.value;
         if outdateTtl > 0 && old(e.Observe(nowSec)).claimable then
           && t == AnswerValue(answer)
           && e.State() == old(e.State()).(calls := old(e.calls) + [OutdatedCall(true)] + RefreshCalls(answer, outdateTtl))
           && store.entries == (if answer.Now? && answer.outcome.Ok?
                                then old(store.entries)[key := NewCacheEntry(e, expireTtl, nowSec)]
                                else old(store.entries))
         else
           && e.State() == (if outdateTtl > 0 then old(e.State()).(calls := old(e.calls) + [OutdatedCall(false)])
                            else old(e.State()))
           && t == e.Observe(nowSec).value
           && store.entries == old(store.entries)
       else
         && t == AnswerValue(answer)
         && if answer == Now(Fail) then
              store.entries == old(store.entries) - {key}
            else
              && key in store.entries
              && var e := store.entries[key].value;
              && fresh(e)
              && e.outdateTtl == outdateTtl && e.behaviour == behaviour
              && e.State() == SlidingState(AnswerTask(answer), [])
              && store.entries == old(store.entries)[key := NewCacheEntry(e, expireTtl, nowSec)]
  }
}
