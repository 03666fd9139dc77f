/**
 * The entry of the older cache generation (`SCacheEntry`,
 * `SlidingCacheEntry`). Its class is not part of this model; the caches
 * only use it through its constructor, `Outdated()`, the three `Reset`
 * overloads, `IsCompleted`, `GetValue()`, `GetCompletedValue()` and
 * `GetValueWithState()`.
 *
 * So the entry is modelled by what the caches can see: the creation task
 * it was built with (which the creator completes through its
 * `TaskCompletionSource`), the outdate ttl, and the history of the
 * state-changing calls the caches make on it. What the entry answers is a
 * fixed function, `Behaviour`, of that history, the task and the clock:
 * the unseen class's code.
 */
module SlidingEntries {
  import opened Common

  /** A state-changing call made on an entry, in the order made. */
  datatype EntryCall<V> =
    | OutdatedCall(claimed: bool)            // `Outdated()`, and what it answered
    | ResetValueCall(value: V, ttl: TimeSpan) // `Reset(value, ttl)`
    | ResetEmptyCall(ttl: TimeSpan)           // `Reset(ttl)`
    | ResetCall                               // `Reset()`

  /** What the entry would answer if asked now. */
  datatype Observation<V> = Observation(
    claimable: bool,                       // what `Outdated()` would answer
    isCompleted: bool,                     // `IsCompleted`
    value: Task<V>,                        // `GetValue()`
    completedValue: Outcome<Option<V>>,    // `GetCompletedValue()`: `(present, value)` or its exception
    valueWithState: Task<Option<V>>)       // `GetValueWithState().AsTask()`

  /** The unseen entry class's code: its answers given the creation task, ttl, history and clock. */
  type Behaviour<!V> = (Task<Option<V>>, TimeSpan, seq<EntryCall<V>>, uint32) -> Observation<V>

  /** Everything about an entry that can change. */
  datatype SlidingState<V> = SlidingState(task: Task<Option<V>>, calls: seq<EntryCall<V>>)

  class SlidingEntry<V> {
    const behaviour: Behaviour<V>
    const outdateTtl: TimeSpan
    /** The task of the creator's completion, `(present, value)` once done. */
    var task: Task<Option<V>>
    var calls: seq<EntryCall<V>>

    function State(): (s: SlidingState<V>)
      reads this
    {
      SlidingState(task, calls)
    }

    /** The entry's answers at `nowSec`. */
    function Observe(nowSec: uint32): Observation<V>
      reads this
    {
      behaviour(task, outdateTtl, calls, nowSec)
    }

    /** `new SlidingCacheEntry(completion.Task, outdate_ttl)`. */
    constructor (behaviour: Behaviour<V>, task: Task<Option<V>>, outdateTtl: TimeSpan)
      ensures this.behaviour == behaviour && this.outdateTtl == outdateTtl
      ensures State() == SlidingState(task, [])
    {
      this.behaviour := behaviour;
      this.outdateTtl := outdateTtl;
      this.task := task;
      calls := [];
    }

    /** `Outdated()`: the entry's own decision whether this caller claims the refresh. */
    method Outdated(nowSec: uint32) returns (claimed: bool)
      modifies this
      ensures claimed == old(Observe(nowSec)).claimable
      ensures State() == old(State()).(calls := old(calls) + [OutdatedCall(claimed)])
    {
      claimed := Observe(nowSec).claimable;
      calls := calls + [OutdatedCall(claimed)];
    }

    /** `Reset(value, ttl)`: publishes a refreshed value. */
    method ResetValue(value: V, ttl: TimeSpan)
      modifies this
      ensures State() == old(State()).(calls := old(calls) + [ResetValueCall(value, ttl)])
    {
      calls := calls + [ResetValueCall(value, ttl)];
    }

    /** `Reset(ttl)`: publishes "no value". */
    method ResetEmpty(ttl: TimeSpan)
      modifies this
      ensures State() == old(State()).(calls := old(calls) + [ResetEmptyCall(ttl)])
    {
      calls := calls + [ResetEmptyCall(ttl)];
    }

    /** `Reset()`: gives the claim back after a failed refresh. */
    method Reset()
      modifies this
      ensures State() == old(State()).(calls := old(calls) + [ResetCall])
    {
      calls := calls + [ResetCall];
    }

    /** The creator's `completion.SetResult`, which throws unless the task is still pending. */
    method SetResult(r: Option<V>)
      requires task.Pending?
      modifies this
      ensures State() == old(State()).(task := Completed(r))
    {
      task := Completed(r);
    }

    /** The creator's `completion.SetException`, which throws unless the task is still pending. */
    method SetException()
      requires task.Pending?
      modifies this
      ensures State() == old(State()).(task := Faulted)
    {
      task := Faulted;
    }
  }

  /** The state after a refresh that published `v`: one more `Reset(v, ttl)`, task untouched. */
  function Refreshed<V>(s: SlidingState<V>, v: V, ttl: TimeSpan): (r: SlidingState<V>)
    ensures r.task == s.task && |r.calls| == |s.calls| + 1
    ensures r.calls[..|s.calls|] == s.calls && r.calls[|s.calls|] == ResetValueCall(v, ttl)
  {
    s.(calls := s.calls + [ResetValueCall(v, ttl)])
  }
}
