/**
 * The batch cache of the sliding generation. Its `Get` has the shape of
 * the proactive batch cache's: every requested key is answered from a
 * completed entry (or, when stale and claimed through the entry's own
 * `Outdated()`, refreshed), awaited while in flight, or created; the
 * claimed and created keys go to one producer call whose pairs are
 * consumed against them, the keys it left out are marked empty, and if it
 * throws, creations are rolled back and claims given back.
 *
 * The entries are the sliding generation's (see `SlidingEntries`): a
 * creation's completion is the task the new entry was built with.
 */
module BatchSlidingCaches {
  import opened Common
  import opened SlidingEntries
  import opened SlidingMemoryCache
  import opened BatchSpec
  import opened SCacheInternal

  /**
   * The `Result` struct: the completion of an entry this call created
   * (`Add`), or an entry this call claimed for a refresh (`Outdate`).
   */
  datatype Work<V> = AddWork(entry: SlidingEntry<V>) | OutdateWork(entry: SlidingEntry<V>)

  /** What one pass of the classification loop does with a key. */
  datatype Step<V> = SyncStep(value: Option<V>) | WorkStep(work: Work<V>) | WaitStep(entry: SlidingEntry<V>) | FaultStep

  /**
   * The route `Get` gives a key, from the entry the store holds for it and
   * that entry's state (`None` for a miss). The entry's own code decides:
   * an entry in flight is awaited; a completed one whose `Outdated()` hands
   * this call the refresh goes to the producer; any other completed entry
   * is answered with `GetCompletedValue()`, read after the `Outdated()`
   * call. `None` is the exception of that read.
   */
  function RouteFor<V>(hit: Option<(SlidingEntry<V>, SlidingState<V>)>, slidingUpdate: bool, nowSec: uint32): Option<Route<V>>
  {
    match hit
    case None => Some(Produce)
    case Some((e, s)) =>
      var o := e.behaviour(s.task, e.outdateTtl, s.calls, nowSec);
      if !o.isCompleted then Some(Wait)
      else if slidingUpdate && o.claimable then Some(Produce)
      else
        var calls := if slidingUpdate then s.calls + [OutdatedCall(false)] else s.calls;
        match e.behaviour(s.task, e.outdateTtl, calls, nowSec).completedValue
        case Ok(v) => Some(Sync(v))
        case Fail => None
  }

  /**
   * What classification does to the state of an entry it finds: with
   * sliding update on, a completed entry is asked `Outdated()` and the call
   * is logged with its answer; any other entry is left as it was.
   */
  function NextState<V>(e: SlidingEntry<V>, s: SlidingState<V>, slidingUpdate: bool, nowSec: uint32): SlidingState<V>
  {
    var o := e.behaviour(s.task, e.outdateTtl, s.calls, nowSec);
    if o.isCompleted && slidingUpdate then s.(calls := s.calls + [OutdatedCall(o.claimable)]) else s
  }

  /** An entry found in the store goes to the producer exactly when its log ends with a claiming `Outdated()`. */
  lemma ClaimLogged<V>(e: SlidingEntry<V>, s: SlidingState<V>, slidingUpdate: bool, nowSec: uint32)
    ensures RouteFor(Some((e, s)), slidingUpdate, nowSec) == Some(Produce) <==>
      NextState(e, s, slidingUpdate, nowSec).calls == s.calls + [OutdatedCall(true)]
  {
    var calls := NextState(e, s, slidingUpdate, nowSec).calls;
    if calls == s.calls + [OutdatedCall(true)] {
      assert calls[|s.calls|] == OutdatedCall(true);
    }
  }

  /** `RouteFor` of each of `hits`, in order. */
  function RoutesFor<V>(hits: seq<Option<(SlidingEntry<V>, SlidingState<V>)>>, slidingUpdate: bool, nowSec: uint32): (r: seq<Option<Route<V>>>)
    ensures |r| == |hits| && forall j :: 0 <= j < |hits| ==> r[j] == RouteFor(hits[j], slidingUpdate, nowSec)
  {
    if hits == [] then [] else RoutesFor(hits[..|hits| - 1], slidingUpdate, nowSec) + [RouteFor(hits[|hits| - 1], slidingUpdate, nowSec)]
  }

  /** The entries of the works of `keys`. */
  function WorkEntriesOf<K, V>(works: map<K, Work<V>>, keys: set<K>): set<SlidingEntry<V>>
  {
    set k | k in keys && k in works :: works[k].entry
  }

  /** The state of every work's entry, as a snapshot. */
  ghost function StatesOf<K, V>(works: map<K, Work<V>>): (r: map<K, SlidingState<V>>)
    reads WorkEntriesOf(works, works.Keys)
    ensures r.Keys == works.Keys
  {
    map k | k in works :: works[k].entry.State()
  }

  /** No two keys of the producer map share an entry. */
  ghost predicate DistinctWorks<K, V>(works: map<K, Work<V>>)
  {
    forall k1, k2 :: k1 in works && k2 in works && k1 != k2 ==> works[k1].entry != works[k2].entry
  }

  /** The creation keys among `keys`. */
  function AddKeys<K, V>(works: map<K, Work<V>>, keys: set<K>): set<K>
  {
    set k | k in keys && k in works && works[k].AddWork?
  }

  /** The tasks of the wait list: `GetValueWithState().AsTask()` of each entry, read at `nowSec`. */
  function TasksOf<K, V>(waits: seq<(K, SlidingEntry<V>)>, nowSec: uint32): (r: seq<(K, Task<Option<V>>)>)
    reads set i | 0 <= i < |waits| :: waits[i].1
    ensures |r| == |waits|
    ensures forall i :: 0 <= i < |waits| ==> r[i] == (waits[i].0, waits[i].1.Observe(nowSec).valueWithState)
  {
    seq(|waits|, i requires 0 <= i < |waits| reads set j | 0 <= j < |waits| :: waits[j].1 =>
      (waits[i].0, waits[i].1.Observe(nowSec).valueWithState))
  }

  /**
   * The entry after `Result.Success(v)`: a creation's completion ends with
   * `(true, v)` and nothing is called on the entry; a refresh publishes `v`
   * with the outdate ttl and leaves the task alone.
   */
  function SuccessState<V>(w: Work<V>, s: SlidingState<V>, v: V, outdateTtl: TimeSpan): (r: SlidingState<V>)
    ensures w.AddWork? ==> r.task == Completed(Some(v)) && r.calls == s.calls
    ensures w.OutdateWork? ==> r.task == s.task && r == Refreshed(s, v, outdateTtl)
  {
    match w
    case AddWork(_) => s.(task := Completed(Some(v)))
    case OutdateWork(_) => Refreshed(s, v, outdateTtl)
  }

  /**
   * The entry after `Result.Empty`: a creation's completion ends with
   * `(false, default)`; a refresh publishes "no value" with the outdate ttl.
   */
  function EmptyState<V>(w: Work<V>, s: SlidingState<V>, outdateTtl: TimeSpan): (r: SlidingState<V>)
    ensures w.AddWork? ==> r.task == Completed(None) && r.calls == s.calls
    ensures w.OutdateWork? ==> r.task == s.task && r.calls == s.calls + [ResetEmptyCall(outdateTtl)]
  {
    match w
    case AddWork(_) => s.(task := Completed(None))
    case OutdateWork(_) => s.(calls := s.calls + [ResetEmptyCall(outdateTtl)])
  }

  /**
   * The entry after `Result.Error`: a creation's completion faults; a
   * refresh only gives its claim back, and its task (what readers see) is
   * untouched.
   */
  function ErrorState<V>(w: Work<V>, s: SlidingState<V>): (r: SlidingState<V>)
    ensures w.AddWork? ==> r.task == Faulted && r.calls == s.calls
    ensures w.OutdateWork? ==> r.task == s.task && r.calls == s.calls + [ResetCall]
  {
    match w
    case AddWork(_) => s.(task := Faulted)
    case OutdateWork(_) => s.(calls := s.calls + [ResetCall])
  }

  /**
   * `Result.Success`: the answer says whether the caller must store the
   * refreshed entry again.
   */
  method Success<V>(w: Work<V>, v: V, outdateTtl: TimeSpan) returns (restore: bool)
    requires w.AddWork? ==> w.entry.task.Pending?
    modifies w.entry
    ensures restore == w.OutdateWork?
    ensures w.entry.State() == SuccessState(w, old(w.entry.State()), v, outdateTtl)
  {
    match w {
      case AddWork(e) =>
        e.SetResult(Some(v));
        restore := false;
      case OutdateWork(e) =>
        e.ResetValue(v, outdateTtl);
        restore := true;
    }
  }

  /**
   * `Result.Empty`: the answer says whether the caller must store the
   * refreshed entry again.
   */
  method Empty<V>(w: Work<V>, outdateTtl: TimeSpan) returns (restore: bool)
    requires w.AddWork? ==> w.entry.task.Pending?
    modifies w.entry
    ensures restore == w.OutdateWork?
    ensures w.entry.State() == EmptyState(w, old(w.entry.State()), outdateTtl)
  {
    match w {
      case AddWork(e) =>
        e.SetResult(None);
        restore := false;
      case OutdateWork(e) =>
        e.ResetEmpty(outdateTtl);
        restore := true;
    }
  }

  /**
   * `Result.Error`: the answer says whether the caller must remove the
   * created entry from the store.
   */
  method Error<V>(w: Work<V>) returns (remove: bool)
    requires w.AddWork? ==> w.entry.task.Pending?
    modifies w.entry
    ensures remove == w.AddWork?
    ensures w.entry.State() == ErrorState(w, old(w.entry.State()))
  {
    match w {
      case AddWork(e) =>
        e.SetException();
        remove := true;
      case OutdateWork(e) =>
        e.Reset();
        remove := false;
    }
  }

  /**
   * The store after the refreshed entries of `done` are stored again under
   * their keys with the expire ttl.
   */
  function Restamped<K, V>(m: map<K, CacheEntry<SlidingEntry<V>>>, works: map<K, Work<V>>, done: set<K>,
                           expireTtl: TimeSpan, nowSec: uint32): (r: map<K, CacheEntry<SlidingEntry<V>>>)
    ensures r.Keys == m.Keys
    ensures forall k :: k in m ==> r[k].value == m[k].value
  {
    map k | k in m :: if k in done && k in works && works[k].OutdateWork? then NewCacheEntry(m[k].value, expireTtl, nowSec) else m[k]
  }

  /** Every stored entry is one of `known`. */
  ghost predicate StoredIn<K, V>(m: map<K, CacheEntry<SlidingEntry<V>>>, known: set<SlidingEntry<V>>)
  {
    forall k :: k in m ==> m[k].value in known
  }

  /** No entry is stored under two keys. */
  ghost predicate Injective<K, V>(m: map<K, CacheEntry<SlidingEntry<V>>>)
  {
    forall k1, k2 :: k1 in m && k2 in m && k1 != k2 ==> m[k1].value != m[k2].value
  }

  /** Storing a key's entry again, with any expiry, keeps both properties. */
  lemma RestoreKeepsStore<K, V>(m: map<K, CacheEntry<SlidingEntry<V>>>, known: set<SlidingEntry<V>>, k: K, c: CacheEntry<SlidingEntry<V>>)
    requires k in m && c.value == m[k].value
    ensures StoredIn(m[k := c], known) == StoredIn(m, known)
    ensures Injective(m[k := c]) == Injective(m)
  {
    assert forall k1 :: k1 in m ==> m[k := c][k1].value == m[k1].value;
  }

  /** Removing a key keeps both properties. */
  lemma RemoveKeepsStore<K, V>(m: map<K, CacheEntry<SlidingEntry<V>>>, known: set<SlidingEntry<V>>, k: K)
    requires StoredIn(m, known) && Injective(m)
    ensures StoredIn(m - {k}, known) && Injective(m - {k})
  {
  }

  /** Stamping one more key: a refreshed key's pair is stored again, any other is kept. */
  lemma RestampedStep<K, V>(m: map<K, CacheEntry<SlidingEntry<V>>>, works: map<K, Work<V>>, done: set<K>, k: K,
                            expireTtl: TimeSpan, nowSec: uint32)
    requires k in m && k in works && k !in done
    ensures Restamped(m, works, done + {k}, expireTtl, nowSec) ==
      var r := Restamped(m, works, done, expireTtl, nowSec);
      if works[k].OutdateWork? then r[k := NewCacheEntry(m[k].value, expireTtl, nowSec)] else r
  {
  }

  class BatchSlidingCache<K(==,!new), V> {
    const store: MemoryCache<K, SlidingEntry<V>>
    const outdateTtl: TimeSpan
    const expireTtl: TimeSpan
    /** `_withSlidingUpdate`: stale entries are refreshed only for a positive outdate ttl. */
    const withSlidingUpdate: bool
    /** The code of the entries this cache creates. */
    const behaviour: Behaviour<V>
    /** Every entry this cache has created; the store holds some of them. */
    ghost var Repr: set<SlidingEntry<V>>

    /** No entry is stored under two keys. */
    ghost predicate Valid()
      reads this, store
    {
      && TtlsConsistent(outdateTtl, expireTtl)
      && withSlidingUpdate == (outdateTtl > 0)
      && StoredIn(store.entries, Repr)
      && Injective(store.entries)
    }

    /**
     * The producer map for the keys of `keys`: each work holds the entry the
     * store has under its key, and a creation's completion is still pending.
     */
    ghost predicate WorksReady(works: map<K, Work<V>>, keys: set<K>)
      reads this, store, WorkEntriesOf(works, keys)
    {
      forall k :: k in keys && k in works ==>
        && k in store.entries && store.entries[k].value == works[k].entry
        && (works[k].AddWork? ==> works[k].entry.task.Pending?)
    }

    /** The entry the store holds unexpired under `key`, with its state, if any. */
    ghost function HitState(key: K, nowSec: uint32): Option<(SlidingEntry<V>, SlidingState<V>)>
      requires Valid()
      reads this, store, Repr
    {
      var hit := Lookup(store.entries, key, nowSec);
      if hit.Some? then Some((hit.value, hit.value.State())) else None
    }

    /** `HitState` of each of `keys`, in order. */
    ghost function HitStates(keys: seq<K>, nowSec: uint32): (r: seq<Option<(SlidingEntry<V>, SlidingState<V>)>>)
      requires Valid()
      reads this, store, Repr
      ensures |r| == |keys| && forall j :: 0 <= j < |keys| ==> r[j] == HitState(keys[j], nowSec)
    {
      if keys == [] then [] else HitStates(keys[..|keys| - 1], nowSec) + [HitState(keys[|keys| - 1], nowSec)]
    }

    /** The route the store foresees for `key`. */
    ghost function Planned(key: K, nowSec: uint32): Option<Route<V>>
      requires Valid()
      reads this, store, Repr
    {
      RouteFor(HitState(key, nowSec), withSlidingUpdate, nowSec)
    }

    /** Adding a work that holds the entry stored under its key keeps the map ready. */
    lemma WorksReadyAdd(works: map<K, Work<V>>, key: K, w: Work<V>)
      requires WorksReady(works, works.Keys) && key !in works
      requires key in store.entries && store.entries[key].value == w.entry
      requires w.AddWork? ==> w.entry.task.Pending?
      ensures WorksReady(works[key := w], works.Keys + {key})
    {
    }

    /** Works that hold the entries stored under their keys hold distinct entries. */
    lemma ReadyWorksAreDistinct(works: map<K, Work<V>>)
      requires Valid() && WorksReady(works, works.Keys)
      ensures DistinctWorks(works)
      ensures WorkEntriesOf(works, works.Keys) <= Repr
    {
    }

    /** The constructor, once the ttl check has passed. */
    constructor (expireTtl: TimeSpan, outdateTtl: TimeSpan, behaviour: Behaviour<V>, nowSec: uint32)
      requires TtlsConsistent(outdateTtl, expireTtl)
      ensures Valid() && fresh(store)
      ensures this.outdateTtl == outdateTtl && this.expireTtl == expireTtl && this.behaviour == behaviour
      ensures withSlidingUpdate <==> outdateTtl > 0
      ensures store.entries == map[]
    {
      this.outdateTtl := outdateTtl;
      this.expireTtl := expireTtl;
      this.behaviour := behaviour;
      withSlidingUpdate := outdateTtl > 0;
      store := new MemoryCache(DEFAULT_SCAN_FREQUENCY_SEC, nowSec);
      Repr := {};
    }

    /**
     * `new BatchSlidingCache(get, expire_ttl, outdate_ttl)`: an outdate ttl
     * longer than the expire ttl is rejected with an `ArgumentException`.
     */
    static method Create(expireTtl: TimeSpan, outdateTtl: TimeSpan, behaviour: Behaviour<V>, nowSec: uint32)
      returns (r: Option<BatchSlidingCache<K, V>>, error: Option<ConfigError>)
      ensures r.None? <==> outdateTtl > expireTtl
      ensures error.Some? <==> r.None?
      ensures r.Some? ==> fresh(r.value) && r.value.Valid() && r.value.store.entries == map[]
      ensures r.Some? ==> r.value.outdateTtl == outdateTtl && r.value.expireTtl == expireTtl
      ensures r.Some? ==> (r.value.withSlidingUpdate <==> outdateTtl > 0)
    {
      if outdateTtl > expireTtl {
        return None, Some(OutdateTtlExceedsExpireTtl);
      }
      var c := new BatchSlidingCache(expireTtl, outdateTtl, behaviour, nowSec);
      return Some(c), None;
    }

    // -------------------------------------------------------------------
    // Classification.

    /**
     * `Add`: re-checks the store under the key's shard lock; only if the key
     * is still missing is one entry created around a fresh completion and
     * stored with the expire ttl.
     */
    method Add(key: K, nowSec: uint32) returns (created: bool, entry: SlidingEntry<V>)
      requires Valid()
      modifies this, store
      ensures Valid()
      ensures var hit := Lookup(old(store.entries), key, nowSec);
        && created == hit.None?
        && (!created ==> entry == hit.value && store.entries == old(store.entries) && Repr == old(Repr))
        && (created ==>
              && fresh(entry) && entry.State() == SlidingState(Pending, [])
              && entry.behaviour == behaviour && entry.outdateTtl == outdateTtl
              && store.entries == old(store.entries)[key := NewCacheEntry(entry, expireTtl, nowSec)]
              && Repr == old(Repr) + {entry})
    {
      var res := store.TryGet(key, nowSec);
      if res.Some? {
        return false, res.value;
      }
      entry := new SlidingEntry(behaviour, Pending, outdateTtl);
      var _ := store.Set(key, entry, expireTtl, nowSec);
      Repr := Repr + {entry};
      created := true;
    }

    /** A completed entry is answered with `GetCompletedValue()`; one in flight is awaited. */
    method SyncOrWait(entry: SlidingEntry<V>, nowSec: uint32) returns (step: Step<V>)
      ensures var o := entry.Observe(nowSec);
        step == if !o.isCompleted then WaitStep(entry)
                else match o.completedValue case Ok(v) => SyncStep(v) case Fail => FaultStep
    {
      var o := entry.Observe(nowSec);
      if !o.isCompleted {
        return WaitStep(entry);
      }
      match o.completedValue {
        case Ok(v) => step := SyncStep(v);
        case Fail => step := FaultStep;
      }
    }

    /** One pass of the classification loop of `Get`. */
    method RouteKey(key: K, nowSec: uint32) returns (step: Step<V>)
      requires Valid()
      modifies this, store, Repr
      ensures Valid()
      ensures Repr == old(Repr) || (step.WorkStep? && step.work.AddWork? && fresh(step.work.entry) && Repr == old(Repr) + {step.work.entry})
      ensures forall e :: e in old(Repr) ==> e.task == old(e.task)
      ensures store.entries == old(store.entries) ||
        (step.WorkStep? && step.work.AddWork? && store.entries == old(store.entries)[key := NewCacheEntry(step.work.entry, expireTtl, nowSec)])
      ensures step.WorkStep? ==> key in store.entries && store.entries[key].value == step.work.entry
      ensures step.WorkStep? && step.work.AddWork? ==> step.work.entry.task.Pending?
      ensures var hit := Lookup(old(store.entries), key, nowSec);
        if hit.Some? then
          var e := hit.value;
          var o := old(e.Observe(nowSec));
          && store.entries == old(store.entries)
          && (forall e' :: e' in old(Repr) && e' != e ==> unchanged(e'))
          && if o.isCompleted && withSlidingUpdate && o.claimable then
               step == WorkStep(OutdateWork(e)) && e.State() == old(e.State()).(calls := old(e.calls) + [OutdatedCall(true)])
             else
               && e.State() == (if o.isCompleted && withSlidingUpdate
                                then old(e.State()).(calls := old(e.calls) + [OutdatedCall(false)])
                                else old(e.State()))
               && step == if !o.isCompleted then WaitStep(e)
                          else match e.Observe(nowSec).completedValue case Ok(v) => SyncStep(v) case Fail => FaultStep
        else
          && step.WorkStep? && step.work.AddWork? && fresh(step.work.entry)
          && step.work.entry.State() == SlidingState(Pending, [])
          && step.work.entry.behaviour == behaviour && step.work.entry.outdateTtl == outdateTtl
          && store.entries == old(store.entries)[key := NewCacheEntry(step.work.entry, expireTtl, nowSec)]
          && (forall e :: e in old(Repr) ==> unchanged(e))
    {
      var res := store.TryGet(key, nowSec);
      if res.Some? {
        var entry := res.value;
        if entry.Observe(nowSec).isCompleted {
          if withSlidingUpdate {
            var claimed := entry.Outdated(nowSec);
            if claimed {
              return WorkStep(OutdateWork(entry));
            }
          }
          match entry.Observe(nowSec).completedValue {
            case Ok(v) => step := SyncStep(v);
            case Fail => step := FaultStep;
          }
        } else {
          step := WaitStep(entry);
        }
      } else {
        var created, entry := Add(key, nowSec);
        if created {
          step := WorkStep(AddWork(entry));
        } else {
          step := SyncOrWait(entry, nowSec);
        }
      }
    }

    /**
     * One pass of the classification loop of `Get`, up to the append to the
     * result list: the key's route, and the producer map and wait list with
     * the key added where it belongs; a faulted entry or a key already in the
     * producer map stops the loop.
     */
    method ClassifyKey(key: K, nowSec: uint32, asyncKeys: seq<K>,
                       works: map<K, Work<V>>, waits: seq<(K, SlidingEntry<V>)>)
      returns (asyncKeys': seq<K>, works': map<K, Work<V>>, waits': seq<(K, SlidingEntry<V>)>,
               fault: Option<BatchFault>, route: Route<V>)
      requires Valid()
      requires works.Keys == Elems(asyncKeys) && WorksReady(works, works.Keys)
      modifies this, store, Repr
      ensures Valid()
      ensures old(Repr) <= Repr && fresh(Repr - old(Repr))
      ensures fault in {None, Some(DuplicateKey), Some(EntryFaulted)}
      ensures fault.None? ==>
        && Firsts(waits') == Firsts(waits) + (if route.Wait? then [key] else [])
        && asyncKeys' == asyncKeys + (if route.Produce? then [key] else [])
        && works'.Keys == Elems(asyncKeys')
        && WorksReady(works', works'.Keys)
      ensures fault.None? ==> Some(route) == old(Planned(key, nowSec))
      ensures fault == Some(EntryFaulted) <==> old(Planned(key, nowSec)).None?
      ensures fault == Some(DuplicateKey) ==> key in works && old(Planned(key, nowSec)) == Some(Produce)
      ensures forall k :: k != key ==> HitState(k, nowSec) == old(HitState(k, nowSec))
      ensures old(HitState(key, nowSec)).Some? ==>
        var (e, s) := old(HitState(key, nowSec)).value;
        && store.entries == old(store.entries)
        && HitState(key, nowSec) == Some((e, NextState(e, s, withSlidingUpdate, nowSec)))
      ensures old(HitState(key, nowSec)).None? ==>
        && key in store.entries && fresh(store.entries[key].value)
        && store.entries == old(store.entries)[key := NewCacheEntry(store.entries[key].value, expireTtl, nowSec)]
        && store.entries[key].value.State() == SlidingState(Pending, [])
        && store.entries[key].value.behaviour == behaviour && store.entries[key].value.outdateTtl == outdateTtl
      ensures fault.None? && route.Produce? ==> key in works' && works'[key].entry == store.entries[key].value
    {
      asyncKeys', works', waits', fault := asyncKeys, works, waits, None;
      var step := RouteKey(key, nowSec);
      forall k | k != key
        ensures HitState(k, nowSec) == old(HitState(k, nowSec))
      {
        if k in old(store.entries) {
          assert old(store.entries)[k].value in old(Repr);
        }
      }
      ghost var kept := if step.WorkStep? && step.work.AddWork? then works.Keys - {key} else works.Keys;
      assert WorksReady(works, kept) by {
        forall k | k in kept && k in works
          ensures k in store.entries && store.entries[k].value == works[k].entry
          ensures works[k].AddWork? ==> works[k].entry.task.Pending?
        {
          assert works[k].entry in old(Repr);
        }
      }
      match step {
        case FaultStep =>
          fault, route := Some(EntryFaulted), Wait;
        case SyncStep(v) =>
          route := Sync(v);
        case WaitStep(e) =>
          waits' := waits + [(key, e)];
          route := Wait;
        case WorkStep(w) =>
          var added := AsyncListAdd(works, key, w);
          route := Produce;
          if added.None? {
            fault := Some(DuplicateKey);
            return;
          }
          WorksReadyAdd(works, key, w);
          works' := added.value;
          asyncKeys' := asyncKeys + [key];
      }
    }

    /**
     * Where the classification loop stands after the first `i` keys: the
     * lists record their routes, and each of those keys met for the first
     * time took the route `plans` foresaw from the entries and states
     * `hits` the call began with. The keys not yet met keep those states.
     */
    ghost predicate Classified(keys: seq<K>, i: nat, nowSec: uint32, hits: seq<Option<(SlidingEntry<V>, SlidingState<V>)>>,
                               plans: seq<Option<Route<V>>>, routes: seq<Route<V>>, syncRes: seq<(K, V)>, asyncKeys: seq<K>,
                               works: map<K, Work<V>>, waits: seq<(K, SlidingEntry<V>)>)
      reads this, store, Repr, WorkEntriesOf(works, works.Keys)
    {
      && i <= |keys| && |hits| == |keys| && |plans| == |keys| && |routes| == i
      && Valid()
      && (forall j :: 0 <= j < |keys| ==> plans[j] == RouteFor(hits[j], withSlidingUpdate, nowSec))
      && Recorded(keys[..i], routes, syncRes, Firsts(waits), asyncKeys)
      && works.Keys == Elems(asyncKeys)
      && WorksReady(works, works.Keys)
      && (forall j :: 0 <= j < |keys| && keys[j] !in keys[..i] ==> HitState(keys[j], nowSec) == hits[j])
      && FirstsAsPlanned(keys, routes, plans)
    }

    /** One pass of the classification loop of `Get`, on the `i`-th key. */
    method ClassifyNext(keys: seq<K>, i: nat, nowSec: uint32, ghost hits: seq<Option<(SlidingEntry<V>, SlidingState<V>)>>,
                        ghost plans: seq<Option<Route<V>>>, routes: seq<Route<V>>, syncRes: seq<(K, V)>, asyncKeys: seq<K>,
                        works: map<K, Work<V>>, waits: seq<(K, SlidingEntry<V>)>)
      returns (routes': seq<Route<V>>, syncRes': seq<(K, V)>, asyncKeys': seq<K>, works': map<K, Work<V>>,
               waits': seq<(K, SlidingEntry<V>)>, fault: Option<BatchFault>)
      requires i < |keys| && Classified(keys, i, nowSec, hits, plans, routes, syncRes, asyncKeys, works, waits)
      modifies this, store, Repr
      ensures Valid()
      ensures old(Repr) <= Repr && fresh(Repr - old(Repr))
      ensures fault in {None, Some(DuplicateKey), Some(EntryFaulted)}
      ensures fault.None? ==> Classified(keys, i + 1, nowSec, hits, plans, routes', syncRes', asyncKeys', works', waits')
      ensures fault.Some? && keys[i] !in keys[..i] ==> fault == Some(EntryFaulted) && plans[i].None?
      ensures forall k :: k != keys[i] ==> HitState(k, nowSec) == old(HitState(k, nowSec))
      ensures old(HitState(keys[i], nowSec)).Some? ==>
        var (e, s) := old(HitState(keys[i], nowSec)).value;
        HitState(keys[i], nowSec) == Some((e, NextState(e, s, withSlidingUpdate, nowSec)))
      ensures old(HitState(keys[i], nowSec)).None? ==>
        && keys[i] in store.entries && fresh(store.entries[keys[i]].value)
        && store.entries[keys[i]].value.State() == SlidingState(Pending, [])
        && store.entries[keys[i]].value.behaviour == behaviour && store.entries[keys[i]].value.outdateTtl == outdateTtl
    {
      var key := keys[i];
      assert keys[..i + 1] == keys[..i] + [key];
      ghost var first := key !in keys[..i];
      assert first ==> Planned(key, nowSec) == plans[i];
      var route;
      asyncKeys', works', waits', fault, route := ClassifyKey(key, nowSec, asyncKeys, works, waits);
      syncRes', routes' := syncRes, routes;
      if fault.Some? {
        return;
      }
      if route.Sync? {
        syncRes' := TryAddValue(syncRes, key, route.value);
      }
      RecordedStep(keys[..i], routes, syncRes, Firsts(waits), asyncKeys, key, route);
      routes' := routes + [route];
      forall j | 0 <= j < |keys| && keys[j] !in keys[..i + 1]
        ensures HitState(keys[j], nowSec) == hits[j]
      {
        assert HitState(keys[j], nowSec) == old(HitState(keys[j], nowSec));
      }
      FirstsAsPlannedStep(keys, routes, plans, route);
    }

    /**
     * The classification loop of `Get`: each key takes one route, recorded
     * in `routes`; the loop stops at the first key that throws. A key met
     * for the first time takes the route its entry foresaw when the call
     * began.
     */
    method Classify(keys: seq<K>, nowSec: uint32)
      returns (syncRes: seq<(K, V)>, asyncKeys: seq<K>, works: map<K, Work<V>>,
               waits: seq<(K, SlidingEntry<V>)>, fault: Option<BatchFault>, routes: seq<Route<V>>,
               ghost plans: seq<Option<Route<V>>>)
      requires Valid()
      modifies this, store, Repr
      ensures Valid()
      ensures old(Repr) <= Repr && fresh(Repr - old(Repr))
      ensures |routes| <= |keys| && (fault.None? <==> |routes| == |keys|)
      ensures fault in {None, Some(DuplicateKey), Some(EntryFaulted)}
      ensures Recorded(keys[..|routes|], routes, syncRes, Firsts(waits), asyncKeys)
      ensures fault.None? ==> works.Keys == Elems(asyncKeys)
      ensures fault.None? ==> WorksReady(works, works.Keys)
      ensures |plans| == |keys| && forall j :: 0 <= j < |keys| ==> plans[j] == old(Planned(keys[j], nowSec))
      ensures FirstsAsPlanned(keys, routes, plans)
      ensures |routes| < |keys| && keys[|routes|] !in keys[..|routes|] ==>
        fault == Some(EntryFaulted) && plans[|routes|].None?
    {
      syncRes, asyncKeys, works, waits, fault, routes := [], [], map[], [], None, [];
      ghost var hits := HitStates(keys, nowSec);
      plans := RoutesFor(hits, withSlidingUpdate, nowSec);
      assert forall j :: 0 <= j < |keys| ==> plans[j] == old(Planned(keys[j], nowSec));
      var i := 0;
      while i < |keys|
        invariant 0 <= i <= |keys|
        invariant Classified(keys, i, nowSec, hits, plans, routes, syncRes, asyncKeys, works, waits)
        invariant old(Repr) <= Repr && fresh(Repr - old(Repr))
        invariant fault.None?
        invariant |routes| == i
      {
        var routes', syncRes', asyncKeys', works', waits', fault' :=
          ClassifyNext(keys, i, nowSec, hits, plans, routes, syncRes, asyncKeys, works, waits);
        if fault'.Some? {
          fault := fault';
          break;
        }
        routes, syncRes, asyncKeys, works, waits := routes', syncRes', asyncKeys', works', waits';
        i := i + 1;
      }
      assert fault.None? ==> keys[..i] == keys;
    }

    // -------------------------------------------------------------------
    // Reconciliation.

    /**
     * Where the first loop of `GetAsync` stands: the pairs of `used` have
     * completed their keys' works and, when refreshed, stored them again;
     * the keys still in `left` are untouched. `before` and `m0` are the
     * entries and the store as the loop found them.
     */
    ghost predicate Progress(works: map<K, Work<V>>, before: map<K, SlidingState<V>>, m0: map<K, CacheEntry<SlidingEntry<V>>>,
                             left: map<K, Work<V>>, used: seq<(K, V)>, nowSec: uint32)
      reads this, store, WorkEntriesOf(works, works.Keys)
    {
      && Valid()
      && DistinctWorks(works)
      && (forall k :: k in works ==> k in before && k in m0 && m0[k].value == works[k].entry)
      && (forall k :: k in left ==> k in works && left[k] == works[k] && works[k].entry.State() == before[k])
      && (forall k :: k in left && works[k].AddWork? ==> before[k].task.Pending?)
      && (forall i :: 0 <= i < |used| ==> var (k, v) := used[i];
            k in works && k !in left && works[k].entry.State() == SuccessState(works[k], before[k], v, outdateTtl))
      && store.entries == Restamped(m0, works, works.Keys - left.Keys, expireTtl, nowSec)
    }

    /**
     * The first loop of `GetAsync` on a pair whose key is still in the
     * producer map: the key's work is completed with the pair's value and
     * the key is removed from the map.
     */
    method ConsumePair(works: map<K, Work<V>>, ghost before: map<K, SlidingState<V>>, ghost m0: map<K, CacheEntry<SlidingEntry<V>>>,
                       left: map<K, Work<V>>, ghost used: seq<(K, V)>, key: K, v: V, nowSec: uint32)
      returns (left': map<K, Work<V>>)
      requires Progress(works, before, m0, left, used, nowSec) && key in left
      modifies store, left[key].entry
      ensures left' == left - {key}
      ensures Progress(works, before, m0, left', used + [(key, v)], nowSec)
    {
      var w := left[key];
      RestampedStep(m0, works, works.Keys - left.Keys, key, expireTtl, nowSec);
      assert works.Keys - (left - {key}).Keys == (works.Keys - left.Keys) + {key};
      var restore := Success(w, v, outdateTtl);
      if restore {
        RestoreKeepsStore(store.entries, Repr, key, NewCacheEntry(w.entry, expireTtl, nowSec));
        var _ := store.Set(key, w.entry, expireTtl, nowSec);
      }
      left' := left - {key};
    }

    /** The end of the first loop, read back in the terms of its pre-state. */
    lemma ProgressReady(works: map<K, Work<V>>, before: map<K, SlidingState<V>>, m0: map<K, CacheEntry<SlidingEntry<V>>>,
                        left: map<K, Work<V>>, used: seq<(K, V)>, nowSec: uint32)
      requires Progress(works, before, m0, left, used, nowSec)
      ensures WorksReady(left, left.Keys)
    {
    }

    /**
     * The first loop of `GetAsync`: each pair of the producer's reply whose
     * key is still in the producer map completes that key's work, is
     * appended to the results (returned here as `used`), and removes the key
     * from the map; refreshed entries are stored again with the expire ttl.
     */
    method ConsumeReply(works: map<K, Work<V>>, pairs: seq<(K, V)>, nowSec: uint32)
      returns (left: map<K, Work<V>>, used: seq<(K, V)>)
      requires Valid() && WorksReady(works, works.Keys)
      modifies store, WorkEntriesOf(works, works.Keys)
      ensures Valid()
      ensures (used, left.Keys) == Consume(works.Keys, pairs)
      ensures forall k :: k in left ==> k in works && left[k] == works[k]
      ensures WorksReady(left, left.Keys)
      ensures forall i :: 0 <= i < |used| ==> var (k, v) := used[i];
        k in works && works[k].entry.State() == SuccessState(works[k], old(works[k].entry.State()), v, outdateTtl)
      ensures forall k :: k in left ==> works[k].entry.State() == old(works[k].entry.State())
      ensures store.entries == Restamped(old(store.entries), works, works.Keys - left.Keys, expireTtl, nowSec)
    {
      ReadyWorksAreDistinct(works);
      ghost var before := map k | k in works :: works[k].entry.State();
      ghost var m0 := store.entries;
      left, used := works, [];
      assert Progress(works, before, m0, left, used, nowSec);
      var j := 0;
      while j < |pairs|
        invariant 0 <= j <= |pairs|
        invariant Consume(works.Keys, pairs[..j]) == (used, left.Keys)
        invariant Progress(works, before, m0, left, used, nowSec)
      {
        var (key, v) := pairs[j];
        ConsumeStep(works.Keys, pairs[..j], pairs[j]);
        assert pairs[..j + 1] == pairs[..j] + [pairs[j]];
        if key in left {
          left := ConsumePair(works, before, m0, left, used, key, v, nowSec);
          used := used + [(key, v)];
        }
        j := j + 1;
      }
      assert pairs[..j] == pairs;
      ProgressReady(works, before, m0, left, used, nowSec);
    }

    /** The works of `keys` still have the entry states `before` records. */
    ghost predicate Untouched(works: map<K, Work<V>>, before: map<K, SlidingState<V>>, keys: set<K>)
      reads WorkEntriesOf(works, works.Keys)
    {
      forall k :: k in keys && k in works && k in before ==> works[k].entry.State() == before[k]
    }

    /** The works of `keys` are marked empty from the entry states `before` records. */
    ghost predicate Emptied(works: map<K, Work<V>>, before: map<K, SlidingState<V>>, keys: set<K>)
      reads this, WorkEntriesOf(works, works.Keys)
    {
      forall k :: k in keys && k in works && k in before ==>
        works[k].entry.State() == EmptyState(works[k], before[k], outdateTtl)
    }

    /** The works of `keys` are rolled back from the entry states `before` records. */
    ghost predicate RolledBack(works: map<K, Work<V>>, before: map<K, SlidingState<V>>, keys: set<K>)
      reads WorkEntriesOf(works, works.Keys)
    {
      forall k :: k in keys && k in works && k in before ==> works[k].entry.State() == ErrorState(works[k], before[k])
    }

    /**
     * Where the second loop of `GetAsync` stands: the works outside
     * `pending` are marked empty and, when refreshed, stored again; the
     * pending ones are untouched.
     */
    ghost predicate EmptiedBut(left: map<K, Work<V>>, before: map<K, SlidingState<V>>, m0: map<K, CacheEntry<SlidingEntry<V>>>,
                               pending: set<K>, nowSec: uint32)
      reads this, store, WorkEntriesOf(left, left.Keys)
    {
      && Valid()
      && DistinctWorks(left)
      && pending <= left.Keys
      && (forall k :: k in left ==> k in before && k in m0 && m0[k].value == left[k].entry)
      && Untouched(left, before, pending)
      && (forall k :: k in pending && left[k].AddWork? ==> before[k].task.Pending?)
      && Emptied(left, before, left.Keys - pending)
      && store.entries == Restamped(m0, left, left.Keys - pending, expireTtl, nowSec)
    }

    /** The second loop of `GetAsync` on one key the producer did not return. */
    method EmptyOne(left: map<K, Work<V>>, ghost before: map<K, SlidingState<V>>, ghost m0: map<K, CacheEntry<SlidingEntry<V>>>,
                    ghost pending: set<K>, key: K, nowSec: uint32)
      requires EmptiedBut(left, before, m0, pending, nowSec) && key in pending
      modifies store, left[key].entry
      ensures EmptiedBut(left, before, m0, pending - {key}, nowSec)
    {
      var w := left[key];
      RestampedStep(m0, left, left.Keys - pending, key, expireTtl, nowSec);
      assert left.Keys - (pending - {key}) == (left.Keys - pending) + {key};
      var restore := Empty(w, outdateTtl);
      if restore {
        RestoreKeepsStore(store.entries, Repr, key, NewCacheEntry(w.entry, expireTtl, nowSec));
        var _ := store.Set(key, w.entry, expireTtl, nowSec);
      }
    }

    /**
     * The second loop of `GetAsync`: every key left in the producer map was
     * not returned; its creation completes with `(false, default)`, or its
     * refresh publishes "no value" and is stored again.
     */
    method MarkEmpty(left: map<K, Work<V>>, nowSec: uint32)
      requires Valid() && WorksReady(left, left.Keys)
      modifies store, WorkEntriesOf(left, left.Keys)
      ensures Valid()
      ensures Emptied(left, old(StatesOf(left)), left.Keys)
      ensures store.entries == Restamped(old(store.entries), left, left.Keys, expireTtl, nowSec)
    {
      ReadyWorksAreDistinct(left);
      ghost var before := StatesOf(left);
      ghost var m0 := store.entries;
      var pending := left.Keys;
      assert EmptiedBut(left, before, m0, pending, nowSec);
      while pending != {}
        invariant EmptiedBut(left, before, m0, pending, nowSec)
        decreases |pending|
      {
        var key :| key in pending;
        EmptyOne(left, before, m0, pending, key, nowSec);
        pending := pending - {key};
      }
      assert left.Keys - pending == left.Keys;
    }

    /**
     * Where the rollback loop of `GetAsync` stands: the works outside
     * `pending` are rolled back, creations removed from the store; the
     * pending ones are untouched.
     */
    ghost predicate RolledBackBut(left: map<K, Work<V>>, before: map<K, SlidingState<V>>, m0: map<K, CacheEntry<SlidingEntry<V>>>,
                                  pending: set<K>)
      reads this, store, WorkEntriesOf(left, left.Keys)
    {
      && Valid()
      && DistinctWorks(left)
      && pending <= left.Keys
      && (forall k :: k in left ==> k in before && k in m0 && m0[k].value == left[k].entry)
      && Untouched(left, before, pending)
      && (forall k :: k in pending && left[k].AddWork? ==> before[k].task.Pending?)
      && RolledBack(left, before, left.Keys - pending)
      && store.entries == m0 - AddKeys(left, left.Keys - pending)
    }

    /** The rollback loop of `GetAsync` on one key. */
    method RollBackOne(left: map<K, Work<V>>, ghost before: map<K, SlidingState<V>>, ghost m0: map<K, CacheEntry<SlidingEntry<V>>>,
                       ghost pending: set<K>, key: K)
      requires RolledBackBut(left, before, m0, pending) && key in pending
      modifies store, left[key].entry
      ensures RolledBackBut(left, before, m0, pending - {key})
    {
      var w := left[key];
      assert AddKeys(left, left.Keys - (pending - {key})) ==
        AddKeys(left, left.Keys - pending) + (if w.AddWork? then {key} else {});
      var remove := Error(w);
      if remove {
        RemoveKeepsStore(store.entries, Repr, key);
        store.Remove(key);
      }
    }

    /**
     * The `catch` of `GetAsync`: every key left in the producer map is
     * rolled back; a creation's completion faults and its key is removed
     * from the store, a refresh only gives its claim back and keeps serving.
     */
    method RollBack(left: map<K, Work<V>>)
      requires Valid() && WorksReady(left, left.Keys)
      modifies store, WorkEntriesOf(left, left.Keys)
      ensures Valid()
      ensures RolledBack(left, old(StatesOf(left)), left.Keys)
      ensures store.entries == old(store.entries) - AddKeys(left, left.Keys)
    {
      ReadyWorksAreDistinct(left);
      ghost var before := StatesOf(left);
      ghost var m0 := store.entries;
      var pending := left.Keys;
      assert RolledBackBut(left, before, m0, pending);
      while pending != {}
        invariant RolledBackBut(left, before, m0, pending)
        decreases |pending|
      {
        var key :| key in pending;
        RollBackOne(left, before, m0, pending, key);
        pending := pending - {key};
      }
      assert left.Keys - pending == left.Keys;
    }

    /**
     * The producer's part of `Get`: consumes its reply, then marks the keys
     * it left out empty, or rolls them back when it threw. `used` is the
     * pairs consumed, in reply order.
     */
    method Reconcile(works: map<K, Work<V>>, reply: ProducerReply<K, V>, nowSec: uint32) returns (used: seq<(K, V)>)
      requires Valid() && WorksReady(works, works.Keys)
      modifies store, WorkEntriesOf(works, works.Keys)
      ensures Valid()
      ensures used == Consume(works.Keys, reply.pairs).0
    {
      var left;
      left, used := ConsumeReply(works, reply.pairs, nowSec);
      if reply.fails {
        RollBack(left);
      } else {
        MarkEmpty(left, nowSec);
      }
    }

    /**
     * The part of `Get` after classification: calls the producer with the
     * keys of the producer map when there are any, reconciles its reply at
     * `replySec`, then awaits the wait list. The reply is the answered-now
     * pairs, the consumed pairs and the awaited values present, in that order.
     */
    method Respond(syncRes: seq<(K, V)>, asyncKeys: seq<K>, works: map<K, Work<V>>, waits: seq<(K, SlidingEntry<V>)>,
                   reply: ProducerReply<K, V>, replySec: uint32, later: K -> Outcome<Option<V>>)
      returns (r: BatchReply<K, V>, producerKeys: Option<seq<K>>, awaitedTasks: seq<(K, Task<Option<V>>)>)
      requires Valid() && works.Keys == Elems(asyncKeys) && WorksReady(works, works.Keys)
      modifies store, WorkEntriesOf(works, works.Keys)
      ensures Valid()
      ensures producerKeys == if asyncKeys == [] then None else Some(asyncKeys)
      ensures r == Thrown(ProducerFailed) <==> producerKeys.Some? && reply.fails
      ensures producerKeys.Some? && reply.fails ==> awaitedTasks == []
      ensures !(producerKeys.Some? && reply.fails) ==>
        && awaitedTasks == TasksOf(waits, replySec)
        && r == match AwaitAll(awaitedTasks, later)
                case Fail => Thrown(WaitFailed)
                case Ok(awaited) => Pairs(syncRes + Consume(Elems(asyncKeys), reply.pairs).0 + Present(awaited))
    {
      var used: seq<(K, V)> := [];
      producerKeys, awaitedTasks := None, [];
      if asyncKeys != [] {
        producerKeys := Some(asyncKeys);
        used := Reconcile(works, reply, replySec);
        if reply.fails {
          r := Thrown(ProducerFailed);
          return;
        }
      } else {
        assert Elems(asyncKeys) == {};
        ConsumeNothingPending(reply.pairs);
      }
      awaitedTasks := TasksOf(waits, replySec);
      var awaited := AwaitWaits(syncRes + used, awaitedTasks, later);
      r := if awaited.Fail? then Thrown(WaitFailed) else Pairs(awaited.value);
    }

    /**
     * `Get`: classifies the keys, calls the producer once with the keys of
     * the producer map (only when there are any), consumes its reply, marks
     * the keys it left out empty or rolls everything back when it throws,
     * then awaits the wait list. `nowSec` is the clock while the keys are
     * classified and `replySec` the clock once the producer has answered,
     * when the entries are reset and stored again and the wait list is read. `routes` records each
     * key's route and `awaitedTasks` the wait-list tasks as the wait loop
     * reads them.
     */
    method Get(keys: seq<K>, nowSec: uint32, reply: ProducerReply<K, V>, replySec: uint32, later: K -> Outcome<Option<V>>)
      returns (r: BatchReply<K, V>, producerKeys: Option<seq<K>>, ghost routes: seq<Route<V>>,
               awaitedTasks: seq<(K, Task<Option<V>>)>, ghost plans: seq<Option<Route<V>>>)
      requires Valid()
      modifies this, store, Repr
      ensures Valid()
      ensures old(Repr) <= Repr && fresh(Repr - old(Repr))
      ensures |routes| <= |keys|
      ensures |plans| == |keys| && forall j :: 0 <= j < |keys| ==> plans[j] == old(Planned(keys[j], nowSec))
      ensures forall j :: 0 <= j < |routes| && keys[j] !in keys[..j] ==> Some(routes[j]) == plans[j]
      ensures |routes| < |keys| && keys[|routes|] !in keys[..|routes|] ==>
        r == Thrown(EntryFaulted) && plans[|routes|].None?
      ensures (forall j :: 0 <= j < |keys| ==> keys[j] !in keys[..j] && Answered(plans[j])) ==>
        && |routes| == |keys| && producerKeys.None? && awaitedTasks == []
        && r == Pairs(Present(SyncSlots(keys, routes)))
      ensures |routes| < |keys| ==> producerKeys.None? && (r == Thrown(DuplicateKey) || r == Thrown(EntryFaulted))
      ensures |routes| == |keys| ==>
        producerKeys == if ProduceKeys(keys, routes) == [] then None else Some(ProduceKeys(keys, routes))
      ensures |routes| == |keys| ==> (r == Thrown(ProducerFailed) <==> producerKeys.Some? && reply.fails)
      ensures |routes| == |keys| && !(producerKeys.Some? && reply.fails) ==>
        && Firsts(awaitedTasks) == WaitKeys(keys, routes)
        && r == match AwaitAll(awaitedTasks, later)
                case Fail => Thrown(WaitFailed)
                case Ok(awaited) => Pairs(CompletedReply(keys, routes, reply.pairs, awaited))
    {
      var syncRes, asyncKeys, works, waits, fault;
      syncRes, asyncKeys, works, waits, fault, routes, plans := Classify(keys, nowSec);
      awaitedTasks := [];
      if fault.Some? {
        r, producerKeys := Thrown(fault.value), None;
        return;
      }
      assert keys[..|routes|] == keys;
      if forall j :: 0 <= j < |keys| ==> keys[j] !in keys[..j] && Answered(plans[j]) {
        AllAnsweredReply(keys, routes, reply.pairs);
      }
      r, producerKeys, awaitedTasks := Respond(syncRes, asyncKeys, works, waits, reply, replySec, later);
    }
  }
}
