/**
 * The default backing store of the proactive cache: a dictionary from key to
 * (entry, expiry second). Expired pairs stay in the dictionary, invisible to
 * readers, until a sweep removes them. A sweep is started at most once per
 * scan window from `Set`; the model runs it as an explicit call.
 */
module ProMemoryCache {
  import opened Common

  /** A stored value and the second from which it is expired. */
  datatype CacheEntry<E> = CacheEntry(value: E, expireAt: int) {
    /** Expiry is inclusive: a pair is expired at its `expireAt` second. */
    predicate IsExpired(nowSec: int) { nowSec >= expireAt }
  }

  /** An item is expired from its `expireAt` second on, that second included, and stays expired. */
  lemma ExpiryIsInclusive<E>(c: CacheEntry<E>, t: int)
    ensures c.IsExpired(c.expireAt) && !c.IsExpired(c.expireAt - 1)
    ensures c.IsExpired(t) ==> c.IsExpired(t + 1)
  {
  }

  /** `new CacheEntry(value, expire_ttl, now_sec)`. */
  function NewCacheEntry<E>(value: E, ttl: TimeSpan, nowSec: uint32): (c: CacheEntry<E>)
    ensures c.value == value
    ensures c.IsExpired(nowSec) <==> ttl < TICKS_PER_SECOND
    ensures 0 <= ttl ==> forall t :: nowSec <= t && (t - nowSec + 1) * TICKS_PER_SECOND <= ttl ==> !c.IsExpired(t)
  {
    CacheEntry(value, nowSec + WholeSeconds(ttl))
  }

  /** What `TryGet` reads: the value, if the key is present and not expired. */
  function Lookup<K, E>(m: map<K, CacheEntry<E>>, key: K, nowSec: int): (r: Option<E>)
    ensures r.Some? <==> key in m && !m[key].IsExpired(nowSec)
    ensures r.Some? ==> r.value == m[key].value
  {
    if key in m && !m[key].IsExpired(nowSec) then Some(m[key].value) else None
  }

  /** The dictionary after a sweep at `nowSec`: exactly the unexpired pairs. */
  function Unexpired<K, E>(m: map<K, CacheEntry<E>>, nowSec: int): (r: map<K, CacheEntry<E>>)
    ensures r.Keys <= m.Keys
    ensures forall k :: k in m ==> (k in r <==> !m[k].IsExpired(nowSec))
    ensures forall k :: k in r ==> r[k] == m[k]
  {
    map k | k in m && !m[k].IsExpired(nowSec) :: m[k]
  }

  /** The keys a sweep at `nowSec` removes. */
  function ExpiredKeys<K, E>(m: map<K, CacheEntry<E>>, nowSec: int): (s: set<K>)
    ensures s <= m.Keys
    ensures forall k :: k in m ==> (k in s <==> m[k].IsExpired(nowSec))
  {
    set k | k in m && m[k].IsExpired(nowSec)
  }

  /** A stored value is readable right after `Set` iff its ttl is at least one second. */
  lemma SetThenLookup<K, E>(m: map<K, CacheEntry<E>>, key: K, value: E, ttl: TimeSpan, nowSec: uint32)
    ensures Lookup(m[key := NewCacheEntry(value, ttl, nowSec)], key, nowSec)
      == if ttl >= TICKS_PER_SECOND then Some(value) else None
  {
  }

  /** `Set` on one key leaves every other key's reading unchanged. */
  lemma SetKeepsOtherKeys<K, E>(m: map<K, CacheEntry<E>>, key: K, c: CacheEntry<E>, other: K, nowSec: int)
    requires other != key
    ensures Lookup(m[key := c], other, nowSec) == Lookup(m, other, nowSec)
  {
  }

  /** `Remove` hides exactly the removed key. */
  lemma RemoveOnlyThatKey<K, E>(m: map<K, CacheEntry<E>>, key: K, other: K, nowSec: int)
    ensures Lookup(m - {key}, other, nowSec) == if other == key then None else Lookup(m, other, nowSec)
  {
  }

  /**
   * A sweep is invisible to readers at the sweep's own second: every key
   * reads the same before and after it.
   */
  lemma SweepKeepsReadings<K, E>(m: map<K, CacheEntry<E>>, key: K, nowSec: int)
    ensures Lookup(Unexpired(m, nowSec), key, nowSec) == Lookup(m, key, nowSec)
  {
  }

  /** Expired pairs are removed and live pairs kept: the two halves partition the map. */
  lemma SweepPartitions<K, E>(m: map<K, CacheEntry<E>>, nowSec: int)
    ensures Unexpired(m, nowSec).Keys + ExpiredKeys(m, nowSec) == m.Keys
    ensures Unexpired(m, nowSec).Keys * ExpiredKeys(m, nowSec) == {}
  {
  }

  /** What a sweep has done once the keys outside `pending` are processed. */
  ghost predicate SweepInv<K, E>(snapshot: map<K, CacheEntry<E>>, nowSec: int, pending: set<K>,
                                 live: map<K, CacheEntry<E>>, expired: seq<(K, E)>)
  {
    && pending <= snapshot.Keys
    && live.Keys <= snapshot.Keys
    && (forall k :: k in live ==> live[k] == snapshot[k])
    && (forall k :: k in snapshot ==> (k in live <==> k in pending || !snapshot[k].IsExpired(nowSec)))
    && KeysOf(expired) == ExpiredKeys(snapshot, nowSec) - pending
    && (forall i :: 0 <= i < |expired| ==> expired[i].0 in snapshot && expired[i].1 == snapshot[expired[i].0].value)
    && (forall i, j :: 0 <= i < j < |expired| ==> expired[i].0 != expired[j].0)
  }

  lemma SweepStep<K, E>(snapshot: map<K, CacheEntry<E>>, nowSec: int, pending: set<K>,
                        live: map<K, CacheEntry<E>>, expired: seq<(K, E)>, k: K)
    requires SweepInv(snapshot, nowSec, pending, live, expired) && k in pending
    ensures snapshot[k].IsExpired(nowSec) ==> k in live
    ensures snapshot[k].IsExpired(nowSec) ==>
      SweepInv(snapshot, nowSec, pending - {k}, live - {k}, expired + [(k, live[k].value)])
    ensures !snapshot[k].IsExpired(nowSec) ==> SweepInv(snapshot, nowSec, pending - {k}, live, expired)
  {
    if snapshot[k].IsExpired(nowSec) {
      assert k !in KeysOf(expired);
      assert forall i :: 0 <= i < |expired| ==> expired[i].0 in KeysOf(expired);
      KeysOfAppend(expired, (k, live[k].value));
    }
  }

  /**
   * The loop of a sweep over a snapshot of the dictionary: each expired
   * pair that is still present is removed and collected.
   */
  method RemoveExpired<K, E>(snapshot: map<K, CacheEntry<E>>, nowSec: uint32)
    returns (live: map<K, CacheEntry<E>>, expired: seq<(K, E)>)
    ensures live == Unexpired(snapshot, nowSec)
    ensures KeysOf(expired) == ExpiredKeys(snapshot, nowSec)
    ensures forall i :: 0 <= i < |expired| ==> expired[i].0 in snapshot && expired[i].1 == snapshot[expired[i].0].value
    ensures forall i, j :: 0 <= i < j < |expired| ==> expired[i].0 != expired[j].0
  {
    var pending := snapshot.Keys;
    live := snapshot;
    expired := [];
    while pending != {}
      invariant SweepInv(snapshot, nowSec, pending, live, expired)
      decreases |pending|
    {
      var k :| k in pending;
      SweepStep(snapshot, nowSec, pending, live, expired, k);
      if snapshot[k].IsExpired(nowSec) {
        if k in live {
          var val := live[k];
          live := live - {k};
          expired := expired + [(k, val.value)];
        }
      }
      pending := pending - {k};
    }
    assert live == Unexpired(snapshot, nowSec);
  }

  class MemoryCache<K(==), E> {
    const scanFrequencySec: int32
    /** Whether an expiry hook was supplied (`_expired != null`). */
    const hasExpiredHook: bool
    var entries: map<K, CacheEntry<E>>
    var nextExpirationScan: int64
    /** Whether the last sweep task (`_expirationScan`) is still running. */
    var scanRunning: bool

    /** `new MemoryCache(expired, expiration_scan_frequency_sec)`. */
    constructor (hasExpiredHook: bool, scanFrequencySec: int32, nowSec: uint32)
      ensures this.hasExpiredHook == hasExpiredHook && this.scanFrequencySec == scanFrequencySec
      ensures entries == map[] && !scanRunning
      ensures nextExpirationScan == nowSec + scanFrequencySec
    {
      this.hasExpiredHook := hasExpiredHook;
      this.scanFrequencySec := scanFrequencySec;
      entries := map[];
      nextExpirationScan := nowSec + scanFrequencySec;
      scanRunning := false;
    }

    /** `Count`: expired pairs still count until a sweep removes them. */
    function Count(): (n: nat)
      reads this
      ensures n == |entries.Keys|
    {
      |entries|
    }

    /**
     * `Set`: stores the pair under the key, replacing any previous one, then
     * starts a sweep if one is due.
     */
    method Set(key: K, value: E, ttl: TimeSpan, nowSec: uint32) returns (scanStarted: bool)
      modifies this
      ensures entries == old(entries)[key := NewCacheEntry(value, ttl, nowSec)]
      ensures scanStarted == (nowSec >= old(nextExpirationScan) && !old(scanRunning))
      ensures scanStarted ==> nextExpirationScan == nowSec + scanFrequencySec && scanRunning
      ensures !scanStarted ==> nextExpirationScan == old(nextExpirationScan) && scanRunning == old(scanRunning)
    {
      entries := entries[key := NewCacheEntry(value, ttl, nowSec)];
      scanStarted := StartScanForExpiredItemsIfNeeded(nowSec);
    }

    /** `TryGet`: the value when the key is present and not expired. */
    method TryGet(key: K, nowSec: uint32) returns (r: Option<E>)
      ensures r.Some? <==> key in entries && !entries[key].IsExpired(nowSec)
      ensures r.Some? ==> r.value == entries[key].value
    {
      if key !in entries || entries[key].IsExpired(nowSec) {
        return None;
      }
      r := Some(entries[key].value);
    }

    /** `Remove`: deletes the key, if present. */
    method Remove(key: K)
      modifies this
      ensures entries == old(entries) - {key}
      ensures nextExpirationScan == old(nextExpirationScan) && scanRunning == old(scanRunning)
    {
      entries := entries - {key};
    }

    /**
     * A sweep starts only when its second has come and the previous sweep
     * has finished; the next one is then due a full window later.
     */
    method StartScanForExpiredItemsIfNeeded(nowSec: uint32) returns (started: bool)
      modifies this
      ensures entries == old(entries)
      ensures started == (nowSec >= old(nextExpirationScan) && !old(scanRunning))
      ensures started ==> nextExpirationScan == nowSec + scanFrequencySec && scanRunning
      ensures !started ==> nextExpirationScan == old(nextExpirationScan) && scanRunning == old(scanRunning)
    {
      var next := nextExpirationScan;
      if nowSec >= next && !scanRunning {
        nextExpirationScan := nowSec + scanFrequencySec;
        scanRunning := true;
        return true;
      }
      started := false;
    }

    /**
     * `ScanForExpiredItems`: removes exactly the pairs expired at `nowSec`
     * and returns them; the hook is called once per removed pair, and never
     * without a hook.
     */
    method ScanForExpiredItems(nowSec: uint32) returns (expired: seq<(K, E)>, hookCalls: seq<(K, E)>)
      modifies this
      ensures entries == Unexpired(old(entries), nowSec)
      ensures KeysOf(expired) == ExpiredKeys(old(entries), nowSec)
      ensures forall i :: 0 <= i < |expired| ==> expired[i].0 in old(entries) && expired[i].1 == old(entries)[expired[i].0].value
      ensures forall i, j :: 0 <= i < j < |expired| ==> expired[i].0 != expired[j].0
      ensures hookCalls == if hasExpiredHook then expired else []
      ensures !scanRunning && nextExpirationScan == old(nextExpirationScan)
    {
      var live;
      live, expired := RemoveExpired(entries, nowSec);
      entries := live;
      hookCalls := [];
      if |expired| > 0 && hasExpiredHook {
        hookCalls := expired;
      }
      scanRunning := false;
    }
  }
}
