/**
 * Helpers of the sliding cache generation: the result list of the batch
 * caches with its conditional append, and the shard-lock index over a
 * signed key hash.
 */
module SCacheInternal {
  import opened Common

  /**
   * `TryAddValue` on a result list the batch caches keep in a local
   * variable: the pair is appended when its flag is set (a `(bool, Tval)`
   * pair whose flag is false is modelled as `None`); existing pairs keep
   * their order.
   */
  function TryAddValue<K, V>(dst: seq<(K, V)>, key: K, value: Option<V>): (r: seq<(K, V)>)
    ensures |r| == |dst| + (if value.Some? then 1 else 0)
    ensures r[..|dst|] == dst
    ensures value.Some? ==> r[|dst|] == (key, value.value)
  {
    if value.Some? then dst + [(key, value.value)] else dst
  }

  /** The pairs that a run of `TryAddValue` calls appends, in call order. */
  function Present<K, V>(slots: seq<(K, Option<V>)>): (r: seq<(K, V)>)
    ensures |r| <= |slots|
  {
    if slots == [] then []
    else
      var last := slots[|slots| - 1];
      Present(slots[..|slots| - 1]) + (if last.1.Some? then [(last.0, last.1.value)] else [])
  }

  /** Every appended pair comes from a present slot of the same key. */
  lemma {:induction false} PresentComesFromSlots<K, V>(slots: seq<(K, Option<V>)>, j: nat)
    requires j < |Present(slots)|
    ensures exists i :: 0 <= i < |slots| && slots[i] == (Present(slots)[j].0, Some(Present(slots)[j].1))
  {
    var n := |slots|;
    var init := slots[..n - 1];
    if j < |Present(init)| {
      PresentComesFromSlots(init, j);
      var i :| 0 <= i < |init| && init[i] == (Present(init)[j].0, Some(Present(init)[j].1));
      assert slots[i] == init[i];
    } else {
      assert slots[n - 1] == (Present(slots)[j].0, Some(Present(slots)[j].1));
    }
  }

  /** `Present` is the fold of `TryAddValue` over the slots. */
  lemma PresentAppend<K, V>(slots: seq<(K, Option<V>)>, key: K, value: Option<V>)
    ensures Present(slots + [(key, value)]) == TryAddValue(Present(slots), key, value)
  {
    assert (slots + [(key, value)])[..|slots|] == slots;
  }

  const LOCK_COUNT: nat := 256

  /** C#'s `%` on `int`: the remainder takes the sign of the dividend. */
  function CsRemainder(a: int, b: int): (r: int)
    requires b > 0
    ensures -b < r < b
    ensures a >= 0 ==> r >= 0
    ensures a < 0 ==> r <= 0
    ensures (a - r) % b == 0
  {
    if a >= 0 then
      var q := a / b;
      assert a - a % b == q * b;
      ModOfMultiple(q, b);
      a % b
    else
      var q := (-a) / b;
      assert a + (-a) % b == (-q) * b;
      ModOfMultiple(-q, b);
      -((-a) % b)
  }

  /** A multiple of `b` leaves no remainder. */
  lemma ModOfMultiple(k: int, b: int)
    requires b > 0
    ensures (k * b) % b == 0
  {
    var q, m := (k * b) / b, (k * b) % b;
    assert k * b == q * b + m;
    var d := k - q;
    // m == d * b with 0 <= m < b leaves no room for d other than 0
    assert m == d * b;
    if d >= 1 {
      assert false;
    } else if d <= -1 {
      assert false;
    }
  }

  /** Why `GetLock(int hash)` can fail: the array index it computes. */
  datatype LockLookup = Lock(index: nat) | IndexOutOfRange

  /**
   * `GetLock(int hash) => _locks[hash % 256]`, as written: a negative hash
   * gives a negative remainder, and indexing the array with it throws.
   */
  function GetLock(hash: int32): (r: LockLookup)
    ensures r.Lock? <==> CsRemainder(hash, LOCK_COUNT) >= 0
    ensures r.Lock? ==> r.index == CsRemainder(hash, LOCK_COUNT) && r.index < LOCK_COUNT
    ensures r.Lock? ==> (hash - r.index) % LOCK_COUNT == 0
  {
    var i := CsRemainder(hash, LOCK_COUNT);
    if 0 <= i then Lock(i) else IndexOutOfRange
  }

  /** The lookup succeeds exactly for non-negative hashes and multiples of 256. */
  lemma GetLockSucceedsIff(hash: int32)
    ensures GetLock(hash).Lock? <==> hash >= 0 || hash % LOCK_COUNT == 0
  {
    var x: int := hash;
    if x < 0 {
      var q, m := (-x) / LOCK_COUNT, (-x) % LOCK_COUNT;
      assert -x == q * LOCK_COUNT + m;
      if m == 0 {
        assert x == (-q) * LOCK_COUNT;
      } else {
        assert x == (-q - 1) * LOCK_COUNT + (LOCK_COUNT - m);
      }
    }
  }

  /** A hash code of -1 (common for `GetHashCode`) makes the lookup throw. */
  lemma NegativeHashThrows()
    ensures GetLock(-1) == IndexOutOfRange
  {
  }
}
