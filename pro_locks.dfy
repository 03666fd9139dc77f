/**
 * The shard locks of the proactive cache: a fixed table of 256 lock objects,
 * indexed by an unsigned key hash. The locks only serialise the
 * miss-then-create race; the caches' sequential model does not take them.
 */
module ProCacheLocks {
  import opened Common

  const LOCK_COUNT: nat := 256

  /** Index of the lock that guards keys with this unsigned hash. */
  function LockIndex(hash: uint32): (i: nat)
    ensures i < LOCK_COUNT
    ensures (hash - i) % LOCK_COUNT == 0
  {
    hash % LOCK_COUNT
  }

  /** Callers cast `key.GetHashCode()` to `uint` before indexing. */
  function LockIndexForHashCode(hashCode: int32): (i: nat)
    ensures i < LOCK_COUNT
    ensures (hashCode - i) % LOCK_COUNT == 0
  {
    LockIndex(ToUInt32(hashCode))
  }

  /** Hashes congruent modulo 256, equal hashes in particular, share a lock. */
  lemma CongruentHashesShareLock(h1: uint32, h2: uint32)
    requires (h1 - h2) % LOCK_COUNT == 0
    ensures LockIndex(h1) == LockIndex(h2)
  {
    var q1, q2 := h1 / LOCK_COUNT, h2 / LOCK_COUNT;
    assert h1 == q1 * LOCK_COUNT + LockIndex(h1);
    assert h2 == q2 * LOCK_COUNT + LockIndex(h2);
    assert (LockIndex(h1) - LockIndex(h2)) % LOCK_COUNT == 0;
  }

  /** The `_locks` table. */
  class LockTable {
    const locks: seq<object>

    ghost predicate Valid()
      reads this
    {
      && |locks| == LOCK_COUNT
      && forall i, j :: 0 <= i < j < |locks| ==> locks[i] != locks[j]
    }

    /** `Enumerable.Range(0, 256).Select(_ => new object()).ToArray()`. */
    constructor ()
      ensures Valid()
      ensures forall i :: 0 <= i < |locks| ==> fresh(locks[i])
    {
      var s: seq<object> := [];
      while |s| < LOCK_COUNT
        invariant |s| <= LOCK_COUNT
        invariant forall i, j :: 0 <= i < j < |s| ==> s[i] != s[j]
        invariant forall i :: 0 <= i < |s| ==> fresh(s[i])
      {
        var o := new object;
        s := s + [o];
      }
      locks := s;
    }

    /** `GetLock(hash)`: never out of range, because the hash is unsigned. */
    function GetLock(hash: uint32): (l: object)
      requires Valid()
      reads this
      ensures l == locks[LockIndex(hash)]
      ensures forall h: uint32 :: locks[LockIndex(h)] == l <==> LockIndex(h) == LockIndex(hash)
    {
      locks[LockIndex(hash)]
    }
  }
}
