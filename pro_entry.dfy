/**
 * The entry of the proactive cache. It packs three things into plain fields:
 * a staleness deadline in whole seconds with a claim bit OR-ed into it, the
 * last published value, and a word of flags (IsEmpty, HasValue) plus a
 * 30-bit wait-queue counter. The completion task it was created with is
 * the fourth field.
 *
 * The transitions are first stated as functions on an `EntryState` value;
 * the `ProCacheEntry` class updates its fields and promises in each method
 * that its new state is the corresponding transition of its old one.
 */
module ProCacheEntries {
  import opened Common

  const ISEMPTY_BIT: nat := 0x8000_0000
  const HASVALUE_BIT: nat := 0x4000_0000
  /** `QUEUESIZE_MASK + 1`: the queue counter is the word modulo this. */
  const QUEUE_MODULUS: nat := 0x4000_0000
  /** `OUTDATED_FLAG`, bit 62 of the 64-bit deadline. */
  const OUTDATED_FLAG: nat := 0x4000_0000_0000_0000

  // ---------------------------------------------------------------------
  // The flag word. `_data` is an `int` that the code reads through an
  // unchecked `(uint)` cast; the model keeps that unsigned view.

  predicate IsEmptyWord(data: uint32) { data >= ISEMPTY_BIT }

  predicate HasValueWord(data: uint32) { (data / HASVALUE_BIT) % 2 == 1 }

  function QueueSizeWord(data: uint32): nat { data % QUEUE_MODULUS }

  // ---------------------------------------------------------------------
  // The claim bit of the deadline, on the two's-complement view of a long.

  function Unsigned64(x: int64): (u: uint64)
    ensures x >= 0 ==> u == x
  {
    if x < 0 then x + TWO_POW_64 else x
  }

  predicate HasClaimBit(x: int64) { (Unsigned64(x) / OUTDATED_FLAG) % 2 == 1 }

  /** `x | OUTDATED_FLAG`. */
  function WithClaimBit(x: int64): (r: int64)
    ensures HasClaimBit(r)
    ensures x >= 0 ==> r >= OUTDATED_FLAG
    ensures HasClaimBit(x) ==> r == x
  {
    if HasClaimBit(x) then x
    else
      var q, rest := Unsigned64(x) / OUTDATED_FLAG, Unsigned64(x) % OUTDATED_FLAG;
      assert Unsigned64(x) == q * OUTDATED_FLAG + rest;
      assert Unsigned64(x + OUTDATED_FLAG) == (q + 1) * OUTDATED_FLAG + rest;
      x + OUTDATED_FLAG
  }

  /** `x & ~OUTDATED_FLAG`. */
  function WithoutClaimBit(x: int64): (r: int64)
    ensures !HasClaimBit(r)
    ensures !HasClaimBit(x) ==> r == x
    ensures WithClaimBit(r) == WithClaimBit(x)
  {
    if HasClaimBit(x) then
      var q, rest := Unsigned64(x) / OUTDATED_FLAG, Unsigned64(x) % OUTDATED_FLAG;
      assert Unsigned64(x) == q * OUTDATED_FLAG + rest;
      assert Unsigned64(x - OUTDATED_FLAG) == (q - 1) * OUTDATED_FLAG + rest;
      x - OUTDATED_FLAG
    else x
  }

  /**
   * `GetOutdatedSec(ttl)`: the current second plus the whole seconds of the
   * ttl, rounded toward zero.
   */
  function GetOutdatedSec(nowSec: uint32, ttl: TimeSpan): (d: int64)
    ensures 0 <= ttl ==> nowSec <= d && (d - nowSec) * TICKS_PER_SECOND <= ttl < (d - nowSec + 1) * TICKS_PER_SECOND
    ensures ttl < 0 ==> d <= nowSec && (d - nowSec - 1) * TICKS_PER_SECOND < ttl <= (d - nowSec) * TICKS_PER_SECOND
    ensures 0 <= ttl ==> 0 <= d < OUTDATED_FLAG
  {
    nowSec + WholeSeconds(ttl)
  }

  // ---------------------------------------------------------------------
  // The entry as a value.

  datatype EntryState<V> = EntryState(
    outdatedSec: int64,
    value: Option<V>,
    data: uint32,
    task: Task<Option<V>>)

  predicate IsEmpty<V>(s: EntryState<V>) { IsEmptyWord(s.data) }
  predicate HasValue<V>(s: EntryState<V>) { HasValueWord(s.data) }
  function QueueSize<V>(s: EntryState<V>): nat { QueueSizeWord(s.data) }

  /**
   * The shapes the flag word takes: a fresh entry counts waiters and has no
   * value; a published entry has HasValue, and IsEmpty only when the value
   * is the default.
   */
  predicate WellFormed<V>(s: EntryState<V>)
  {
    || (s.data == HASVALUE_BIT && s.value.Some?)
    || (s.data == ISEMPTY_BIT + HASVALUE_BIT && s.value.None?)
    || (s.data < HASVALUE_BIT && s.value.None?)
  }

  /** The constructor, with the completion's still-pending task. */
  function NewEntry<V>(outdatedTtl: TimeSpan, nowSec: uint32): (s: EntryState<V>)
    ensures WellFormed(s)
    ensures !HasValue(s) && !IsEmpty(s) && QueueSize(s) == 0
    ensures s.value.None? && s.task.Pending?
    ensures s.outdatedSec == GetOutdatedSec(nowSec, outdatedTtl)
  {
    EntryState(GetOutdatedSec(nowSec, outdatedTtl), None, 0, Pending)
  }

  /** `IsCompleted`. */
  predicate IsCompleted<V>(s: EntryState<V>)
  {
    HasValue(s) || s.task.IsCompleted()
  }

  /** `GetValue()`: the published value if there is one, else the task. */
  function GetValue<V>(s: EntryState<V>): (t: Task<Option<V>>)
    ensures t.IsCompleted() <==> IsCompleted(s)
    ensures HasValue(s) ==> t == Completed(s.value)
    ensures !HasValue(s) ==> t == s.task
  {
    if HasValue(s) then Completed(s.value) else s.task
  }

  /**
   * `GetCompletedValue()`: the same answer as `GetValue`, read synchronously;
   * reading the result of a faulted task throws.
   */
  function GetCompletedValue<V>(s: EntryState<V>): (r: Outcome<Option<V>>)
    requires IsCompleted(s)
    ensures r.Ok? <==> GetValue(s).Completed?
    ensures r.Ok? ==> r.value == GetValue(s).result
    ensures HasValue(s) ==> r == Ok(s.value)
  {
    if HasValue(s) then Ok(s.value)
    else match s.task
      case Completed(v) => Ok(v)
      case Faulted => Fail
  }

  /** The guard of `Outdated()`: the deadline has passed and the task is done. */
  predicate Claimable<V>(s: EntryState<V>, nowSec: uint32)
  {
    s.outdatedSec <= nowSec && s.task.IsCompleted()
  }

  /** A successful `Outdated()`: only the claim bit changes. */
  function Claim<V>(s: EntryState<V>): (r: EntryState<V>)
    ensures HasClaimBit(r.outdatedSec)
    ensures r.(outdatedSec := s.outdatedSec) == s
  {
    s.(outdatedSec := WithClaimBit(s.outdatedSec))
  }

  /** `Reset()`: only the claim bit is cleared. */
  function Unclaim<V>(s: EntryState<V>): (r: EntryState<V>)
    ensures !HasClaimBit(r.outdatedSec)
    ensures r.(outdatedSec := s.outdatedSec) == s
  {
    s.(outdatedSec := WithoutClaimBit(s.outdatedSec))
  }

  /**
   * `Reset(value, ttl)`: publishes a value; the flag word becomes exactly
   * HasValue, which clears IsEmpty and the queue counter, and the deadline
   * moves only when a ttl is given.
   */
  function Publish<V>(s: EntryState<V>, v: V, ttl: Option<TimeSpan>, nowSec: uint32): (r: EntryState<V>)
    ensures WellFormed(r)
    ensures HasValue(r) && !IsEmpty(r) && QueueSize(r) == 0
    ensures r.value == Some(v) && r.task == s.task
    ensures ttl.None? ==> r.outdatedSec == s.outdatedSec
    ensures ttl.Some? ==> r.outdatedSec == GetOutdatedSec(nowSec, ttl.value)
  {
    var d := if ttl.Some? then GetOutdatedSec(nowSec, ttl.value) else s.outdatedSec;
    EntryState(d, Some(v), HASVALUE_BIT, s.task)
  }

  /**
   * `Reset(ttl)`: publishes "no value"; the value becomes the default and
   * the flag word has both IsEmpty and HasValue.
   */
  function PublishEmpty<V>(s: EntryState<V>, ttl: Option<TimeSpan>, nowSec: uint32): (r: EntryState<V>)
    ensures WellFormed(r)
    ensures HasValue(r) && IsEmpty(r) && QueueSize(r) == 0
    ensures r.value.None? && r.task == s.task
    ensures ttl.None? ==> r.outdatedSec == s.outdatedSec
    ensures ttl.Some? ==> r.outdatedSec == GetOutdatedSec(nowSec, ttl.value)
  {
    var d := if ttl.Some? then GetOutdatedSec(nowSec, ttl.value) else s.outdatedSec;
    EntryState(d, None, ISEMPTY_BIT + HASVALUE_BIT, s.task)
  }

  /**
   * `TryEnterQueue(max)`: a completed entry admits without counting; an
   * entry whose counter has reached `max` refuses; otherwise the counter
   * grows by one and the caller is admitted.
   */
  function EnterQueue<V>(s: EntryState<V>, max: uint16): (r: (bool, EntryState<V>))
    ensures !r.0 <==> !HasValue(s) && !s.task.IsCompleted() && QueueSize(s) >= max
    ensures r.1 != s ==> QueueSize(r.1) == QueueSize(s) + 1 <= max
    ensures r.1.(data := s.data) == s
    ensures HasValue(s) || s.task.IsCompleted() || !r.0 ==> r.1 == s
    ensures HasValue(r.1) == HasValue(s) && IsEmpty(r.1) == IsEmpty(s)
  {
    if HasValue(s) || s.task.IsCompleted() then (true, s)
    else if QueueSize(s) >= max then (false, s)
    else
      var d := (s.data + 1) % TWO_POW_32;
      var q, rest := s.data / QUEUE_MODULUS, s.data % QUEUE_MODULUS;
      assert s.data == q * QUEUE_MODULUS + rest;
      assert d == q * QUEUE_MODULUS + (rest + 1);
      assert d / HASVALUE_BIT == s.data / HASVALUE_BIT;
      (QueueSizeWord(d) <= max, s.(data := d))
  }

  // ---------------------------------------------------------------------
  // Properties of the transitions.

  /**
   * Exactly one claim per staleness window: once claimed, a deadline that
   * was not negative lies beyond every 32-bit second, so no further
   * `Outdated()` succeeds until a `Reset`.
   */
  lemma ClaimOnce<V>(s: EntryState<V>, nowSec: uint32)
    requires 0 <= s.outdatedSec
    ensures !Claimable(Claim(s), nowSec)
  {
  }

  /** `Reset()` after a claim restores the entry exactly, so it is claimable again. */
  lemma UnclaimUndoesClaim<V>(s: EntryState<V>, nowSec: uint32)
    requires !HasClaimBit(s.outdatedSec)
    ensures Unclaim(Claim(s)) == s
    ensures Claimable(Unclaim(Claim(s)), nowSec) == Claimable(s, nowSec)
  {
  }

  /** A claimable entry's deadline has no claim bit, whatever its value. */
  lemma ClaimableHasNoClaimBit<V>(s: EntryState<V>, nowSec: uint32)
    requires 0 <= s.outdatedSec && Claimable(s, nowSec)
    ensures !HasClaimBit(s.outdatedSec)
  {
    assert Unsigned64(s.outdatedSec) / OUTDATED_FLAG == 0;
  }

  /** Sequentially the wait-queue counter never exceeds the bound. */
  lemma {:induction false} QueueNeverExceedsMax<V>(s: EntryState<V>, max: uint16, n: nat)
    requires QueueSize(s) <= max
    ensures QueueSize(EnterQueueTimes(s, max, n)) <= max
  {
    if n > 0 {
      QueueNeverExceedsMax(s, max, n - 1);
    }
  }

  /** `n` consecutive `TryEnterQueue(max)` calls. */
  function EnterQueueTimes<V>(s: EntryState<V>, max: uint16, n: nat): EntryState<V>
  {
    if n == 0 then s else EnterQueue(EnterQueueTimes(s, max, n - 1), max).1
  }

  /** Every transition keeps the flag word in one of its three shapes. */
  lemma TransitionsPreserveWellFormed<V>(s: EntryState<V>, max: uint16)
    requires WellFormed(s)
    ensures WellFormed(Claim(s)) && WellFormed(Unclaim(s))
    ensures WellFormed(EnterQueue(s, max).1)
  {
    if !HasValue(s) && !s.task.IsCompleted() && QueueSize(s) < max {
      assert s.data < HASVALUE_BIT;
    }
  }

  /** An empty entry reads as "no value" once it is completed. */
  lemma EmptyReadsAsNoValue<V>(s: EntryState<V>)
    requires WellFormed(s) && IsEmpty(s)
    ensures IsCompleted(s) && GetCompletedValue(s) == Ok(None)
  {
  }

  /**
   * `IsEmpty` as the entry writes it, the word masked with `ISEMPTY_MASK`
   * and compared with zero, agrees with the comparison used here.
   */
  lemma IsEmptyMask(data: uint32)
    ensures IsEmptyWord(data) <==> (data as bv32) & 0x8000_0000 != 0
  {
    var b := data as bv32;
    assert b & 0x8000_0000 != 0 <==> b >= 0x8000_0000;
  }

  /** `HasValue` as the entry writes it, with `HASVALUE_MASK`, agrees with the bit test used here. */
  lemma HasValueMask(data: uint32)
    ensures HasValueWord(data) <==> (data as bv32) & 0x4000_0000 != 0
  {
  }

  /** Once completed, an entry stays completed through every transition. */
  lemma CompletedStaysCompleted<V>(s: EntryState<V>, v: V, ttl: Option<TimeSpan>, nowSec: uint32, max: uint16)
    requires IsCompleted(s)
    ensures IsCompleted(Claim(s)) && IsCompleted(Unclaim(s))
    ensures IsCompleted(Publish(s, v, ttl, nowSec)) && IsCompleted(PublishEmpty(s, ttl, nowSec))
    ensures IsCompleted(EnterQueue(s, max).1)
  {
  }

  /** A claimable entry is completed, and stays claimable as the clock moves on until it is claimed. */
  lemma ClaimableLater<V>(s: EntryState<V>, nowSec: uint32, later: uint32)
    requires Claimable(s, nowSec) && nowSec <= later
    ensures IsCompleted(s) && Claimable(s, later)
  {
  }

  // ---------------------------------------------------------------------
  // The entry object.

  class ProCacheEntry<V> {
    var outdatedSec: int64
    var value: Option<V>
    var data: uint32
    /** The task of the completion the entry was created with. */
    var task: Task<Option<V>>

    function State(): EntryState<V>
      reads this
    {
      EntryState(outdatedSec, value, data, task)
    }

    ghost predicate Valid()
      reads this
    {
      WellFormed(State())
    }

    /** `new ProCacheEntry(completion.Task, outdated_ttl)`. */
    constructor (outdatedTtl: TimeSpan, nowSec: uint32)
      ensures Valid()
      ensures State() == NewEntry(outdatedTtl, nowSec)
    {
      outdatedSec := GetOutdatedSec(nowSec, outdatedTtl);
      value := None;
      data := 0;
      task := Pending;
    }

    /** `Outdated()`: claims the refresh when the deadline has passed. */
    method Outdated(nowSec: uint32) returns (claimed: bool)
      modifies this
      ensures Valid() == old(Valid())
      ensures claimed == Claimable(old(State()), nowSec)
      ensures State() == if claimed then Claim(old(State())) else old(State())
    {
      var outdated := outdatedSec;
      if outdated > nowSec || !task.IsCompleted() {
        return false;
      }
      outdatedSec := WithClaimBit(outdated);
      claimed := true;
    }

    /** `Reset(value, outdated_ttl)`. */
    method ResetValue(v: V, ttl: Option<TimeSpan>, nowSec: uint32)
      modifies this
      ensures Valid()
      ensures State() == Publish(old(State()), v, ttl, nowSec)
    {
      value := Some(v);
      data := HASVALUE_BIT;
      if ttl.Some? {
        outdatedSec := GetOutdatedSec(nowSec, ttl.value);
      }
    }

    /** `Reset(outdated_ttl)`. */
    method ResetEmpty(ttl: Option<TimeSpan>, nowSec: uint32)
      modifies this
      ensures Valid()
      ensures State() == PublishEmpty(old(State()), ttl, nowSec)
    {
      value := None;
      data := ISEMPTY_BIT + HASVALUE_BIT;
      if ttl.Some? {
        outdatedSec := GetOutdatedSec(nowSec, ttl.value);
      }
    }

    /** `Reset()`. */
    method Reset()
      modifies this
      ensures Valid() == old(Valid())
      ensures State() == Unclaim(old(State()))
    {
      outdatedSec := WithoutClaimBit(outdatedSec);
    }

    /** `TryEnterQueue(max_queue_size)`. */
    method TryEnterQueue(max: uint16) returns (admitted: bool)
      requires Valid()
      modifies this
      ensures Valid()
      ensures (admitted, State()) == EnterQueue(old(State()), max)
    {
      TransitionsPreserveWellFormed(State(), max);
      if HasValueWord(data) || task.IsCompleted() {
        return true;
      }
      if QueueSizeWord(data) >= max {
        return false;
      }
      data := (data + 1) % TWO_POW_32;
      admitted := QueueSizeWord(data) <= max;
    }

    /** `completion.SetResult(r)` on the completion behind `task`. */
    method SetResult(r: Option<V>)
      requires task.Pending?
      modifies this
      ensures State() == old(State()).(task := Completed(r))
    {
      task := Completed(r);
    }

    /** `completion.SetException(ex)`: the completion must still be pending. */
    method SetException()
      requires task.Pending?
      modifies this
      ensures State() == old(State()).(task := Faulted)
    {
      task := Faulted;
    }

    /** `completion.TrySetException(ex)`: faults a pending completion only. */
    method TrySetException()
      modifies this
      ensures State() == old(State()).(task := if old(task).Pending? then Faulted else old(task))
    {
      if task.Pending? {
        task := Faulted;
      }
    }
  }
}
