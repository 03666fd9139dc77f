/**
 * Value types shared by both cache generations: the integer widths of the
 * runtime, task states, producer outcomes and TimeSpan arithmetic.
 */
module Common {

  type uint16 = x: int | 0 <= x < 0x1_0000
  type int32 = x: int | -0x8000_0000 <= x < 0x8000_0000
  type uint32 = x: int | 0 <= x < 0x1_0000_0000
  type int64 = x: int | -0x8000_0000_0000_0000 <= x < 0x8000_0000_0000_0000
  type uint64 = x: int | 0 <= x < 0x1_0000_0000_0000_0000

  const TWO_POW_32: int := 0x1_0000_0000
  const TWO_POW_64: int := 0x1_0000_0000_0000_0000

  /** The unchecked `(uint)` cast of a 32-bit signed integer. */
  function ToUInt32(x: int32): (u: uint32)
    ensures (u - x) % TWO_POW_32 == 0
    ensures x >= 0 ==> u == x
  {
    if x < 0 then x + TWO_POW_32 else x
  }

  datatype Option<T> = None | Some(value: T)

  /**
   * The state of a task as the caches observe it. `IsCompleted` is true for a
   * faulted task too, as it is for System.Threading.Tasks.Task.
   */
  datatype Task<T> = Pending | Completed(result: T) | Faulted {
    predicate IsCompleted() { !Pending? }
  }

  /** What the producer did: returned a value or threw. */
  datatype Outcome<T> = Ok(value: T) | Fail

  /**
   * How the producer's ValueTask looks when the cache first inspects it:
   * already finished (`Now`), or still running (`Later`), in which case the
   * continuation runs in a separate call.
   */
  datatype Answer<T> = Now(outcome: Outcome<T>) | Later

  /** The task a caller awaiting the producer directly ends up with. */
  function AnswerTask<T>(a: Answer<T>): (t: Task<Option<T>>)
    ensures t.Pending? <==> a.Later?
    ensures t.Faulted? <==> a == Now(Fail)
    ensures t.Completed? <==> a.Now? && a.outcome.Ok?
    ensures t.Completed? ==> t.result == Some(a.outcome.value)
  {
    match a
    case Later => Pending
    case Now(Fail) => Faulted
    case Now(Ok(v)) => Completed(Some(v))
  }

  /** A TimeSpan is a signed 64-bit count of 100-nanosecond ticks. */
  type TimeSpan = int64

  const TICKS_PER_SECOND: int := 10_000_000
  const ZERO_TTL: TimeSpan := 0

  /**
   * `ttl.Ticks / TimeSpan.TicksPerSecond`: C#'s long division, which
   * truncates toward zero (so a negative ttl of -0.5s gives 0, not -1).
   */
  function WholeSeconds(ttl: TimeSpan): (s: int)
    ensures 0 <= ttl ==> 0 <= s && s * TICKS_PER_SECOND <= ttl < (s + 1) * TICKS_PER_SECOND
    ensures ttl < 0 ==> s <= 0 && (s - 1) * TICKS_PER_SECOND < ttl <= s * TICKS_PER_SECOND
    ensures -0x100_0000_0000 < s < 0x100_0000_0000
  {
    var t: int := ttl;
    if t >= 0 then t / TICKS_PER_SECOND else -((-t) / TICKS_PER_SECOND)
  }

  /** A ttl shorter than one second rounds down to zero whole seconds. */
  lemma SubSecondTtlIsZero(ttl: TimeSpan)
    requires -TICKS_PER_SECOND < ttl < TICKS_PER_SECOND
    ensures WholeSeconds(ttl) == 0
  {
  }

  /** The configuration check shared by every cache constructor. */
  predicate TtlsConsistent(outdateTtl: TimeSpan, expireTtl: TimeSpan)
  {
    outdateTtl <= expireTtl
  }

  /** `ArgumentException` thrown by a constructor. */
  datatype ConfigError = OutdateTtlExceedsExpireTtl

  /** The keys of a list of pairs. */
  function KeysOf<K, E>(pairs: seq<(K, E)>): set<K>
  {
    set i | 0 <= i < |pairs| :: pairs[i].0
  }

  lemma KeysOfAppend<K, E>(pairs: seq<(K, E)>, p: (K, E))
    ensures KeysOf(pairs + [p]) == KeysOf(pairs) + {p.0}
  {
    var r := pairs + [p];
    assert r[|pairs|] == p;
    forall k | k in KeysOf(pairs)
      ensures k in KeysOf(r)
    {
      var i :| 0 <= i < |pairs| && pairs[i].0 == k;
      assert r[i] == pairs[i];
    }
  }

}
