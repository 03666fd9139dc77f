/**
 * The process-wide low-resolution clock of the proactive cache. A 32-bit
 * millisecond tick count (which wraps every ~49.7 days) is extended to a
 * 64-bit millisecond clock, from which the whole-second clock that all TTL
 * arithmetic reads is derived.
 */
module ProCacheTimers {
  import opened Common

  function Low32(x: uint64): uint32 { x % TWO_POW_32 }

  function High32(x: uint64): uint32 { x / TWO_POW_32 }

  /**
   * One step of the tick handler: if the new 32-bit tick is below the low
   * half of the current clock, the tick count wrapped, so the high half is
   * carried (a 64-bit unchecked add); the low half is then replaced by the
   * new tick.
   */
  function Advance(nowMs: uint64, tick: uint32): uint64
  {
    var t := if tick < nowMs % TWO_POW_32 then (nowMs + TWO_POW_32) % TWO_POW_64 else nowMs;
    (t / TWO_POW_32) * TWO_POW_32 + tick
  }

  /** `(uint)(nowMs / 1000)`: whole seconds, truncated to 32 bits. */
  function SecondsOf(nowMs: uint64): uint32
  {
    (nowMs / 1000) % TWO_POW_32
  }

  /**
   * Until the whole seconds outgrow 32 bits, the seconds are those of the
   * millisecond clock and never go back while it moves on.
   */
  lemma SecondsFollowClock(nowMs: uint64, laterMs: uint64)
    requires nowMs <= laterMs < 1000 * TWO_POW_32
    ensures SecondsOf(nowMs) * 1000 <= nowMs < (SecondsOf(nowMs) + 1) * 1000
    ensures SecondsOf(nowMs) <= SecondsOf(laterMs)
  {
  }

  /** After a tick the low half of the clock is the new tick count. */
  lemma AdvanceLowIsTick(nowMs: uint64, tick: uint32)
    ensures Low32(Advance(nowMs, tick)) == tick
  {
    var t := if tick < nowMs % TWO_POW_32 then (nowMs + TWO_POW_32) % TWO_POW_64 else nowMs;
    assert Advance(nowMs, tick) == (t / TWO_POW_32) * TWO_POW_32 + tick;
  }

  /** Without wrap-around the high half is unchanged. */
  lemma AdvanceKeepsHigh(nowMs: uint64, tick: uint32)
    requires tick >= Low32(nowMs)
    ensures High32(Advance(nowMs, tick)) == High32(nowMs)
  {
  }

  /**
   * On wrap-around the high half grows by exactly one, that is the clock
   * grows by 2^32 milliseconds beyond the plain replacement of its low half,
   * unless the high half itself is already at its maximum.
   */
  lemma AdvanceCarriesOnWrap(nowMs: uint64, tick: uint32)
    requires tick < Low32(nowMs)
    requires High32(nowMs) < TWO_POW_32 - 1
    ensures High32(Advance(nowMs, tick)) == High32(nowMs) + 1
    ensures Advance(nowMs, tick) == High32(nowMs) * TWO_POW_32 + TWO_POW_32 + tick
  {
    var t := (nowMs + TWO_POW_32) % TWO_POW_64;
    assert t == nowMs + TWO_POW_32;
    assert t / TWO_POW_32 == nowMs / TWO_POW_32 + 1;
  }

  /**
   * The extended clock never goes backwards from one tick to the next,
   * barring overflow of its 32-bit high half.
   */
  lemma AdvanceMonotonic(nowMs: uint64, tick: uint32)
    requires High32(nowMs) < TWO_POW_32 - 1
    ensures nowMs <= Advance(nowMs, tick)
  {
    if tick < Low32(nowMs) {
      AdvanceCarriesOnWrap(nowMs, tick);
    } else {
      AdvanceKeepsHigh(nowMs, tick);
      AdvanceLowIsTick(nowMs, tick);
    }
  }

  /**
   * The static clock state (`_nowMs`, `_nowSec`). The timer that calls
   * `Elapsed` once a second, and `Environment.TickCount` itself, are not
   * modelled: the tick count is a parameter.
   */
  class ProCacheTimer {
    var nowMs: uint64
    var nowSec: uint32

    ghost predicate Valid()
      reads this
    {
      nowSec == SecondsOf(nowMs)
    }

    /** Static initialisation from `Environment.TickCount`. */
    constructor (tickCount: int32)
      ensures Valid()
      ensures High32(nowMs) == 0 && nowMs == ToUInt32(tickCount)
      ensures nowSec == nowMs / 1000
    {
      nowMs := ToUInt32(tickCount);
      nowSec := (ToUInt32(tickCount) / 1000) % TWO_POW_32;
    }

    /** The body of the timer's Elapsed handler. */
    method Elapsed(tickCount: int32)
      modifies this
      ensures Valid()
      ensures nowMs == Advance(old(nowMs), ToUInt32(tickCount))
      ensures Low32(nowMs) == ToUInt32(tickCount)
      ensures High32(old(nowMs)) < TWO_POW_32 - 1 ==> old(nowMs) <= nowMs
    {
      var now := ToUInt32(tickCount);
      var t := nowMs;
      var f := t % TWO_POW_32;
      if now < f {
        t := (t + TWO_POW_32) % TWO_POW_64;
      }
      nowMs := (t / TWO_POW_32) * TWO_POW_32 + now;
      nowSec := (nowMs / 1000) % TWO_POW_32;
      AdvanceLowIsTick(old(nowMs), now);
      if High32(old(nowMs)) < TWO_POW_32 - 1 {
        AdvanceMonotonic(old(nowMs), now);
      }
    }
  }
}
