/** The idle timer's arithmetic: seconds and microseconds, with C's truncating division. */
module IdleTimer {

  datatype TimeVal = TimeVal(sec: int, usec: int)
  {
    predicate Valid() { 0 <= usec < 1_000_000 }
    function Micros(): int { 1_000_000 * sec + usec }
  }

  /** Division as in C: the quotient is truncated toward zero. */
  function CDiv(a: int, d: int): int
    requires d > 0
  {
    if a >= 0 then a / d else -(-a / d)
  }

  /** The elapsed milliseconds that check_idle_timeout computes. */
  function ElapsedMs(last: TimeVal, now: TimeVal): int {
    (now.sec - last.sec) * 1000 + CDiv(now.usec - last.usec, 1000)
  }

  /** The true elapsed time in microseconds. */
  function ElapsedUs(last: TimeVal, now: TimeVal): int {
    now.Micros() - last.Micros()
  }

  /**
   When a limit counts as exceeded: never up to the limit itself, always from
   one millisecond past it, and in between exactly when the microsecond field
   has wrapped, which makes the truncation round up.
   */
  lemma ExceededExactly(last: TimeVal, now: TimeVal, limit: int)
    requires last.Valid() && now.Valid()
    ensures ElapsedMs(last, now) > limit <==>
      ElapsedUs(last, now) > 1000 * limit && (now.usec < last.usec || ElapsedUs(last, now) >= 1000 * (limit + 1))
  {
    var us := now.usec - last.usec;
    assert ElapsedUs(last, now) == 1_000_000 * (now.sec - last.sec) + us;
    if us >= 0 {
      assert us == us / 1000 * 1000 + us % 1000;
    } else {
      assert -us == -us / 1000 * 1000 + -us % 1000;
    }
  }

  /** The warning comes at nine tenths of the timeout, rounded down. */
  function WarningTime(idleTimeout: nat): int {
    (idleTimeout as real * 0.9).Floor
  }

  /** The warning time is the largest number of whole milliseconds up to nine tenths of the timeout. */
  lemma WarningTimeExactly(idleTimeout: nat)
    ensures 10 * WarningTime(idleTimeout) <= 9 * idleTimeout < 10 * (WarningTime(idleTimeout) + 1)
  {
    var r := idleTimeout as real * 0.9;
    assert 10.0 * r == 9.0 * idleTimeout as real;
    assert WarningTime(idleTimeout) as real <= r < WarningTime(idleTimeout) as real + 1.0;
  }

  lemma WarningBeforeTimeout(idleTimeout: nat)
    ensures 0 <= WarningTime(idleTimeout) <= idleTimeout
  {
    var r := idleTimeout as real * 0.9;
    assert 0.0 <= r <= idleTimeout as real;
  }
}
