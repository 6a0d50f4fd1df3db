/** Elapsed milliseconds (core/src/stopwatch.c) and the deadline of a timed wait
    (core/src/task.c). */
module Stopwatch {

  const NANOS: int := 1_000_000_000
  const NANOS_PER_MS: int := 1_000_000

  /** `struct timespec`. */
  datatype Timespec = Timespec(sec: int, nsec: int) {
    predicate Normal() { 0 <= nsec < NANOS }

    function Nanos(): int { sec * NANOS + nsec }
  }

  /** Division and remainder of C99: toward zero, the remainder with the sign of the
      dividend (section 6.5.5 of ISO/IEC 9899:1999). */
  function Quotient(a: int, b: int): int
    requires b > 0
  {
    if a >= 0 then a / b else -(-a / b)
  }

  function Remainder(a: int, b: int): int
    requires b > 0
  {
    a - b * Quotient(a, b)
  }

  /** `stopwatch_elapsed_ms`. */
  function ElapsedMs(start: Timespec, now: Timespec): int {
    (now.sec - start.sec) * 1000 + Quotient(now.nsec - start.nsec, NANOS_PER_MS)
  }

  /** Less than a millisecond off, and below the true time only when no second was
      borrowed: a negative nanosecond difference truncates upward. */
  lemma ElapsedClose(start: Timespec, now: Timespec)
    requires start.Normal() && now.Normal()
    ensures var off := ElapsedMs(start, now) * NANOS_PER_MS - (now.Nanos() - start.Nanos());
            if now.nsec >= start.nsec then -NANOS_PER_MS < off <= 0 else 0 <= off < NANOS_PER_MS
  {
  }

  /** It is the whole milliseconds of the true time exactly when no second was borrowed
      or the difference is a whole number of milliseconds. */
  lemma ElapsedFloorExact(start: Timespec, now: Timespec)
    requires start.Normal() && now.Normal()
    ensures ElapsedMs(start, now) == (now.Nanos() - start.Nanos()) / NANOS_PER_MS <==>
            now.nsec >= start.nsec || (start.nsec - now.nsec) % NANOS_PER_MS == 0
  {
  }

  /** The reading never decreases as the clock advances. */
  lemma ElapsedMonotone(start: Timespec, a: Timespec, b: Timespec)
    requires start.Normal() && a.Normal() && b.Normal() && a.Nanos() <= b.Nanos()
    ensures ElapsedMs(start, a) <= ElapsedMs(start, b)
  {
    if a.sec == b.sec {
    } else {
      assert a.sec < b.sec;
      var up, down := (NANOS - 1 - start.nsec) / NANOS_PER_MS, start.nsec / NANOS_PER_MS;
      assert up + down <= 999;
    }
  }

  class Watch {
    var start: Timespec

    constructor (now: Timespec)
      ensures start == now
    {
      start := now;
    }

    method Start(now: Timespec)
      modifies this
      ensures start == now
      ensures ElapsedMs(start, now) == 0
    {
      start := now;
    }

    /** The reading never goes below an earlier one, `past`, of the same start. */
    method Elapsed(now: Timespec, ghost past: Timespec) returns (ms: int)
      requires start.Normal() && past.Normal() && now.Normal()
      requires start.Nanos() <= past.Nanos() <= now.Nanos()
      ensures 0 <= ElapsedMs(start, past) <= ms
      ensures var passed := (now.sec - start.sec) * 1_000_000_000 + (now.nsec - start.nsec);
              -1_000_000 < ms * 1_000_000 - passed < 1_000_000
    {
      var seconds := now.sec - start.sec;
      var nsec := now.nsec - start.nsec;
      ms := seconds * 1000 + Quotient(nsec, NANOS_PER_MS);
      ElapsedMonotone(start, start, past);
      ElapsedMonotone(start, past, now);
      ElapsedClose(start, now);
    }
  }

  // ----------------------------------------------------------------- deadlines

  lemma RemainderBounds(a: int, b: int)
    requires b > 0
    ensures a >= 0 ==> 0 <= Remainder(a, b) < b
    ensures a < 0 ==> -b < Remainder(a, b) <= 0
  {
  }

  /** `timespec_from_monotonic_ms`. */
  method Deadline(now: Timespec, ms: int) returns (ts: Timespec)
    requires now.Normal()
    ensures ts.sec * 1_000_000_000 + ts.nsec == now.sec * 1_000_000_000 + now.nsec + ms * 1_000_000
    ensures ts.Normal() <==> ms >= 0 || now.nsec >= -Remainder(ms, 1000) * NANOS_PER_MS
  {
    var sec := Quotient(ms, 1000);
    var rem := Remainder(ms, 1000);
    RemainderBounds(ms, 1000);
    ts := Timespec(now.sec + sec, now.nsec + rem * NANOS_PER_MS);
    if ts.nsec >= NANOS {
      ts := Timespec(ts.sec + 1, ts.nsec - NANOS);
    }
    assert ms == 1000 * sec + rem;
  }

  /** The worker waits for the head of the queue: a positive time, so its deadline is
      always normal, and is the moment at which the head falls due. */
  method WaitFor(now: Timespec, nowMs: int, headMs: int) returns (ts: Timespec)
    requires now.Normal() && headMs > nowMs
    ensures 0 <= ts.nsec < 1_000_000_000
    ensures (ts.sec - now.sec) * 1_000_000_000 + (ts.nsec - now.nsec) == (headMs - nowMs) * 1_000_000
  {
    ts := Deadline(now, headMs - nowMs);
  }
}
