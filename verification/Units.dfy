/** Delays in microseconds, expiries in nanoseconds and timer ticks together: the way of a delay from
    `co_await` (include/coro/scheduler.hpp:57-60) to the compare register of the timer
    (src/example_timer.cpp:102-104). */
module Units {
  import opened Sequences
  import opened WakeOrder
  import opened OrderedRuns
  import opened TimedRuns
  import opened Mtimer

  lemma DivScale(a: int, b: int, k: int)
    requires a >= 0 && b > 0 && k > 0
    ensures k * b > 0 && (k * a) / (k * b) == a / b
  {
    var q, r := a / b, a % b;
    assert a == q * b + r && 0 <= r < b;
    assert k * a == q * (k * b) + k * r;
    assert 0 <= k * r < k * b;
    DivUnique(k * a, k * b, q, k * r);
  }

  lemma DivUnique(a: int, b: int, q: int, r: int)
    requires a >= 0 && b > 0 && a == q * b + r && 0 <= r < b
    ensures a / b == q
  {
    var q' := a / b;
    DivBounds(a, b);
    MulOrder(q, q' + 1, b);
    MulOrder(q', q + 1, b);
    assert (q + 1) * b == q * b + b && (q' + 1) * b == q' * b + b;
  }

  /** A delay of d microseconds awaited when the counter reads m, and programmed at once, sets the
      compare register d * f / 10^6 ticks ahead, f being the ticks of a second. */
  lemma DelayIsTicks(t: Timed, task: nat, d: nat, m: u64, f: int)
    requires 0 < f <= 1_000_000_000 && |t.sys.waiting| < t.sys.cap
    requires t.clock == Now(m, f) && m + d * f / 1_000_000 < 0x8000_0000
    ensures var ws := PutDelay(t, task, d).sys.waiting;
            exists i :: 0 <= i < |ws| && ws[i].handle == Stamp(task, |t.sys.accepted|)
                        && WakeTick(m, m, ws[i].cond, f) == m + d * f / 1_000_000
  {
    var expiry := t.clock + NS_PER_US * d;
    var i := InsertPos(DELAY, t.sys.waiting, expiry);
    assert PutDelay(t, task, d).sys.waiting[i] == Entry(Stamp(task, |t.sys.accepted|), expiry);
    TicksOfDelay(d, f);
    if d == 0 {
      PastExpiry(m, m, expiry, f);
      assert d * f == 0;
    } else {
      WakeValue(m, m, expiry, f);
    }
  }

  lemma TicksOfDelay(d: nat, f: int)
    requires 0 < f
    ensures (1000 * d) * f / 1_000_000_000 == d * f / 1_000_000
  {
    assert d * f >= 0;
    DivScale(d * f, 1_000_000, 1000);
    assert (1000 * d) * f == 1000 * (d * f);
  }
}
