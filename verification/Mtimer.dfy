/** The machine timer driver for a 32-bit bus (include/riscv/timer.hpp:43-126) and the clock made from
    it (include/riscv/scheduler-timer-mtimer.hpp:20-34).  The register pair is that of section 3.2.1 of
    the RISC-V Privileged Architecture, version 20211203. */
module Mtimer {
  import opened WakeOrder

  const WORD := 0x1_0000_0000
  const DOUBLE := 0x1_0000_0000_0000_0000
  const ALL_ONES := 0xFFFF_FFFF
  const INT_RANGE := 0x8000_0000
  const NS_PER_S := 1_000_000_000

  type u32 = x: nat | x < WORD
  type u64 = x: nat | x < DOUBLE

  function High(x: u64): u32 { x / WORD }
  function Low(x: u64): u32 { x % WORD }
  function Pair(high: u32, low: u32): u64 { high * WORD + low }

  function Min(a: nat, b: nat): nat { if a < b then a else b }

  // ---------------------------------------------------------------- reading the counter in halves

  /** Equal high words around a low-word read belong to it. */
  lemma NotTorn(before: u64, at: u64, after: u64)
    requires before <= at <= after && High(before) == High(after)
    ensures High(before) * 0x1_0000_0000 + Low(at) == Pair(High(before), Low(at)) == at
  {
  }

  lemma HighGrows(a: u64, b: u64, c: u64)
    requires a <= b <= c
    ensures High(a) != High(b) ==> High(a) < High(c)
  {
  }

  /** Without the second read of the high word, the value is the counter at the low-word read exactly
      when the high word has not moved, and lies between the two reads exactly when the low word has
      not gone back; otherwise it is one at which the counter never stood while it was read. */
  lemma UncheckedReadIff(before: u64, at: u64)
    requires before <= at
    ensures Pair(High(before), Low(at)) == at <==> High(before) == High(at)
    ensures before <= Pair(High(before), Low(at)) <= at <==> Low(before) <= Low(at)
  {
  }

  /** The registers.  `time(k)` is the value of mtime at the k-th bus access: it may advance by any
      amount between two accesses. */
  class Timer {
    const time: nat -> u64
    var accesses: nat
    var cmpHigh: u32
    var cmpLow: u32
    ghost var stores: seq<u64>    // mtimecmp after each store

    ghost predicate Valid() {
      forall i, j :: 0 <= i <= j ==> time(i) <= time(j)
    }

    function Cmp(): u64
      reads this
    {
      Pair(cmpHigh, cmpLow)
    }

    constructor (time: nat -> u64, cmp: u64)
      requires forall i, j :: 0 <= i <= j ==> time(i) <= time(j)
      ensures Valid() && this.time == time && Cmp() == cmp && accesses == 0 && stores == []
    {
      this.time, accesses, cmpHigh, cmpLow, stores := time, 0, High(cmp), Low(cmp), [];
    }

    method ReadHigh() returns (v: u32)
      modifies this`accesses
      ensures v == High(time(old(accesses))) && accesses == old(accesses) + 1
    {
      v := High(time(accesses));
      accesses := accesses + 1;
    }

    method ReadLow() returns (v: u32)
      modifies this`accesses
      ensures v == Low(time(old(accesses))) && accesses == old(accesses) + 1
    {
      v := Low(time(accesses));
      accesses := accesses + 1;
    }

    method StoreHigh(v: u32)
      modifies this`accesses, this`cmpHigh, this`stores
      ensures cmpHigh == v && accesses == old(accesses) + 1 && stores == old(stores) + [Pair(v, cmpLow)]
    {
      cmpHigh := v;
      accesses := accesses + 1;
      stores := stores + [Pair(v, cmpLow)];
    }

    method StoreLow(v: u32)
      modifies this`accesses, this`cmpLow, this`stores
      ensures cmpLow == v && accesses == old(accesses) + 1 && stores == old(stores) + [Pair(cmpHigh, v)]
    {
      cmpLow := v;
      accesses := accesses + 1;
      stores := stores + [Pair(cmpHigh, v)];
    }

    /** One pass of the loop: high word, low word, high word again. */
    method ReadThree() returns (high: u32, low: u32, again: u32)
      modifies this`accesses
      ensures accesses == old(accesses) + 3
      ensures high == High(time(accesses - 3)) && low == Low(time(accesses - 2)) && again == High(time(accesses - 1))
    {
      high := ReadHigh();
      low := ReadLow();
      again := ReadHigh();
    }

    /** The three-read loop ends and returns mtime as it was at the instant of its last low-word read,
        the access before the last. */
    method GetRawTime() returns (t: u64)
      requires Valid()
      modifies this`accesses
      ensures accesses >= old(accesses) + 3 && t == time(accesses - 2)
    {
      var high, low, again := ReadThree();
      while high != again
        invariant accesses >= old(accesses) + 3
        invariant high == High(time(accesses - 3)) && low == Low(time(accesses - 2)) && again == High(time(accesses - 1))
        decreases WORD - high
      {
        HighGrows(time(accesses - 3), time(accesses - 1), time(accesses));
        high, low, again := ReadThree();
      }
      NotTorn(time(accesses - 3), time(accesses - 2), time(accesses - 1));
      t := Pair(high, low);
    }

    /** mtimecmp := mtime + clock_offset, in 64 bits, in three stores.  No store leaves a value below
        both the old and the new one. */
    method SetRawTimeCmp(offset: u64)
      requires Valid()
      modifies this
      ensures accesses >= old(accesses) + 6
      ensures Cmp() == (time(accesses - 5) + offset) % 0x1_0000_0000_0000_0000
      ensures stores == old(stores) + [Pair(0xFFFF_FFFF, Low(old(Cmp()))), Pair(0xFFFF_FFFF, Low(Cmp())), Cmp()]
      ensures forall i :: |old(stores)| <= i < |stores| ==> stores[i] >= Min(old(Cmp()), Cmp())
    {
      var now := GetRawTime();
      var cmp: u64 := (now + offset) % DOUBLE;
      StoresStaySafe(Cmp(), cmp);
      StoreHigh(ALL_ONES);
      StoreLow(Low(cmp));
      StoreHigh(High(cmp));
    }

    /** `get_time<duration>()` */
    method GetTime(f: int) returns (now: int, ghost mtime: u64)
      requires Valid() && f > 0
      modifies this`accesses
      ensures accesses >= old(accesses) + 3 && mtime == time(accesses - 2) && now == Now(mtime, f)
    {
      var t := GetRawTime();
      mtime := t;
      now := TicksToNs(ToInt(t), f);
    }

    /** `set_time_cmp(ns)`: the ticks pass through `int` and are converted to 64 bits unsigned. */
    method SetTimeCmp(ns: int, f: int)
      requires Valid() && f > 0
      modifies this
      ensures accesses >= old(accesses) + 6
      ensures Cmp() == (time(accesses - 5) + ToInt(NsToTicks(ns, f))) % DOUBLE
    {
      var ticks := ToInt(NsToTicks(ns, f));
      SetRawTimeCmp(ticks % DOUBLE);
      AddUnsigned(time(accesses - 5), ticks);
    }

    /** What the busy loop does with a reported condition: program the timer for its remaining delay.
        For a condition already past that is the counter as it stands, so the interrupt is pending at
        once.  With all values in the range of `int`, the clock at the programmed tick is less than a
        tick and a nanosecond before the expiry, and after it by no more than the time between the
        two reads of the counter. */
    method ProgramWake(expiry: int, f: int) returns (ghost m1: u64, ghost m2: u64)
      requires Valid() && 0 < f <= NS_PER_S
      modifies this
      ensures accesses >= 5 && m1 <= m2 == time(accesses - 5)
      ensures expiry <= Now(m1, f) ==> Cmp() == m2
      ensures var ticks := (expiry - Now(m1, f)) * f / 1_000_000_000;
              expiry > Now(m1, f) && m2 + ticks < 0x8000_0000 ==>
                && Cmp() == m2 + ticks
                && var clock := Now(Cmp(), f);
                   expiry * f - NS_PER_S - f < clock * f < (expiry + 1) * f + (m2 - m1) * NS_PER_S
      ensures Cmp() == WakeTick(m1, m2, expiry, f)
    {
      var now;
      now, m1 := GetTime(f);
      ghost var read := accesses - 2;
      hide TicksToNs, NsToTicks, ToInt, Remaining;
      SetTimeCmp(Remaining(expiry, now), f);
      m2 := time(accesses - 5);
      assert time(read) <= time(accesses - 5);
      PastExpiry(m1, m2, expiry, f);
      WakeValue(m1, m2, expiry, f);
    }
  }

  lemma StoresStaySafe(old_: u64, new_: u64)
    ensures Pair(ALL_ONES, Low(old_)) >= old_
    ensures Pair(ALL_ONES, Low(new_)) >= new_
    ensures Pair(High(new_), Low(new_)) == new_
  {
  }

  /** So a timer interrupt pending after one of the first two stores, at whatever time, would be
      pending under the old or the new value as well. */
  lemma NoSpuriousInterrupt(old_: u64, new_: u64, now: u64)
    requires now >= Pair(ALL_ONES, Low(old_)) || now >= Pair(ALL_ONES, Low(new_))
    ensures now >= old_ || now >= new_
  {
    StoresStaySafe(old_, new_);
  }

  /** Without the first store, the low word first, that holds exactly when the high word does not grow
      or the low word does not shrink. */
  lemma TwoStoresSafeIff(old_: u64, new_: u64)
    ensures Pair(High(old_), Low(new_)) >= Min(old_, new_) <==> High(new_) <= High(old_) || Low(new_) >= Low(old_)
  {
  }

  // ---------------------------------------------------------------- ticks and durations

  /** Integer division in C++: towards zero. */
  function TruncDiv(a: int, b: int): int
    requires b > 0
  {
    if a >= 0 then a / b else -((-a) / b)
  }

  /** The remainder is smaller than the divisor and has the sign of the dividend. */
  lemma TruncDivRemainder(a: int, b: int)
    requires b > 0
    ensures var r := a - TruncDiv(a, b) * b;
            -b < r < b && (a >= 0 ==> r >= 0) && (a <= 0 ==> r <= 0)
  {
    if a >= 0 { DivBounds(a, b); } else { DivBounds(-a, b); }
  }

  /** Conversion to the 32-bit `int` that counts ticks: the one value in its range that agrees in the
      low 32 bits. */
  function ToInt(x: int): (r: int)
    ensures -0x8000_0000 <= r < 0x8000_0000 && (x - r) % 0x1_0000_0000 == 0
    ensures r == x <==> -0x8000_0000 <= x < 0x8000_0000
  {
    var w := x % WORD;
    if w < INT_RANGE then w else w - WORD
  }

  /** Adding a negative offset in unsigned arithmetic. */
  lemma AddUnsigned(a: u64, x: int)
    requires -INT_RANGE <= x < INT_RANGE
    ensures (a + x % DOUBLE) % DOUBLE == (a + x) % DOUBLE
  {
    assert x % DOUBLE == if x >= 0 then x else x + DOUBLE;
  }

  /** duration_cast from ticks of frequency f to nanoseconds, and back. */
  function TicksToNs(ticks: int, f: int): int
    requires f > 0
  {
    TruncDiv(ticks * NS_PER_S, f)
  }

  function NsToTicks(ns: int, f: int): int
    requires f > 0
  {
    TruncDiv(ns * f, NS_PER_S)
  }

  /** `mtimer_clock::now()` when the counter reads `mtime`. */
  function Now(mtime: u64, f: int): int
    requires f > 0
  {
    TicksToNs(ToInt(mtime), f)
  }

  /** `schedule_by_delay::delay()` */
  function Remaining(expiry: int, now: int): (r: int)
    ensures r >= 0
  {
    if expiry > now then expiry - now else 0
  }

  lemma DivBounds(a: int, b: int)
    requires a >= 0 && b > 0
    ensures 0 <= (a / b) * b <= a < (a / b) * b + b && a / b >= 0
  {
  }

  lemma TicksToNsBounds(ticks: int, f: int)
    requires ticks >= 0 && f > 0
    ensures var c := TicksToNs(ticks, f);
            c >= 0 && c * f <= ticks * NS_PER_S < c * f + f
  {
    DivBounds(ticks * NS_PER_S, f);
  }

  lemma NsToTicksBounds(ns: int, f: int)
    requires ns >= 0 && f > 0
    ensures var t := NsToTicks(ns, f);
            t >= 0 && t * NS_PER_S <= ns * f < t * NS_PER_S + NS_PER_S
  {
    assert ns * f >= 0;
    DivBounds(ns * f, NS_PER_S);
  }

  lemma MulOrder(a: int, b: int, f: int)
    requires f > 0
    ensures a * f < b * f <==> a < b
    ensures a * f <= b * f <==> a <= b
  {
  }

  /** The compare tick, for a delay taken at tick m1 and programmed at tick m2. */
  lemma CompareTick(m1: int, m2: int, expiry: int, f: int)
    requires 0 < f <= NS_PER_S && 0 <= m1 <= m2 && expiry >= TicksToNs(m1, f)
    ensures var ticks := NsToTicks(expiry - TicksToNs(m1, f), f);
            var clock := TicksToNs(m2 + ticks, f);
            && ticks >= 0
            && expiry * f - NS_PER_S - f < clock * f < (expiry + 1) * f + (m2 - m1) * NS_PER_S
  {
    var now := TicksToNs(m1, f);
    var ticks := NsToTicks(expiry - now, f);
    TicksToNsBounds(m1, f);
    NsToTicksBounds(expiry - now, f);
    TicksToNsBounds(m2 + ticks, f);
    assert (expiry - now) * f == expiry * f - now * f;
    assert (expiry + 1) * f == expiry * f + f;
  }

  /** The compare value for a delay taken at m1 and programmed at m2, as the driver computes it. */
  function WakeTick(m1: u64, m2: u64, expiry: int, f: int): u64
    requires f > 0
  {
    (m2 + ToInt(NsToTicks(Remaining(expiry, Now(m1, f)), f))) % DOUBLE
  }

  lemma WakeValue(m1: u64, m2: u64, expiry: int, f: int)
    requires 0 < f <= NS_PER_S && m1 <= m2
    ensures var ticks, cmp := (expiry - Now(m1, f)) * f / 1_000_000_000, WakeTick(m1, m2, expiry, f);
            expiry > Now(m1, f) && m2 + ticks < 0x8000_0000 ==>
              && cmp == m2 + ticks
              && var clock := Now(cmp, f);
                 expiry * f - NS_PER_S - f < clock * f < (expiry + 1) * f + (m2 - m1) * NS_PER_S
  {
    if expiry > Now(m1, f) {
      var ns := expiry - Now(m1, f);
      assert NsToTicks(ns, f) == ns * f / 1_000_000_000 by { assert ns * f >= 0; }
      NsToTicksBounds(ns, f);
      if m2 + NsToTicks(ns, f) < INT_RANGE {
        CompareTick(m1, m2, expiry, f);
      }
    }
  }

  /** A condition that has passed is programmed for now. */
  lemma PastExpiry(m1: u64, m2: u64, expiry: int, f: int)
    requires f > 0
    ensures expiry <= Now(m1, f) ==> WakeTick(m1, m2, expiry, f) == m2
  {
    assert 0 * f == 0;
  }

  /** A second is f ticks and 10^9 nanoseconds. */
  lemma OneSecond(f: int)
    requires 0 < f
    ensures TicksToNs(f, f) == 1_000_000_000 && NsToTicks(1_000_000_000, f) == f
  {
    DivBounds(f * NS_PER_S, f);
    assert TicksToNs(f, f) * f <= f * NS_PER_S < (TicksToNs(f, f) + 1) * f;
    MulOrder(NS_PER_S, TicksToNs(f, f) + 1, f);
    MulOrder(TicksToNs(f, f), NS_PER_S, f);
  }

  /** With both reads at the same tick, the programmed tick is never late: the strict wake test does
      not find the entry due there, but does two ticks later. */
  lemma DueJustAfterCompare(m: int, expiry: int, f: int)
    requires 0 < f <= NS_PER_S && 0 <= m && expiry >= TicksToNs(m, f)
    ensures var tick := m + NsToTicks(expiry - TicksToNs(m, f), f);
            && !DELAY(expiry, TicksToNs(tick, f))
            && DELAY(expiry, TicksToNs(tick + 2, f))
  {
    var now := TicksToNs(m, f);
    var ticks := NsToTicks(expiry - now, f);
    CompareTick(m, m, expiry, f);
    MulOrder(TicksToNs(m + ticks, f), expiry + 1, f);
    TicksToNsBounds(m, f);
    NsToTicksBounds(expiry - now, f);
    TicksToNsBounds(m + ticks + 2, f);
    assert (expiry - now) * f == expiry * f - now * f;
    MulOrder(expiry, TicksToNs(m + ticks + 2, f), f);
  }

  /** Ticks to nanoseconds and back loses one tick exactly when the tick does not start on a whole
      nanosecond. */
  lemma TicksRoundTrip(t: int, f: int)
    requires 0 < f <= NS_PER_S && t >= 0
    ensures NsToTicks(TicksToNs(t, f), f) == if (t * NS_PER_S) % f == 0 then t else t - 1
  {
    var c := TicksToNs(t, f);
    TicksToNsBounds(t, f);
    NsToTicksBounds(c, f);
    assert t * NS_PER_S == c * f + (t * NS_PER_S) % f;
  }

  /** It loses none when the frequency divides 10^9. */
  lemma ExactFrequency(t: int, f: int)
    requires 0 < f <= NS_PER_S && t >= 0 && NS_PER_S % f == 0
    ensures NsToTicks(TicksToNs(t, f), f) == t
  {
    var k := NS_PER_S / f;
    assert NS_PER_S == k * f;
    assert t * NS_PER_S == (t * k) * f;
    TicksToNsBounds(t, f);
    NsToTicksBounds(TicksToNs(t, f), f);
    MulOrder(TicksToNs(t, f), t * k, f);
    assert (TicksToNs(t, f) + 1) * f == TicksToNs(t, f) * f + f;
    MulOrder(t * k, TicksToNs(t, f) + 1, f);
  }

  // ---------------------------------------------------------------- how far the clock can be trusted

  lemma LaterTickLaterClock(t1: int, t2: int, f: int)
    requires 0 < f <= NS_PER_S && t1 < t2
    ensures TicksToNs(t1, f) <= TicksToNs(t2, f)
    ensures t2 > 0 ==> TicksToNs(t1, f) < TicksToNs(t2, f)
  {
    if t1 >= 0 {
      TicksToNsBounds(t1, f);
      TicksToNsBounds(t2, f);
      assert (TicksToNs(t2, f) + 1) * f == TicksToNs(t2, f) * f + f;
      assert TicksToNs(t1, f) * f + f <= t1 * NS_PER_S + NS_PER_S <= t2 * NS_PER_S;
      MulOrder(TicksToNs(t1, f) + 1, TicksToNs(t2, f) + 1, f);
      assert (TicksToNs(t1, f) + 1) * f == TicksToNs(t1, f) * f + f;
    } else {
      TicksToNsBounds(-t1, f);
      if t2 >= 0 {
        TicksToNsBounds(t2, f);
        if t2 > 0 {
          assert (TicksToNs(t2, f) + 1) * f == TicksToNs(t2, f) * f + f;
          MulOrder(1, TicksToNs(t2, f) + 1, f);
        }
      } else {
        TicksToNsBounds(-t2, f);
        MulOrder(TicksToNs(-t2, f), TicksToNs(-t1, f) + 1, f);
        assert (TicksToNs(-t1, f) + 1) * f == TicksToNs(-t1, f) * f + f;
      }
    }
  }

  /** The clock is the counter's time exactly as long as the counter is in the range of `int`. */
  lemma NowIsTimeIff(mtime: u64, f: int)
    requires 0 < f <= NS_PER_S
    ensures Now(mtime, f) == TicksToNs(mtime, f) <==> mtime < 0x8000_0000
  {
    if mtime >= INT_RANGE {
      LaterTickLaterClock(ToInt(mtime), mtime, f);
    }
  }

  /** And it runs forwards on the readings below a bound exactly when the bound is in that range. */
  lemma RunsForwardsIff(bound: nat, f: int)
    requires 0 < f <= NS_PER_S && bound <= DOUBLE
    ensures (forall m1: u64, m2: u64 :: m1 <= m2 < bound ==> Now(m1, f) <= Now(m2, f)) <==> bound <= 0x8000_0000
  {
    if bound <= INT_RANGE {
      forall m1: u64, m2: u64 | m1 <= m2 < bound ensures Now(m1, f) <= Now(m2, f) {
        if m1 < m2 { LaterTickLaterClock(m1, m2, f); }
      }
    } else {
      var last: u64, wrapped: u64 := INT_RANGE - 1, INT_RANGE;
      assert ToInt(wrapped) == -INT_RANGE;
      LaterTickLaterClock(ToInt(wrapped), last, f);
      assert Now(last, f) > Now(wrapped, f);
    }
  }
}
