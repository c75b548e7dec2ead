/** The worker's clock: wrapping 64-bit tick conversion, due times and the sleep split.
    (worker/worker.c, now, nsleep, eventqueue_insert) */
module Clock {
  import opened Integers

  const TWO_63: int := 0x8000_0000_0000_0000
  const TWO_64: int := 0x1_0000_0000_0000_0000
  const NS_PER_MS: int := 1_000_000
  const NS_PER_SEC: int := 1_000_000_000

  type U64 = x: int | 0 <= x < TWO_64

  predicate FitsI64(x: int) {
    -TWO_63 <= x < TWO_63
  }

  /** The uint64_t a value of any integer type converts to. */
  function ToU64(x: int): U64 {
    x % TWO_64
  }

  /** The int64_t a value converts to (two's complement). */
  function ToI64(x: int): int {
    var m := x % TWO_64;
    if m < TWO_63 then m else m - TWO_64
  }

  /** now(): all arithmetic is on uint64_t, the result is returned as int64_t. */
  function Now(tsc: U64, startTsc: U64, kHZ: U64): int
    requires kHZ != 0
  {
    ToI64(ToU64(ToU64(tsc - startTsc) * NS_PER_MS) / kHZ)
  }

  /** eq->start_ns = now() + timer: a uint64_t sum stored in an int64_t. */
  function Due(n: int, waitNs: U64): int {
    ToI64(n + waitNs)
  }

  /** The conversion to int64_t keeps exactly the values that fit. */
  lemma ToI64Exact(x: int)
    ensures FitsI64(ToI64(x))
    ensures ToI64(x) == x <==> FitsI64(x)
  {
    if 0 <= x < TWO_63 {
      assert x % TWO_64 == x;
    } else if -TWO_63 <= x < 0 {
      assert (x + TWO_64) % TWO_64 == x % TWO_64;
    }
  }

  lemma DueExact(n: int, waitNs: U64)
    ensures Due(n, waitNs) == n + waitNs <==> FitsI64(n + waitNs)
  {
    ToI64Exact(n + waitNs);
  }

  /** The ranges of int64_t and uint64_t in figures. */
  lemma DueInFigures(n: int, waitNs: U64)
    ensures 0 <= waitNs <= 18446744073709551615
    ensures Due(n, waitNs) == n + waitNs <==> -9223372036854775808 <= n + waitNs <= 9223372036854775807
    ensures -9223372036854775808 <= Due(n, waitNs) <= 9223372036854775807
    ensures (n + waitNs - Due(n, waitNs)) % 18446744073709551616 == 0
  {
    DueExact(n, waitNs);
    ToI64Exact(n + waitNs);
  }

  /** An over-long wait is due in the past: the element runs at once instead of late. */
  lemma OverlongWaitIsDueInThePast(n: int, waitNs: U64)
    requires 0 <= n < TWO_63 && !FitsI64(n + waitNs)
    ensures Due(n, waitNs) < n
  {
    if n + waitNs < TWO_64 {
      assert (n + waitNs) % TWO_64 == n + waitNs;
    } else {
      assert (n + waitNs) % TWO_64 == n + waitNs - TWO_64;
    }
  }

  lemma ToU64AtMost(x: nat)
    ensures ToU64(x) <= x
  {
  }

  lemma ToI64AtMost(x: nat)
    ensures ToI64(x) <= x
  {
    assert x % TWO_64 <= x;
  }

  /** now() once the tick count has been scaled to 10^-6 kHz units. */
  function FromScaled(scaled: nat, kHZ: U64): int
    requires kHZ != 0
  {
    ToI64(ToU64(scaled) / kHZ)
  }

  lemma NowFromScaled(tsc: U64, startTsc: U64, kHZ: U64)
    requires kHZ != 0 && startTsc <= tsc
    ensures Now(tsc, startTsc, kHZ) == FromScaled((tsc - startTsc) * NS_PER_MS, kHZ)
  {
    assert ToU64(tsc - startTsc) == tsc - startTsc;
  }

  lemma FromScaledExact(scaled: nat, kHZ: U64)
    requires kHZ != 0
    ensures FromScaled(scaled, kHZ) == scaled / kHZ <==> scaled < TWO_64 && FitsI64(scaled / kHZ)
  {
    var low := ToU64(scaled);
    ToI64Exact(low / kHZ);
    DivMono(0, low, kHZ);
    ToI64AtMost(low / kHZ);
    if scaled < TWO_64 {
      assert low == scaled;
    } else {
      assert low + TWO_64 <= scaled;
      DivStrict(low, scaled, kHZ);
    }
  }

  /** The conversion is exact precisely until the scaled tick count leaves 64 bits
      (or, for a clock of 1 kHz, until the quotient leaves int64_t). */
  lemma NowExact(tsc: U64, startTsc: U64, kHZ: U64)
    requires kHZ != 0 && startTsc <= tsc
    ensures var scaled := (tsc - startTsc) * 1_000_000;
            Now(tsc, startTsc, kHZ) == scaled / kHZ <==> scaled < TWO_64 && FitsI64(scaled / kHZ)
  {
    NowFromScaled(tsc, startTsc, kHZ);
    FromScaledExact((tsc - startTsc) * NS_PER_MS, kHZ);
  }

  lemma QuotientFits(scaled: nat, kHZ: int)
    requires 2 <= kHZ && scaled < TWO_64
    ensures FitsI64(scaled / kHZ)
  {
    var q := scaled / kHZ;
    Euclid(scaled, kHZ);
    DivMono(0, scaled, kHZ);
    MulMono(q, 2, kHZ);
  }

  /** A CPU of at least 2 kHz never meets the second condition. */
  lemma NowExactFrom2kHz(tsc: U64, startTsc: U64, kHZ: U64)
    requires 2 <= kHZ && startTsc <= tsc
    ensures var scaled := (tsc - startTsc) * 1_000_000;
            Now(tsc, startTsc, kHZ) == scaled / kHZ <==> scaled < TWO_64
  {
    var scaled := (tsc - startTsc) * NS_PER_MS;
    NowExact(tsc, startTsc, kHZ);
    if scaled < TWO_64 {
      QuotientFits(scaled, kHZ);
    }
  }

  /** Within both bounds time does not run backwards; from 2 kHz on the first is enough. */
  lemma NowMonotone(t0: U64, t1: U64, startTsc: U64, kHZ: U64)
    requires kHZ != 0 && startTsc <= t0 <= t1
    requires (t1 - startTsc) * NS_PER_MS < TWO_64
    requires kHZ >= 2 || FitsI64((t1 - startTsc) * NS_PER_MS / kHZ)
    ensures 0 <= Now(t0, startTsc, kHZ) <= Now(t1, startTsc, kHZ)
  {
    var a, b := (t0 - startTsc) * NS_PER_MS, (t1 - startTsc) * NS_PER_MS;
    if kHZ >= 2 {
      QuotientFits(b, kHZ);
    }
    DivMono(0, a, kHZ);
    DivMono(a, b, kHZ);
    NowExact(t0, startTsc, kHZ);
    NowExact(t1, startTsc, kHZ);
  }

  /** A clock of kHZ thousand ticks a second, s seconds after its start. */
  lemma SecondsExact(startTsc: U64, kHZ: U64, s: nat, ticks: U64)
    requires kHZ != 0 && ticks == 1000 * kHZ * s && ticks * 1_000_000 < 18446744073709551616
    requires s <= 9_223_372_036
    ensures Now(ToU64(startTsc + ticks), startTsc, kHZ) == 1_000_000_000 * s
  {
    var q := 1_000_000_000 * s;
    assert ticks * NS_PER_MS == kHZ * q by {
      assert ticks * NS_PER_MS == 1000 * kHZ * s * 1_000_000;
    }
    NowAfter(startTsc, ticks, kHZ);
    FromScaledExact(ticks * NS_PER_MS, kHZ);
    Digits(q, 0, kHZ);
  }

  /** The last tick count whose scaled value fits 64 bits: some two hours at 2.5 GHz. */
  const LAST_TICK: int := TWO_64 / NS_PER_MS

  lemma WrapBack(a: U64, b: U64)
    ensures ToU64(ToU64(a + b) - a) == b
  {
    if a + b < TWO_64 {
      assert ToU64(a + b) == a + b;
    } else {
      assert ToU64(a + b) == a + b - TWO_64;
    }
  }

  lemma NowAfter(startTsc: U64, ticks: U64, kHZ: U64)
    requires kHZ != 0
    ensures Now(ToU64(startTsc + ticks), startTsc, kHZ) == FromScaled(ticks * NS_PER_MS, kHZ)
  {
    WrapBack(startTsc, ticks);
  }

  lemma QuotientDrops(low: nat, high: nat, kHZ: int)
    requires kHZ > 0 && 2 * low < high
    ensures low / kHZ < high / kHZ <==> kHZ <= high
  {
    DivMono(0, low, kHZ);
    if kHZ > high {
      Digits(0, high, kHZ);
    } else if low < kHZ {
      Digits(0, low, kHZ);
      DivStrict(0, high, kHZ);
    } else {
      DivStrict(low, high, kHZ);
    }
  }

  lemma FromScaledDrops(low: nat, high: nat, kHZ: U64)
    requires 2 <= kHZ && high < TWO_64 && 2 * low < high
    ensures FromScaled(low + TWO_64, kHZ) < FromScaled(high, kHZ) <==> kHZ <= high
  {
    assert ToU64(low + TWO_64) == low == ToU64(low);
    QuotientFits(low, kHZ);
    QuotientFits(high, kHZ);
    FromScaledExact(low, kHZ);
    FromScaledExact(high, kHZ);
    QuotientDrops(low, high, kHZ);
  }

  /** One tick past the bound the clock jumps back, whenever it was started; only at a
      frequency so high that it has shown 0 all along can it not. */
  lemma NowJumpsBack(startTsc: U64, kHZ: U64)
    requires 2 <= kHZ
    ensures LAST_TICK == 18_446_744_073_709
    ensures Now(ToU64(startTsc + (LAST_TICK + 1)), startTsc, kHZ) < Now(ToU64(startTsc + LAST_TICK), startTsc, kHZ)
            <==> kHZ <= LAST_TICK * NS_PER_MS
  {
    NowAfter(startTsc, LAST_TICK, kHZ);
    NowAfter(startTsc, LAST_TICK + 1, kHZ);
    FromScaledDrops((LAST_TICK + 1) * NS_PER_MS - TWO_64, LAST_TICK * NS_PER_MS, kHZ);
  }

  /** C's / and % truncate towards zero. */
  function QuotC(a: int, b: int): int
    requires b > 0
  {
    if a >= 0 then a / b else -(-a / b)
  }

  function RemC(a: int, b: int): int
    requires b > 0
  {
    a - b * QuotC(a, b)
  }

  /** nsleep: the timespec stands for the requested wait, and is one nanosleep accepts
      (nanoseconds in range) for every wait that is not negative, or is a whole number of seconds. */
  lemma SleepSplit(waitNs: int)
    ensures QuotC(waitNs, NS_PER_SEC) * 1_000_000_000 + RemC(waitNs, NS_PER_SEC) == waitNs
    ensures 0 <= RemC(waitNs, NS_PER_SEC) < 1_000_000_000 <==> waitNs >= 0 || waitNs % 1_000_000_000 == 0
  {
    if waitNs < 0 {
      var q := -waitNs / NS_PER_SEC;
      assert -waitNs == NS_PER_SEC * q + (-waitNs) % NS_PER_SEC;
      assert RemC(waitNs, NS_PER_SEC) == -((-waitNs) % NS_PER_SEC);
      assert waitNs == NS_PER_SEC * (-q) - (-waitNs) % NS_PER_SEC;
    }
  }
}
