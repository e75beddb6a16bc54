/** USEC_PER_TICK and USEC2TICK of px4_defines.h: the length of one scheduler tick in
    microseconds, derived from the tick rate PX4_TICKS_PER_SEC, and the conversion of a
    microsecond count to ticks, rounding to the nearest tick with halves rounded up.
    Both macros use C integer division, which truncates toward zero. */
module Px4Ticks {
  import Px4Common

  const UsecPerSec: int := 1000000

  function Abs(a: int): nat {
    if a < 0 then -a else a
  }

  /** C's `/` on integers: the quotient truncated toward zero, so that the remainder
      `a - q*b` is smaller than the divisor in magnitude and is zero or has the sign of
      the dividend (section 6.5.5 of ISO/IEC 9899:1999). */
  function CDiv(a: int, b: int): (q: int)
    requires b != 0
    ensures var r := a - q * b; Abs(r) < Abs(b) && (r == 0 || (r < 0) == (a < 0))
    ensures a >= 0 && b > 0 ==> q == a / b
    ensures a < 0 && b > 0 ==> q == -((-a) / b)
  {
    var m := Abs(a) / Abs(b);
    TruncatedRemainder(a, b, m);
    if (a < 0) != (b < 0) then -m else m
  }

  /** The remainder left by the truncated quotient, case by case on the signs. */
  lemma TruncatedRemainder(a: int, b: int, m: int)
    requires b != 0 && m == Abs(a) / Abs(b)
    ensures var q := if (a < 0) != (b < 0) then -m else m;
            var r := a - q * b;
            Abs(r) < Abs(b) && (r == 0 || (r < 0) == (a < 0))
  {
    var u: int, v: int := Abs(a), Abs(b);
    var s := u - m * v;
    assert 0 <= s < v;
    if a >= 0 && b > 0 {
      assert a - m * b == s;
    } else if a >= 0 {
      assert a - (-m) * b == s by { assert (-m) * b == m * v; }
    } else if b > 0 {
      assert a - (-m) * b == -s by { assert (-m) * b == -(m * v); }
    } else {
      assert a - m * b == -s by { assert m * b == -(m * v); }
    }
  }

  /** A tick rate for which USEC_PER_TICK is defined and nonzero, so that USEC2TICK
      does not divide by zero. */
  predicate DefinedTickRate(ticksPerSec: int) {
    ticksPerSec != 0 && CDiv(UsecPerSec, ticksPerSec) != 0
  }

  /** USEC_PER_TICK: (1000000 / PX4_TICKS_PER_SEC). */
  function UsecPerTick(ticksPerSec: int): (p: int)
    requires ticksPerSec != 0
    ensures p != 0 <==> -UsecPerSec <= ticksPerSec <= UsecPerSec
    ensures 0 < ticksPerSec <= UsecPerSec ==> 0 < p && p * ticksPerSec <= UsecPerSec < (p + 1) * ticksPerSec
  {
    CDiv(UsecPerSec, ticksPerSec)
  }

  /** USEC2TICK(x): ((x + USEC_PER_TICK/2) / USEC_PER_TICK). */
  function UsecToTick(ticksPerSec: int, x: int): int
    requires DefinedTickRate(ticksPerSec)
  {
    var p := UsecPerTick(ticksPerSec);
    CDiv(x + CDiv(p, 2), p)
  }

  /** For a positive tick rate, and a non-negative microsecond count, the conversion is
      plain floor division of x + P/2 by the tick period P. */
  lemma UsecToTickFloor(ticksPerSec: int, x: int)
    requires 0 < ticksPerSec <= UsecPerSec && x >= 0
    ensures DefinedTickRate(ticksPerSec)
    ensures UsecToTick(ticksPerSec, x) == (x + UsecPerTick(ticksPerSec) / 2) / UsecPerTick(ticksPerSec)
  {
  }

  /** A tick rate above one per microsecond makes the tick period zero. */
  lemma TooFastTickRateIsUndefined(ticksPerSec: int)
    requires ticksPerSec > UsecPerSec
    ensures !DefinedTickRate(ticksPerSec)
  {
  }

  lemma DivMonotone(a: int, b: int, p: int)
    requires 0 <= a <= b && p > 0
    ensures a / p <= b / p
  {
    var qa, qb := a / p, b / p;
    if qa > qb {
      assert qa * p >= (qb + 1) * p by { Px4Common.MulMonotone(qb + 1, qa, p); }
    }
  }

  /** Truncating division by a positive divisor is monotone over all integers. */
  lemma CDivMonotone(a: int, b: int, p: int)
    requires a <= b && p > 0
    ensures CDiv(a, p) <= CDiv(b, p)
  {
    if 0 <= a {
      DivMonotone(a, b, p);
    } else if b < 0 {
      DivMonotone(-b, -a, p);
      assert CDiv(a, p) == -((-a) / p) && CDiv(b, p) == -((-b) / p);
    } else {
      DivMonotone(0, -a, p);
      DivMonotone(0, b, p);
      assert CDiv(a, p) == -((-a) / p) && CDiv(b, p) == b / p;
    }
  }

  /** USEC2TICK is monotone in the microsecond count. */
  lemma {:induction false} UsecToTickMonotone(ticksPerSec: int, x: int, y: int)
    requires 0 < ticksPerSec <= UsecPerSec && x <= y
    ensures DefinedTickRate(ticksPerSec)
    ensures UsecToTick(ticksPerSec, x) <= UsecToTick(ticksPerSec, y)
  {
    var p := UsecPerTick(ticksPerSec);
    CDivMonotone(x + CDiv(p, 2), y + CDiv(p, 2), p);
  }

  /** For x >= 0 the ticks, converted back to microseconds, are within half a tick
      period of x. */
  lemma {:induction false} UsecToTickWithinHalfPeriod(ticksPerSec: int, x: int)
    requires 0 < ticksPerSec <= UsecPerSec && x >= 0
    ensures DefinedTickRate(ticksPerSec)
    ensures var p := UsecPerTick(ticksPerSec);
            Abs(UsecToTick(ticksPerSec, x) * p - x) <= p / 2
  {
    var p := UsecPerTick(ticksPerSec);
    var h := p / 2;
    var t := (x + h) / p;
    assert t * p <= x + h < t * p + p;
  }

  /** For x >= 0, USEC2TICK picks a tick count whose period multiple is nearest to x,
      and of two equally near multiples it picks the larger one (half rounds up). */
  lemma {:induction false} UsecToTickIsNearest(ticksPerSec: int, x: int, k: int)
    requires 0 < ticksPerSec <= UsecPerSec && x >= 0
    ensures DefinedTickRate(ticksPerSec)
    ensures var p := UsecPerTick(ticksPerSec);
            var t := UsecToTick(ticksPerSec, x);
            Abs(t * p - x) < Abs(k * p - x) || (Abs(t * p - x) == Abs(k * p - x) && k <= t)
  {
    var p := UsecPerTick(ticksPerSec);
    UsecToTickFloor(ticksPerSec, x);
    NearestMultiple(x, p, k);
  }

  /** (x + p/2) / p times p is nearer to x than any other multiple of p. */
  lemma NearestMultiple(x: int, p: int, k: int)
    requires x >= 0 && p > 0
    ensures var t := (x + p / 2) / p;
            Abs(t * p - x) < Abs(k * p - x) || (Abs(t * p - x) == Abs(k * p - x) && k <= t)
  {
    var h := p / 2;
    var t := (x + h) / p;
    var d := t * p - x;
    assert h - p < d <= h;
    var e := (k - t) * p;
    assert k * p - x == d + e by {
      assert k * p == t * p + (k - t) * p;
    }
    if k > t {
      Px4Common.MulMonotone(1, k - t, p);
      CloserThanOtherMultiples(d, e, p);
    } else if k < t {
      Px4Common.MulMonotone(1, t - k, p);
      CloserThanOtherMultiples(d, e, p);
    }
  }

  /** An offset d in (p/2 - p, p/2] is nearer to 0 than d moved by at least p, except
      that moving down by p can reach a tie. */
  lemma CloserThanOtherMultiples(d: int, e: int, p: int)
    requires p > 0 && p / 2 - p < d <= p / 2
    requires e >= p || e <= -p
    ensures Abs(d) < Abs(d + e) || (Abs(d) == Abs(d + e) && e < 0)
  {
  }

  /** For negative counts the half-period bound fails: C truncates -1001 / 1000 to -1. */
  lemma NegativeCountMissesHalfPeriod()
    ensures DefinedTickRate(1000)
    ensures UsecToTick(1000, -1501) == -1
    ensures Abs(UsecToTick(1000, -1501) * UsecPerTick(1000) - (-1501)) == 501
  {
  }

  /** The fixed tick rate of the QURT profile (PX4_TICKS_PER_SEC 1000L) gives a tick
      period of 1000 us, and USEC2TICK rounds 499 us down and 500 us up. */
  lemma ThousandTicksPerSecond()
    ensures DefinedTickRate(1000) && UsecPerTick(1000) == 1000
    ensures UsecToTick(1000, 0) == 0
    ensures UsecToTick(1000, 499) == 0
    ensures UsecToTick(1000, 500) == 1
    ensures UsecToTick(1000, 999) == 1
    ensures UsecToTick(1000, 1000) == 1
    ensures UsecToTick(1000, 1500) == 2
  {
    assert UsecPerTick(1000) == 1000;
    UsecToTickFloor(1000, 0);
    UsecToTickFloor(1000, 499);
    UsecToTickFloor(1000, 500);
    UsecToTickFloor(1000, 999);
    UsecToTickFloor(1000, 1000);
    UsecToTickFloor(1000, 1500);
  }
}
