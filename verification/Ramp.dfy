// rampedStartOffsetMs: a linear ramp of the call rate up to the target, then
// the steady cadence. The square root is the exact integer one.
module Ramp {
  import opened Arithmetic

  datatype LoadSettings = LoadSettings(
    cps: int, maxConcurrent: int, totalCalls: int, rampUpSeconds: int, callStartJitterMs: int)

  function RampUpMs(load: LoadSettings): nat {
    if load.rampUpSeconds > 0 then load.rampUpSeconds * 1000 else 0
  }

  // The integer square root of n.
  function Isqrt(n: nat): (root: nat)
    ensures root * root <= n < (root + 1) * (root + 1)
  {
    if n == 0 then 0 else
      var root := Isqrt(n - 1);
      if (root + 1) * (root + 1) <= n then root + 1 else root
  }

  predicate InRamp(callNumber: nat, load: LoadSettings) {
    (callNumber + 1) * 2000 <= load.cps * RampUpMs(load)
  }

  function RampedStartOffsetMs(callNumber: nat, load: LoadSettings): int
    requires load.cps > 0
  {
    var rampUpMs := RampUpMs(load);
    var callOrdinal := callNumber + 1;
    if rampUpMs <= 0 then 0
    else if InRamp(callNumber, load) then Isqrt(2000 * rampUpMs * callOrdinal / load.cps)
    else rampUpMs / 2 + 1000 * callOrdinal / load.cps
  }

  // ---------- Arithmetic ----------

  lemma SquareOrder(a: nat, b: nat)
    ensures a < b ==> a * a < b * b
  {
    if a < b {
      MulOrder(b, a, b);
    }
  }

  lemma RootOfQuotient(n: nat, d: int)
    requires d > 0 && n / d >= 0
    ensures var t := Isqrt(n / d); d * (t * t) <= n < d * ((t + 1) * (t + 1))
  {
    var t := Isqrt(n / d);
    DivisionBounds(n, d);
    ScaledBounds(d, t * t, n / d, (t + 1) * (t + 1), n);
  }

  lemma ScaledBounds(d: nat, low: int, q: int, high: int, n: int)
    requires low <= q < high && d * q <= n < d * q + d
    ensures d * low <= n < d * high
  {
    MulOrder(d, low, q);
    MulOrder(d, q + 1, high);
    assert d * (q + 1) == d * q + d;
  }

  // ---------- The ramp ----------

  // During the ramp the offset t of the K-th call is the real root of
  // cps * t * t == 2000 * R * K, rounded down.
  lemma RampRoot(callNumber: nat, load: LoadSettings)
    requires load.cps > 0 && RampUpMs(load) > 0 && InRamp(callNumber, load)
    ensures var t := RampedStartOffsetMs(callNumber, load);
      t >= 0 && load.cps * (t * t) <= 2000 * RampUpMs(load) * (callNumber + 1) < load.cps * ((t + 1) * (t + 1))
  {
    var n := 2000 * RampUpMs(load) * (callNumber + 1);
    DivisionBounds(n, load.cps);
    RootOfQuotient(n, load.cps);
  }

  // The ramp ends within the ramp window.
  lemma RampWithinWindow(callNumber: nat, load: LoadSettings)
    requires load.cps > 0 && RampUpMs(load) > 0 && InRamp(callNumber, load)
    ensures RampedStartOffsetMs(callNumber, load) <= RampUpMs(load)
  {
    RampRoot(callNumber, load);
    RootBelow(load.cps, RampedStartOffsetMs(callNumber, load), RampUpMs(load), callNumber + 1);
  }

  lemma RootBelow(cps: int, t: nat, r: nat, k: nat)
    requires cps > 0 && cps * (t * t) <= 2000 * r * k && 2000 * k <= cps * r
    ensures t <= r
  {
    MulOrder(r + 1, 2000 * k, cps * r);
    assert 2000 * r * k == r * (2000 * k) <= r * (cps * r) == cps * (r * r);
    SquareOrder(r, t);
    MulOrder(cps, r * r + 1, t * t);
  }

  // After the ramp the offset has passed the ramp window.
  lemma SteadyAfterWindow(cps: int, half: nat, n: nat)
    requires cps > 0 && cps * half <= n
    ensures n / cps >= half
  {
    DivisionBounds(n, cps);
    MulOrder(cps, n / cps + 1, half);
    assert cps * (n / cps + 1) == cps * (n / cps) + cps;
  }

  // After the ramp the offset t of the K-th call is R / 2 + 1000 * K / cps,
  // rounded down: the call rate is steady, and the ramp has cost half its
  // window.
  lemma SteadyOffset(callNumber: nat, load: LoadSettings)
    requires load.cps > 0 && RampUpMs(load) > 0 && !InRamp(callNumber, load)
    ensures var t := RampedStartOffsetMs(callNumber, load);
      2 * load.cps * t <= 2000 * (callNumber + 1) + load.cps * RampUpMs(load) < 2 * load.cps * (t + 1)
  {
    var n, half := 1000 * (callNumber + 1), RampUpMs(load) / 2;
    HalfWindow(load);
    DivisionBounds(n, load.cps);
    SteadySum(load.cps, half, n, n / load.cps);
  }

  lemma SteadySum(cps: int, half: int, n: int, q: int)
    requires cps * q <= n < cps * q + cps
    ensures 2 * cps * (half + q) <= 2 * n + cps * (2 * half) < 2 * cps * (half + q + 1)
  {
    assert cps * (half + q) == cps * half + cps * q;
    assert cps * (half + q + 1) == cps * half + cps * q + cps;
  }

  // The offset of every call in full, by the settings alone.
  lemma OffsetExactly(callNumber: nat, load: LoadSettings)
    requires load.cps > 0
    ensures var r, k := 1000 * load.rampUpSeconds, callNumber + 1;
      var t := RampedStartOffsetMs(callNumber, load);
      if load.rampUpSeconds <= 0 then t == 0
      else if 2000 * k <= load.cps * r then
        t >= 0 && load.cps * (t * t) <= 2000 * r * k < load.cps * ((t + 1) * (t + 1))
      else 2 * load.cps * t <= 2000 * k + load.cps * r < 2 * load.cps * (t + 1)
  {
    if load.rampUpSeconds > 0 {
      if InRamp(callNumber, load) {
        RampRoot(callNumber, load);
      } else {
        SteadyOffset(callNumber, load);
      }
    }
  }

  lemma IsqrtOrder(a: nat, b: nat)
    requires a <= b
    ensures Isqrt(a) <= Isqrt(b)
  {
    SquareOrder(Isqrt(b) + 1, Isqrt(a));
    if Isqrt(a) == Isqrt(b) + 1 {
      assert false;
    }
  }

  lemma DivisionOrder(a: nat, b: nat, d: int)
    requires d > 0 && a <= b
    ensures 0 <= a / d <= b / d
  {
    DivisionBounds(a, d);
    DivisionBounds(b, d);
    MulOrder(d, b / d + 1, a / d);
    assert d * (b / d + 1) == d * (b / d) + d;
  }

  lemma RootOrder(r: nat, k: nat, d: int)
    requires d > 0
    ensures 0 <= 2000 * r * k / d && 0 <= 2000 * r * (k + 1) / d
    ensures Isqrt(2000 * r * k / d) <= Isqrt(2000 * r * (k + 1) / d)
  {
    assert 2000 * r * (k + 1) == 2000 * r * k + 2000 * r;
    DivisionOrder(2000 * r * k, 2000 * r * (k + 1), d);
    IsqrtOrder(2000 * r * k / d, 2000 * r * (k + 1) / d);
  }

  lemma HalfWindow(load: LoadSettings)
    ensures RampUpMs(load) == 2 * (RampUpMs(load) / 2)
  {
    if load.rampUpSeconds > 0 {
      assert RampUpMs(load) == 2 * (load.rampUpSeconds * 500);
    }
  }

  // Offsets never decrease in call order: within the ramp, across its end, and
  // in the steady part.
  lemma OffsetsNondecreasing(callNumber: nat, load: LoadSettings)
    requires load.cps > 0
    ensures RampedStartOffsetMs(callNumber, load) <= RampedStartOffsetMs(callNumber + 1, load)
  {
    var r := RampUpMs(load);
    var k := callNumber + 1;
    if r > 0 {
      if InRamp(callNumber + 1, load) {
        RootOrder(r, k, load.cps);
      } else if InRamp(callNumber, load) {
        RampWithinWindow(callNumber, load);
        HalfWindow(load);
        SteadyAfterWindow(load.cps, r / 2, 1000 * (k + 1));
      } else {
        DivisionOrder(1000 * k, 1000 * k + 1000, load.cps);
      }
    }
  }

  // With a ramp and a rate within the scheduler's resolution no two calls
  // share an offset.
  lemma OffsetsIncrease(callNumber: nat, load: LoadSettings)
    requires 0 < load.cps <= 1000 && RampUpMs(load) > 0
    ensures RampedStartOffsetMs(callNumber, load) < RampedStartOffsetMs(callNumber + 1, load)
  {
    var r := RampUpMs(load);
    var k := callNumber + 1;
    var t := RampedStartOffsetMs(callNumber, load);
    if InRamp(callNumber + 1, load) {
      RampRoot(callNumber, load);
      RampRoot(callNumber + 1, load);
      var next := RampedStartOffsetMs(callNumber + 1, load);
      RootAdvances(load.cps, t, r, k);
      SquareOrder(next + 1, t + 1);
      MulOrder(load.cps, (next + 1) * (next + 1), (t + 1) * (t + 1));
    } else if InRamp(callNumber, load) {
      RampRoot(callNumber, load);
      RampWithinWindow(callNumber, load);
      HalfWindow(load);
      LeaveRamp(load.cps, t, r / 2, k);
    } else {
      SteadyAdvances(load.cps, 1000 * k);
    }
  }

  lemma RootAdvances(cps: int, t: nat, r: nat, k: nat)
    requires 0 < cps <= 1000 && cps * (t * t) <= 2000 * r * k && 2000 * (k + 1) <= cps * r
    ensures cps * ((t + 1) * (t + 1)) <= 2000 * r * (k + 1)
  {
    RootWellBelow(cps, t, r, k);
    NextSquare(cps, t);
    MulOrder(2 * t + 1, cps, 1000);
    assert 2000 * r * (k + 1) == 2000 * r * k + 2000 * r;
  }

  lemma NextSquare(cps: int, t: int)
    ensures cps * ((t + 1) * (t + 1)) == cps * (t * t) + (2 * t + 1) * cps
  {
    assert (t + 1) * (t + 1) == t * t + (2 * t + 1);
    assert cps * (t * t + (2 * t + 1)) == cps * (t * t) + cps * (2 * t + 1);
  }

  lemma RootWellBelow(cps: int, t: nat, r: nat, k: nat)
    requires 0 < cps <= 1000 && cps * (t * t) <= 2000 * r * k && 2000 * (k + 1) <= cps * r
    ensures t < r
  {
    assert 2000 * r * k == r * (2000 * (k + 1)) - 2000 * r;
    assert r * (2000 * (k + 1)) <= r * (cps * r) == cps * (r * r);
    MulOrder(cps, r * r, t * t);
    SquareOrder(r, t);
    if t == r {
      assert false;
    }
  }

  lemma LeaveRamp(cps: int, t: nat, half: nat, k: nat)
    requires 0 < cps <= 1000 && half > 0 && t <= 2 * half
    requires cps * (t * t) <= 2000 * (2 * half) * k && 2000 * (k + 1) > cps * (2 * half)
    ensures t < half + 1000 * (k + 1) / cps
  {
    assert cps * (2 * half) == 2 * (cps * half);
    SteadyAfterWindow(cps, half, 1000 * (k + 1));
    if t == 2 * half {
      RampFull(cps, t, k);
      assert cps * (half + 1) == cps * half + cps;
      SteadyAfterWindow(cps, half + 1, 1000 * (k + 1));
    }
  }

  // A call at the very end of the window is the last call of the ramp.
  lemma RampFull(cps: int, t: nat, k: nat)
    requires cps > 0 && t > 0 && cps * (t * t) <= 2000 * t * k
    ensures cps * t <= 2000 * k
  {
    assert cps * (t * t) == t * (cps * t);
    assert 2000 * t * k == t * (2000 * k);
    MulOrder(t, 2000 * k + 1, cps * t);
    assert t * (2000 * k + 1) == t * (2000 * k) + t;
  }

  lemma SteadyAdvances(cps: int, n: nat)
    requires 0 < cps <= 1000
    ensures n / cps < (n + 1000) / cps
  {
    DivisionBounds(n, cps);
    assert cps * (n / cps + 1) == cps * (n / cps) + cps;
    SteadyAfterWindow(cps, n / cps + 1, n + 1000);
  }

  lemma {:induction false} OffsetsIncreasing(i: nat, j: nat, load: LoadSettings)
    requires 0 < load.cps <= 1000 && RampUpMs(load) > 0 && i < j
    ensures RampedStartOffsetMs(i, load) < RampedStartOffsetMs(j, load)
    decreases j
  {
    OffsetsIncrease(j - 1, load);
    if i < j - 1 {
      OffsetsIncreasing(i, j - 1, load);
    }
  }

  // After the ramp the cadence is exact: cps calls a second.
  lemma SteadyCadence(callNumber: nat, load: LoadSettings)
    requires load.cps > 0 && RampUpMs(load) > 0 && !InRamp(callNumber, load)
    ensures RampedStartOffsetMs(callNumber + load.cps, load) == RampedStartOffsetMs(callNumber, load) + 1000
  {
    var n := 1000 * (callNumber + 1);
    DivisionBounds(n, load.cps);
    assert load.cps * (n / load.cps + 1000) == load.cps * (n / load.cps) + 1000 * load.cps;
    QuotientIs(n + 1000 * load.cps, load.cps, n / load.cps + 1000);
  }
}
