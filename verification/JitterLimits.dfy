// Without a ramp the jitter alone keeps candidates apart: for how many calls
// it does.
module JitterLimits {
  import opened Arithmetic
  import opened GreedySchedules
  import opened RunSchedules
  import opened Ramp
  import opened PracticalSchedules
  import opened PracticalLimits

  const STRIDE := 37

  // How many calls get different jitter: the jitter range, or a 37th of it
  // when 37 divides it.
  function JitterPeriod(jitterMs: int): (period: int)
    requires jitterMs > 0
    ensures 0 < period <= jitterMs + 1
  {
    var range := jitterMs + 1;
    if range % STRIDE == 0 then range / STRIDE else range
  }

  // 37 is prime: when it divides a product it divides a factor.
  lemma {:induction false} DividesFactor(a: nat, x: int, k: int)
    requires 0 < a < STRIDE && a * x == STRIDE * k
    ensures x % STRIDE == 0
    decreases a
  {
    if a > 1 {
      StrideIsPrime(a);
      Reduce(STRIDE / a, a, STRIDE % a, x, k);
      DividesFactor(STRIDE % a, x, x - STRIDE / a * k);
    }
  }

  lemma StrideIsPrime(a: nat)
    requires 1 < a < STRIDE
    ensures 0 < STRIDE % a < a && STRIDE == STRIDE / a * a + STRIDE % a
  {
  }

  lemma Reduce(q: int, a: int, b: int, x: int, k: int)
    requires STRIDE == q * a + b && a * x == STRIDE * k
    ensures b * x == STRIDE * (x - q * k)
  {
    assert STRIDE * x == (q * a + b) * x == q * (a * x) + b * x;
    assert q * (a * x) == STRIDE * (q * k);
  }

  lemma DividesQuotient(m: nat, q: nat, d: int)
    requires m % STRIDE != 0 && m * q == STRIDE * d
    ensures q % STRIDE == 0
  {
    var a, b := m % STRIDE, m / STRIDE;
    assert m == STRIDE * b + a;
    assert (STRIDE * b + a) * q == STRIDE * (b * q) + a * q;
    DividesFactor(a, q, d - b * q);
  }

  // The first return of the jitter is after exactly one period.
  lemma ReturnIsLate(jitterMs: int, d: nat, q: nat)
    requires jitterMs > 0 && d > 0 && STRIDE * d == (jitterMs + 1) * q
    ensures d >= JitterPeriod(jitterMs)
  {
    var range := jitterMs + 1;
    if range % STRIDE == 0 {
      var p := range / STRIDE;
      assert range == STRIDE * p;
      assert STRIDE * d == STRIDE * (p * q);
      FactorAtMost(p, q, d);
    } else {
      DividesQuotient(range, q, d);
      var r := q / STRIDE;
      assert q == STRIDE * r;
      assert range * (STRIDE * r) == STRIDE * (range * r);
      FactorAtMost(range, r, d);
    }
  }

  lemma FactorAtMost(p: nat, q: nat, d: nat)
    requires d == p * q && d > 0
    ensures p <= d
  {
    if q > 0 {
      assert p * q == p * (q - 1) + p;
      assert p * (q - 1) >= 0;
    }
  }

  lemma SameRemainder(x: nat, y: nat, m: int) returns (q: int)
    requires m > 0 && x <= y && x % m == y % m
    ensures q >= 0 && y - x == m * q
  {
    q := y / m - x / m;
    DivisionOrder(x, y, m);
    assert x == m * (x / m) + x % m && y == m * (y / m) + y % m;
    assert m * (y / m - x / m) == m * (y / m) - m * (x / m);
  }

  lemma JitterApart(jitterMs: int, i: nat, j: nat)
    requires jitterMs > 0 && i < j < i + JitterPeriod(jitterMs)
    ensures DeterministicJitterMs(i, jitterMs) != DeterministicJitterMs(j, jitterMs)
  {
    if i * STRIDE % (jitterMs + 1) == j * STRIDE % (jitterMs + 1) {
      var q := SameRemainder(i * STRIDE, j * STRIDE, jitterMs + 1);
      ReturnIsLate(jitterMs, j - i, q);
    }
  }

  lemma JitterReturns(jitterMs: int)
    requires jitterMs > 0
    ensures DeterministicJitterMs(0, jitterMs) == DeterministicJitterMs(JitterPeriod(jitterMs), jitterMs)
  {
    var range := jitterMs + 1;
    var p := JitterPeriod(jitterMs);
    assert p * STRIDE == range * (if range % STRIDE == 0 then 1 else STRIDE);
    QuotientIs(p * STRIDE, range, if range % STRIDE == 0 then 1 else STRIDE);
    SmallMod(0, range);
  }

  // Without a ramp the candidates are distinct exactly up to one period.
  lemma JitterDistinctExactly(load: LoadSettings)
    requires load.cps > 0 && load.totalCalls >= 0 && load.rampUpSeconds <= 0 && load.callStartJitterMs > 0
    ensures DistinctOffsets(Candidates(load)) <==> load.totalCalls <= JitterPeriod(load.callStartJitterMs)
  {
    var jitterMs := load.callStartJitterMs;
    var p := JitterPeriod(jitterMs);
    if load.totalCalls <= p {
      forall i: nat, j: nat | i < j < load.totalCalls
        ensures Candidates(load)[i].startOffsetMs != Candidates(load)[j].startOffsetMs
      {
        JitterApart(jitterMs, i, j);
      }
    } else {
      JitterReturns(jitterMs);
      assert Candidates(load)[0].startOffsetMs == Candidates(load)[p].startOffsetMs;
    }
  }

  // So much jitter is enough for the limit and the exact peak.
  lemma JitterKeepsLimit(load: LoadSettings, durationMs: int)
    requires Runnable(load, durationMs) && load.rampUpSeconds <= 0
    requires load.callStartJitterMs > 0 && load.totalCalls <= JitterPeriod(load.callStartJitterMs)
    ensures var g := SortedDemand(load, durationMs);
      Bounded(Starts(g), g) && IsPeak(Starts(g), durationMs, ReportedPeak(g, load.totalCalls))
  {
    JitterDistinctExactly(load);
    DistinctCandidates(load, durationMs);
  }
}
