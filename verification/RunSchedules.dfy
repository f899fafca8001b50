// buildRunSchedule: calls launched at a fixed rate under a concurrency limit.
module RunSchedules {
  import opened Results
  import opened Arithmetic
  import opened EndTimeQueues
  import opened GreedySchedules
  import opened FifoTheory
  import opened Concurrency
  import opened Earliest

  const SIMULATED_CALL_DURATION_MS := 1000
  const INT_MAX := 0x7fff_ffff

  datatype RunPlan = RunPlan(cps: int, maxConcurrent: int, totalCalls: int)

  datatype ScheduledCall = ScheduledCall(index: int, startOffsetMs: int)

  datatype RunSchedule = RunSchedule(totalPlannedCalls: int, maxSimultaneousCalls: int, calls: seq<ScheduledCall>)

  datatype PlanError = PlanNotPositive | DurationNotPositive | CpsAboveResolution

  predicate Accepted(plan: RunPlan, durationMs: int) {
    0 < plan.cps <= 1000 && plan.maxConcurrent > 0 && plan.totalCalls > 0 && durationMs > 0
  }

  // Why a plan that is not accepted is rejected; the checks run in this order.
  function Rejection(plan: RunPlan, durationMs: int): PlanError {
    if plan.cps <= 0 || plan.maxConcurrent <= 0 || plan.totalCalls <= 0 then PlanNotPositive
    else if durationMs <= 0 then DurationNotPositive
    else CpsAboveResolution
  }

  function RateReadyMs(i: nat, cps: int): int
    requires cps > 0
  {
    i * 1000 / cps
  }

  ghost function PlanDemand(plan: RunPlan, durationMs: int): (g: Demand)
    requires Accepted(plan, durationMs)
    ensures |g.ready| == plan.totalCalls && g.slots == plan.maxConcurrent && g.duration == durationMs
    ensures forall i :: 0 <= i < plan.totalCalls ==> g.ready[i] == RateReadyMs(i, plan.cps)
  {
    Demand(seq(plan.totalCalls, i requires 0 <= i => RateReadyMs(i, plan.cps)), plan.maxConcurrent, durationMs)
  }

  ghost function StartsOf(calls: seq<ScheduledCall>): (s: seq<int>)
    ensures |s| == |calls|
  {
    seq(|calls|, i requires 0 <= i < |calls| => calls[i].startOffsetMs)
  }

  // What a schedule of an accepted plan is: its calls in order, started first
  // in first out, which is feasible, with its true peak.
  ghost predicate IsRunSchedule(plan: RunPlan, durationMs: int, schedule: RunSchedule)
    requires Accepted(plan, durationMs)
  {
    var g := PlanDemand(plan, durationMs);
    var starts := StartsOf(schedule.calls);
    && schedule.totalPlannedCalls == |schedule.calls| == plan.totalCalls
    && (forall i :: 0 <= i < plan.totalCalls ==> schedule.calls[i].index == i)
    && starts == FifoStarts(g)
    && Increasing(starts)
    && Feasible(starts, g)
    && IsPeak(starts, durationMs, schedule.maxSimultaneousCalls)
  }

  method BuildRunSchedule(plan: RunPlan, durationMs: int := SIMULATED_CALL_DURATION_MS)
    returns (r: Result<RunSchedule, PlanError>)
    ensures if Accepted(plan, durationMs)
      then r.Success? && IsRunSchedule(plan, durationMs, r.value)
      else r == Failure(Rejection(plan, durationMs))
    ensures r == Failure(PlanNotPositive) <==> plan.cps <= 0 || plan.maxConcurrent <= 0 || plan.totalCalls <= 0
    ensures r == Failure(DurationNotPositive) <==>
      plan.cps > 0 && plan.maxConcurrent > 0 && plan.totalCalls > 0 && durationMs <= 0
    ensures r == Failure(CpsAboveResolution) <==>
      plan.cps > 1000 && plan.maxConcurrent > 0 && plan.totalCalls > 0 && durationMs > 0
  {
    if plan.cps <= 0 || plan.maxConcurrent <= 0 || plan.totalCalls <= 0 {
      return Failure(PlanNotPositive);
    }
    if durationMs <= 0 {
      return Failure(DurationNotPositive);
    }
    if plan.cps > 1000 {
      return Failure(CpsAboveResolution);
    }
    ghost var g := PlanDemand(plan, durationMs);
    var maxSimultaneousCalls: int := 0;
    var calls: seq<ScheduledCall> := [];
    var activeCallEndTimes := new EndTimeQueue();
    for i := 0 to plan.totalCalls
      invariant activeCallEndTimes.Valid() && fresh(activeCallEndTimes)
      invariant activeCallEndTimes.items == Heap(g, i)
      invariant maxSimultaneousCalls == ReportedPeak(g, i)
      invariant |calls| == i
      invariant forall k :: 0 <= k < i ==> calls[k] == ScheduledCall(k, StartAt(g, k))
    {
      var startOffsetMs := PlaceCall(activeCallEndTimes, RateReadyMs(i, plan.cps), plan.maxConcurrent, durationMs);
      var live := |activeCallEndTimes.items|;
      maxSimultaneousCalls := if live > maxSimultaneousCalls then live else maxSimultaneousCalls;
      calls := calls + [ScheduledCall(i, startOffsetMs)];
    }
    PlacedIsRunSchedule(plan, durationMs, calls);
    return Success(RunSchedule(plan.totalCalls, maxSimultaneousCalls, calls));
  }

  lemma PlacedIsRunSchedule(plan: RunPlan, durationMs: int, calls: seq<ScheduledCall>)
    requires Accepted(plan, durationMs) && |calls| == plan.totalCalls
    requires var g := PlanDemand(plan, durationMs);
      forall k :: 0 <= k < |calls| ==> calls[k] == ScheduledCall(k, StartAt(g, k))
    ensures IsRunSchedule(plan, durationMs,
      RunSchedule(plan.totalCalls, ReportedPeak(PlanDemand(plan, durationMs), plan.totalCalls), calls))
  {
    RunScheduleIsFifo(plan, durationMs);
    assert StartsOf(calls) == Starts(PlanDemand(plan, durationMs));
  }

  // ---------- The rate ----------

  lemma ReadyBounds(i: nat, cps: int)
    requires cps > 0
    ensures 0 <= RateReadyMs(i, cps)
    ensures cps * RateReadyMs(i, cps) <= i * 1000 < cps * RateReadyMs(i, cps) + cps
  {
  }

  // A plan of at most 1000 calls per second has distinct ready times, and
  // readies exactly cps calls per second.
  lemma ReadyAdvances(i: nat, cps: int)
    requires 0 < cps <= 1000
    ensures RateReadyMs(i, cps) < RateReadyMs(i + 1, cps)
    ensures RateReadyMs(i + cps, cps) == RateReadyMs(i, cps) + 1000
  {
    var q := RateReadyMs(i, cps);
    ReadyBounds(i, cps);
    ReadyBounds(i + 1, cps);
    var next := RateReadyMs(i + 1, cps);
    MulOrder(cps, next, q);
    assert cps * (q + 1000) == cps * q + cps * 1000;
    QuotientIs((i + cps) * 1000, cps, q + 1000);
  }

  // The resolution guard is exact: above 1000 calls per second the first two
  // ready times are the same millisecond, up to it no two are.
  lemma GuardIsExact(cps: int)
    requires cps > 0
    ensures (forall i: nat :: RateReadyMs(i, cps) < RateReadyMs(i + 1, cps)) <==> cps <= 1000
  {
    if cps > 1000 {
      QuotientIs(0, cps, 0);
      QuotientIs(1000, cps, 0);
      assert RateReadyMs(0, cps) == RateReadyMs(0 + 1, cps);
    } else {
      forall i: nat ensures RateReadyMs(i, cps) < RateReadyMs(i + 1, cps) {
        ReadyAdvances(i, cps);
      }
    }
  }

  lemma {:induction false} ReadyOrdered(i: nat, j: nat, cps: int)
    requires 0 < cps <= 1000 && i < j
    ensures RateReadyMs(i, cps) < RateReadyMs(j, cps)
    decreases j
  {
    ReadyAdvances(j - 1, cps);
    if i < j - 1 {
      ReadyOrdered(i, j - 1, cps);
    }
  }

  lemma ReadyIncreasing(plan: RunPlan, durationMs: int)
    requires Accepted(plan, durationMs)
    ensures Increasing(PlanDemand(plan, durationMs).ready)
  {
    forall i: nat, j: nat | i < j < plan.totalCalls
      ensures RateReadyMs(i, plan.cps) < RateReadyMs(j, plan.cps)
    {
      ReadyOrdered(i, j, plan.cps);
    }
  }

  // What makes an accepted plan correct: its ready times are distinct, so the
  // heap loop is first-in first-out service.
  lemma RunScheduleIsFifo(plan: RunPlan, durationMs: int)
    requires Accepted(plan, durationMs)
    ensures var g := PlanDemand(plan, durationMs);
      && Nondecreasing(g.ready)
      && Starts(g) == FifoStarts(g)
      && Increasing(FifoStarts(g))
      && Feasible(FifoStarts(g), g)
      && IsPeak(FifoStarts(g), durationMs, ReportedPeak(g, plan.totalCalls))
  {
    var g := PlanDemand(plan, durationMs);
    ReadyIncreasing(plan, durationMs);
    IncreasingIsSafe(g);
    SafeIsFifo(g);
    FifoFeasible(g);
    SafePeakExact(g);
    forall i, j | 0 <= i < j < |g.ready| ensures Fifo(g, i) < Fifo(g, j) {
      FifoStrictlyOrdered(g, i, j);
    }
  }

  // Delays for concurrency never bring calls closer together than the rate.
  lemma {:induction false} DelaysKeepRate(plan: RunPlan, durationMs: int, i: nat)
    requires Accepted(plan, durationMs) && i + plan.cps < plan.totalCalls
    ensures Fifo(PlanDemand(plan, durationMs), i + plan.cps) >= Fifo(PlanDemand(plan, durationMs), i) + 1000
  {
    var g := PlanDemand(plan, durationMs);
    ReadyAdvances(i, plan.cps);
    if i >= g.slots {
      DelaysKeepRate(plan, durationMs, i - g.slots);
    }
  }

  // The calls started in the second from t on.
  ghost function StartedWithin(starts: seq<int>, t: int): set<nat> {
    set i: nat | i < |starts| && t <= starts[i] < t + 1000
  }

  // No window of 1000 ms contains more than cps starts.
  lemma RateCap(plan: RunPlan, durationMs: int, t: int)
    requires Accepted(plan, durationMs)
    ensures |StartedWithin(FifoStarts(PlanDemand(plan, durationMs)), t)| <= plan.cps
  {
    var g := PlanDemand(plan, durationMs);
    var window := StartedWithin(FifoStarts(g), t);
    ReadyIncreasing(plan, durationMs);
    if window != {} {
      var first := Least(window);
      forall i | i in window ensures i < first + plan.cps {
        if i >= first + plan.cps {
          DelaysKeepRate(plan, durationMs, first);
          FifoOrdered(g, first + plan.cps, i);
        }
      }
      SubsetSize(window, Span(first, first + plan.cps));
    }
  }

  // ---------- The integer range ----------

  // The loop computes i * 1000, the ready time, the start and the end of each
  // call; all of them fit an int exactly when the last ones do.
  lemma FitsIntExactly(plan: RunPlan, durationMs: int)
    requires Accepted(plan, durationMs)
    ensures var g := PlanDemand(plan, durationMs);
      var last := plan.totalCalls - 1;
      (forall i: nat :: i < plan.totalCalls ==> i * 1000 <= INT_MAX && 0 <= Fifo(g, i) && Fifo(g, i) + durationMs <= INT_MAX)
      <==> last * 1000 <= INT_MAX && Fifo(g, last) + durationMs <= INT_MAX
  {
    var g := PlanDemand(plan, durationMs);
    RunScheduleIsFifo(plan, durationMs);
    forall i: nat | i < plan.totalCalls
      ensures 0 <= Fifo(g, i) <= Fifo(g, plan.totalCalls - 1)
    {
      ReadyBounds(i, plan.cps);
      FifoOrdered(g, i, plan.totalCalls - 1);
    }
  }

  // A bound in closed form that is enough.
  lemma FitsIntWhen(plan: RunPlan, durationMs: int)
    requires Accepted(plan, durationMs)
    requires var last := plan.totalCalls - 1;
      last * 1000 <= INT_MAX
      && RateReadyMs(last, plan.cps) + last / plan.maxConcurrent * durationMs + durationMs <= INT_MAX
    ensures Fifo(PlanDemand(plan, durationMs), plan.totalCalls - 1) + durationMs <= INT_MAX
  {
    var last := plan.totalCalls - 1;
    ReadyIncreasing(plan, durationMs);
    RoundsCover(last, plan.maxConcurrent);
    FifoWithinRounds(PlanDemand(plan, durationMs), last, last / plan.maxConcurrent);
  }

  lemma RoundsCover(i: nat, m: int)
    requires m > 0
    ensures 0 <= i / m && i < (i / m + 1) * m
  {
    var q := i / m;
    assert i == m * q + i % m;
    assert (q + 1) * m == m * q + m;
  }
}
