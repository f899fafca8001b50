// When a practical schedule keeps its concurrency limit.
module PracticalLimits {
  import opened EndTimeQueues
  import opened GreedySchedules
  import opened FifoTheory
  import opened Concurrency
  import opened Earliest
  import opened RunSchedules
  import opened Ramp
  import opened PracticalSchedules

  predicate Runnable(load: LoadSettings, durationMs: int) {
    Accepted(RunPlan(load.cps, load.maxConcurrent, load.totalCalls), durationMs)
  }

  // For every accepted configuration the limit and the reported peak stand or
  // fall with one condition on the sorted candidate times.
  lemma PracticalExact(load: LoadSettings, durationMs: int)
    requires Runnable(load, durationMs)
    ensures var g := SortedDemand(load, durationMs);
      && (Bounded(Starts(g), g) <==> NoSharedRelease(g))
      && (IsPeak(Starts(g), durationMs, ReportedPeak(g, load.totalCalls)) <==> NoSharedRelease(g))
  {
    SortedDemandOrdered(load, durationMs);
    BoundedIffSafe(SortedDemand(load, durationMs));
    PeakExactIffSafe(SortedDemand(load, durationMs));
  }

  // Distinct candidate times are enough, and then the schedule is also the
  // earliest possible.
  lemma DistinctCandidates(load: LoadSettings, durationMs: int)
    requires Runnable(load, durationMs) && DistinctOffsets(Candidates(load))
    ensures var g := SortedDemand(load, durationMs);
      && Bounded(Starts(g), g)
      && IsPeak(Starts(g), durationMs, ReportedPeak(g, load.totalCalls))
      && Starts(g) == FifoStarts(g)
  {
    var g := SortedDemand(load, durationMs);
    SortedDemandOrdered(load, durationMs);
    DistinctIncreasing(load, durationMs);
    IncreasingIsSafe(g);
    SafeIsFifo(g);
    PracticalExact(load, durationMs);
  }

  lemma DistinctIncreasing(load: LoadSettings, durationMs: int)
    requires Runnable(load, durationMs) && DistinctOffsets(Candidates(load))
    ensures Increasing(SortedDemand(load, durationMs).ready)
  {
    var sorted := SortCalls(Candidates(load));
    SortOrders(Candidates(load));
    SortKeepsDistinct(Candidates(load));
    forall i, j | 0 <= i < j < |sorted| ensures sorted[i].startOffsetMs < sorted[j].startOffsetMs {
      assert !Before(sorted[j], sorted[i]);
    }
  }

  // Without jitter: any ramp at all keeps the limit, and without a ramp only
  // the sizes at which nothing can be released together do.
  lemma JitterFreeExact(load: LoadSettings, durationMs: int)
    requires Runnable(load, durationMs) && load.callStartJitterMs <= 0
    ensures var g := SortedDemand(load, durationMs);
      Bounded(Starts(g), g) <==>
        (load.rampUpSeconds > 0 || load.maxConcurrent == 1 || load.totalCalls <= load.maxConcurrent + 1)
  {
    var g := SortedDemand(load, durationMs);
    if load.rampUpSeconds > 0 {
      forall i: nat, j: nat | i < j < load.totalCalls
        ensures Candidates(load)[i].startOffsetMs != Candidates(load)[j].startOffsetMs
      {
        OffsetsIncreasing(i, j, load);
      }
      DistinctCandidates(load, durationMs);
    } else {
      AllReadyAtOnce(load, durationMs);
      PracticalExact(load, durationMs);
      AllAtOnceSafe(g);
    }
  }

  lemma AllReadyAtOnce(load: LoadSettings, durationMs: int)
    requires Runnable(load, durationMs) && load.callStartJitterMs <= 0 && load.rampUpSeconds <= 0
    ensures var g := SortedDemand(load, durationMs);
      |g.ready| == load.totalCalls && forall i :: 0 <= i < |g.ready| ==> g.ready[i] == 0
  {
    SortedLength(Candidates(load));
    forall k | 0 <= k < load.totalCalls ensures SortCalls(Candidates(load))[k].startOffsetMs == 0 {
      SortedCallPlanned(load, k);
    }
  }

  lemma AllAtOnceSafe(g: Demand)
    requires forall i :: 0 <= i < |g.ready| ==> g.ready[i] == 0
    ensures NoSharedRelease(g) <==> g.slots == 1 || |g.ready| <= g.slots + 1
  {
    if g.slots >= 2 && |g.ready| >= g.slots + 2 {
      assert Fifo(g, g.slots) == g.duration && Fifo(g, 0) == Fifo(g, 1) == 0;
      assert !SafeAt(g, g.slots);
    } else {
      forall j ensures SafeAt(g, j) {
        if 1 <= j && j + 1 < |g.ready| && g.slots == 1 {
          RoundTakesTime(g, j);
        }
      }
    }
  }

  lemma {:induction false} RoundTakesTime(g: Demand, j: nat)
    requires forall i :: 0 <= i < |g.ready| ==> g.ready[i] == 0
    requires g.slots == 1 && 1 <= j < |g.ready|
    ensures Fifo(g, j) == Fifo(g, j - 1) + g.duration && Fifo(g, j - 1) >= 0
  {
    if j > 1 {
      RoundTakesTime(g, j - 1);
    }
  }

  // The smallest failing shape: with no ramp and no jitter, two slots and four
  // calls, three calls run at once from the first instant although the
  // reported peak is two.
  lemma TiedCandidatesOverlap(cps: int, durationMs: int)
    requires 0 < cps <= 1000 && durationMs > 0
    ensures var g := SortedDemand(LoadSettings(cps, 2, 4, 0, 0), durationMs);
      && ReportedPeak(g, 4) == 2
      && exists t :: |Live(Starts(g), durationMs, t)| > 2
  {
    var load := LoadSettings(cps, 2, 4, 0, 0);
    var g := SortedDemand(load, durationMs);
    AllReadyAtOnce(load, durationMs);
    JitterFreeExact(load, durationMs);
    HeapFits(g, 4);
    assert |Heap(g, 1)| == 1;
    assert |Heap(g, 2)| == 2;
  }
}
