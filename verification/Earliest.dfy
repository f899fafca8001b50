// First-in first-out service is the earliest feasible schedule.
module Earliest {
  import opened Arithmetic
  import opened EndTimeQueues
  import opened GreedySchedules
  import opened FifoTheory
  import opened Concurrency

  lemma FifoFeasible(g: Demand)
    requires Nondecreasing(g.ready)
    ensures Feasible(FifoStarts(g), g)
  {
    FifoBounded(g);
  }

  // Before call k starts, no feasible schedule, in whatever order it takes the
  // calls, has started more than k of them.
  lemma {:induction false} NoHeadStart(g: Demand, a: seq<int>, k: nat)
    requires Nondecreasing(g.ready) && Feasible(a, g)
    requires k < |g.ready|
    ensures |Started(a, Fifo(g, k) - 1)| <= k
  {
    var t := Fifo(g, k) - 1;
    if t < g.ready[k] {
      StartedWhenReady(g.ready, a, t, k);
    } else {
      NoHeadStart(g, a, k - g.slots);
      StartedOrLive(a, g.duration, t);
      assert |Live(a, g.duration, t)| <= g.slots;
    }
  }

  lemma StartedWhenReady(ready: seq<int>, a: seq<int>, t: int, k: nat)
    requires Nondecreasing(ready) && |a| == |ready|
    requires forall i :: 0 <= i < |a| ==> ready[i] <= a[i]
    requires k < |ready| && t < ready[k]
    ensures |Started(a, t)| <= k
  {
    forall i | i in Started(a, t) ensures i < k {
      assert ready[i] <= a[i];
    }
    SubsetSize(Started(a, t), Span(0, k));
  }

  lemma StartedOrLive(a: seq<int>, duration: int, t: int)
    ensures |Started(a, t)| <= |Started(a, t - duration)| + |Live(a, duration, t)|
  {
    SubsetSize(Started(a, t), Started(a, t - duration) + Live(a, duration, t));
  }

  // At every instant it has started at least as many calls as any feasible
  // schedule has.
  lemma FifoDominates(g: Demand, a: seq<int>, t: int)
    requires Nondecreasing(g.ready) && Feasible(a, g)
    ensures |Started(a, t)| <= |Started(FifoStarts(g), t)|
  {
    FifoSorted(g);
    var k := StartedCount(FifoStarts(g), t);
    SubsetSize(Span(0, k), Started(FifoStarts(g), t));
    if k < |g.ready| {
      assert FifoStarts(g)[k] > t;
      NoHeadStart(g, a, k);
      SubsetSize(Started(a, t), Started(a, Fifo(g, k) - 1));
    } else {
      SubsetSize(Started(a, t), Span(0, k));
    }
  }

  // No feasible schedule has its last start, and so its last end, sooner.
  lemma NoneFinishesSooner(g: Demand, a: seq<int>) returns (last: nat)
    requires Nondecreasing(g.ready) && Feasible(a, g) && |a| > 0
    ensures last < |a| && a[last] >= Fifo(g, |a| - 1)
  {
    var t := Fifo(g, |a| - 1) - 1;
    NoHeadStart(g, a, |a| - 1);
    if forall i :: 0 <= i < |a| ==> a[i] <= t {
      SubsetSize(Span(0, |a|), Started(a, t));
      assert false;
    }
    last :| last < |a| && a[last] > t;
  }

  // Call by call, it is the earliest among the schedules that start the calls
  // in index order.
  lemma PointwiseEarliest(g: Demand, a: seq<int>, i: nat)
    requires Nondecreasing(g.ready) && Feasible(a, g) && Nondecreasing(a)
    requires i < |a|
    ensures Fifo(g, i) <= a[i]
  {
    NoHeadStart(g, a, i);
    if a[i] < Fifo(g, i) {
      SubsetSize(Span(0, i + 1), Started(a, Fifo(g, i) - 1));
      assert false;
    }
  }

  // ---------- The start times in closed form ----------

  // The start of call i is the largest of the ready times of the calls
  // i, i - slots, i - 2 * slots, ..., each raised by the calls served between.
  lemma FifoIsLargestChain(g: Demand, i: nat) returns (hops: nat)
    requires i < |g.ready|
    ensures hops * g.slots <= i && Fifo(g, i) == g.ready[i - hops * g.slots] + hops * g.duration
    ensures forall k: nat :: k * g.slots <= i ==>
              g.ready[i - k * g.slots] + k * g.duration <= Fifo(g, i)
  {
    hops := ChainAttained(g, i);
    forall k: nat | k * g.slots <= i
      ensures g.ready[i - k * g.slots] + k * g.duration <= Fifo(g, i)
    {
      ChainBelow(g, i, k);
    }
  }

  lemma {:induction false} ChainAttained(g: Demand, i: nat) returns (hops: nat)
    requires i < |g.ready|
    ensures hops * g.slots <= i && Fifo(g, i) == g.ready[i - hops * g.slots] + hops * g.duration
  {
    if Fifo(g, i) == g.ready[i] {
      hops := 0;
    } else {
      var before := ChainAttained(g, i - g.slots);
      hops := before + 1;
      OneMore(before, g.slots);
      OneMore(before, g.duration);
    }
  }

  lemma {:induction false} ChainBelow(g: Demand, i: nat, k: nat)
    requires i < |g.ready| && k * g.slots <= i
    ensures g.ready[i - k * g.slots] + k * g.duration <= Fifo(g, i)
  {
    if k > 0 {
      FactorGrows(k, g.slots);
      OneMore(k - 1, g.slots);
      OneMore(k - 1, g.duration);
      ChainBelow(g, i - g.slots, k - 1);
    }
  }

  lemma FactorGrows(k: nat, m: nat)
    requires k > 0
    ensures k * m >= m
  {
  }

  // In particular it is at most the own ready time plus one duration for each
  // full round of slots before it.
  lemma {:induction false} FifoWithinRounds(g: Demand, i: nat, rounds: nat)
    requires Nondecreasing(g.ready) && i < |g.ready|
    requires i < (rounds + 1) * g.slots
    ensures g.ready[i] <= Fifo(g, i) <= g.ready[i] + rounds * g.duration
    decreases rounds
  {
    assert rounds * g.duration >= 0;
    if i >= g.slots {
      assert rounds > 0;
      assert (rounds + 1) * g.slots == rounds * g.slots + g.slots;
      FifoWithinRounds(g, i - g.slots, rounds - 1);
      assert (rounds - 1) * g.duration == rounds * g.duration - g.duration;
    }
  }
}
