// How far a practical schedule can exceed its limit: with two slots and every
// call ready at once, each shared release lets one more call start at once.
module TiedCandidates {
  import opened Arithmetic
  import opened EndTimeQueues
  import opened GreedySchedules
  import opened Concurrency
  import opened RunSchedules
  import opened Ramp
  import opened PracticalSchedules
  import opened PracticalLimits

  // The calls placed once round c is over: 0, 1, 3, 6, ...
  ghost function Triangle(c: nat): nat {
    if c == 0 then 0 else Triangle(c - 1) + c
  }

  ghost predicate TwoSlotsAtOnce(g: Demand) {
    g.slots == 2 && forall i :: 0 <= i < |g.ready| ==> g.ready[i] == 0
  }

  // The three kinds of heap a call meets: one slot free, two slots that end
  // apart, and two that end together.
  lemma PlaceOnFree(only: int, d: int)
    requires 0 < d <= only
    ensures PlacedAt([only], 0, 2) == 0 && HeapAfter([only], 0, 2, d) == [d, only]
  {
    assert DropEnded([only], 0) == [only];
    InsertOne(only, d);
  }

  lemma InsertOne(only: int, e: int)
    requires e <= only
    ensures Insert([only], e) == [e, only]
  {
    assert [only][1..] == [] && Insert([], e) == [e];
  }

  lemma PlaceOnApart(least: int, other: int, d: int)
    requires 0 < d && 0 < least && least + d <= other
    ensures HeapAfter([least, other], 0, 2, d) == [least + d, other]
  {
    assert [least, other][1..] == [other];
    assert DropEnded([least, other], 0) == [least, other];
    assert DropEnded([other], least) == [other];
    InsertOne(other, least + d);
  }

  lemma PlaceOnTogether(end: int, d: int)
    requires 0 < d && 0 < end
    ensures HeapAfter([end, end], 0, 2, d) == [end + d]
  {
    assert [end, end][1..] == [end] && [end][1..] == [];
    assert DropEnded([end, end], 0) == [end, end];
    assert DropEnded([], end) == [];
    assert DropEnded([end], end) == [];
    assert Insert([], end + d) == [end + d];
  }

  // After round c one slot is taken, up to the end of c durations.
  lemma {:induction false} AfterRound(g: Demand, c: nat)
    requires TwoSlotsAtOnce(g) && 0 < c && Triangle(c) <= |g.ready|
    ensures Heap(g, Triangle(c)) == [c * g.duration]
    decreases c, 0
  {
    if c == 1 {
      assert Triangle(1) == 1 && Heap(g, 0) == [];
    } else {
      InRound(g, c - 1, c - 1);
      PlaceOnTogether((c - 1) * g.duration, g.duration);
    }
  }

  // Round c + 1 fills the other slot from the start, one duration at a time.
  lemma {:induction false} InRound(g: Demand, c: nat, j: nat)
    requires TwoSlotsAtOnce(g) && 0 < j <= c && Triangle(c) + j <= |g.ready|
    ensures Heap(g, Triangle(c) + j) == [j * g.duration, c * g.duration]
    ensures 0 < j * g.duration <= c * g.duration
    decreases c, j
  {
    MulOrder(g.duration, 1, j);
    MulOrder(g.duration, j, c);
    if j == 1 {
      AfterRound(g, c);
      PlaceOnFree(c * g.duration, g.duration);
    } else {
      InRound(g, c, j - 1);
      assert j * g.duration == (j - 1) * g.duration + g.duration;
      PlaceOnApart((j - 1) * g.duration, c * g.duration, g.duration);
    }
  }

  lemma StartsAtOnce(g: Demand, c: nat)
    requires TwoSlotsAtOnce(g) && Triangle(c) < |g.ready|
    ensures StartAt(g, Triangle(c)) == 0
  {
    if c > 0 {
      AfterRound(g, c);
      MulOrder(g.duration, 1, c);
      PlaceOnFree(c * g.duration, g.duration);
    }
  }

  // The first calls of rounds 0, ..., k.
  ghost function FirstCalls(k: nat): (s: set<nat>)
    ensures |s| == k + 1 && forall i <- s :: i <= Triangle(k)
  {
    if k == 0 then {0} else FirstCalls(k - 1) + {Triangle(k)}
  }

  lemma {:induction false} FirstCallsLive(g: Demand, k: nat)
    requires TwoSlotsAtOnce(g) && Triangle(k) < |g.ready|
    ensures FirstCalls(k) <= Live(Starts(g), g.duration, 0)
  {
    StartsAtOnce(g, k);
    assert Starts(g)[Triangle(k)] == 0;
    if k > 0 {
      FirstCallsLive(g, k - 1);
    }
  }

  lemma MoreAndMore(g: Demand, k: nat)
    requires TwoSlotsAtOnce(g) && |g.ready| == Triangle(k) + 1 && k > 0
    ensures |Live(Starts(g), g.duration, 0)| > k && ReportedPeak(g, |g.ready|) == 2
  {
    FirstCallsLive(g, k);
    SubsetSize(FirstCalls(k), Live(Starts(g), g.duration, 0));
    assert Triangle(1) == Triangle(0) + 1;
    InRound(g, 1, 1);
    assert |Heap(g, 2)| == 2;
    HeapFits(g, |g.ready|);
    var at := PeakIsLargestHeap(g, |g.ready|);
  }

  // No bound on the overlap follows from the limit: for every k there is a plan
  // for two slots, with no ramp and no jitter, that has more than k calls live
  // at the first instant and reports a peak of two.
  lemma OverlapUnbounded(cps: int, durationMs: int, k: nat)
    requires 0 < cps <= 1000 && durationMs > 0 && k > 0
    ensures var n := Triangle(k) + 1;
      var g := SortedDemand(LoadSettings(cps, 2, n, 0, 0), durationMs);
      |Live(Starts(g), durationMs, 0)| > k && ReportedPeak(g, n) == 2
  {
    var load := LoadSettings(cps, 2, Triangle(k) + 1, 0, 0);
    AllReadyAtOnce(load, durationMs);
    MoreAndMore(SortedDemand(load, durationMs), k);
  }
}
