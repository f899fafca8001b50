// buildPracticalSchedule: the greedy loop over ramped, jittered and sorted
// candidate times.
module PracticalSchedules {
  import opened Results
  import opened EndTimeQueues
  import opened GreedySchedules
  import opened FifoTheory
  import opened Concurrency
  import opened RunSchedules
  import opened Ramp

  datatype PracticalSchedule = PracticalSchedule(
    schedule: RunSchedule, simulatedCallDurationMs: int, firstStartMs: int, lastStartMs: int, totalScheduleMs: int)

  function SimulatedCallDurationMs(holdSecondsMax: int): (ms: int)
    ensures ms >= 1 && ms >= 1000 * holdSecondsMax && (ms == 1 || ms == 1000 * holdSecondsMax)
  {
    if holdSecondsMax * 1000 > 1 then holdSecondsMax * 1000 else 1
  }

  function DeterministicJitterMs(index: nat, jitterMs: int): nat {
    if jitterMs <= 0 then 0 else index * 37 % (jitterMs + 1)
  }

  function CandidateOffsetMs(i: nat, load: LoadSettings): int
    requires load.cps > 0
  {
    RampedStartOffsetMs(i, load) + DeterministicJitterMs(i, load.callStartJitterMs)
  }

  ghost function Candidates(load: LoadSettings): (s: seq<ScheduledCall>)
    requires load.cps > 0 && load.totalCalls >= 0
    ensures |s| == load.totalCalls
    ensures forall i :: 0 <= i < |s| ==> s[i] == ScheduledCall(i, CandidateOffsetMs(i, load))
  {
    seq(load.totalCalls, i requires 0 <= i => ScheduledCall(i, CandidateOffsetMs(i, load)))
  }

  // A candidate is its ramp offset plus a jitter of at most jitterMs, the
  // remainder of 37 times its number; jitter and ramp do not affect each other.
  lemma CandidateExactly(i: nat, load: LoadSettings) returns (rounds: nat)
    requires load.cps > 0
    ensures var jitter := CandidateOffsetMs(i, load) - RampedStartOffsetMs(i, load);
      && (load.callStartJitterMs <= 0 ==> jitter == 0)
      && (load.callStartJitterMs > 0 ==>
            0 <= jitter <= load.callStartJitterMs && 37 * i == rounds * (load.callStartJitterMs + 1) + jitter)
  {
    rounds := 0;
    if load.callStartJitterMs > 0 {
      var range := load.callStartJitterMs + 1;
      rounds := i * 37 / range;
      assert 37 * i == rounds * range + i * 37 % range;
    }
  }

  // ---------- Sorting by offset, then by index ----------

  predicate Before(a: ScheduledCall, b: ScheduledCall) {
    a.startOffsetMs < b.startOffsetMs || (a.startOffsetMs == b.startOffsetMs && a.index < b.index)
  }

  function InsertCall(call: ScheduledCall, s: seq<ScheduledCall>): (r: seq<ScheduledCall>) {
    if s == [] then [call]
    else if Before(s[0], call) then [s[0]] + InsertCall(call, s[1..])
    else [call] + s
  }

  function SortCalls(s: seq<ScheduledCall>): seq<ScheduledCall> {
    if s == [] then [] else InsertCall(s[0], SortCalls(s[1..]))
  }

  ghost function IndicesOf(calls: seq<ScheduledCall>): (s: seq<int>)
    ensures |s| == |calls|
    ensures forall i :: 0 <= i < |s| ==> s[i] == calls[i].index
  {
    if calls == [] then [] else [calls[0].index] + IndicesOf(calls[1..])
  }

  ghost predicate DistinctOffsets(s: seq<ScheduledCall>) {
    forall i, j :: 0 <= i < j < |s| ==> s[i].startOffsetMs != s[j].startOffsetMs
  }

  lemma {:induction false} InsertKeepsCalls(call: ScheduledCall, s: seq<ScheduledCall>)
    ensures multiset(InsertCall(call, s)) == multiset(s) + multiset{call}
  {
    if s != [] {
      assert s == [s[0]] + s[1..];
      InsertKeepsCalls(call, s[1..]);
    }
  }

  lemma {:induction false} InsertKeepsIndices(call: ScheduledCall, s: seq<ScheduledCall>)
    ensures multiset(IndicesOf(InsertCall(call, s))) == multiset(IndicesOf(s)) + multiset{call.index}
  {
    var r := InsertCall(call, s);
    if s != [] && r != [call] + s {
      InsertKeepsIndices(call, s[1..]);
      assert r[1..] == InsertCall(call, s[1..]);
    } else if s != [] {
      assert r[1..] == s;
    }
  }

  lemma {:induction false} SortKeepsCalls(s: seq<ScheduledCall>)
    ensures multiset(SortCalls(s)) == multiset(s)
  {
    if s != [] {
      SortKeepsCalls(s[1..]);
      InsertKeepsCalls(s[0], SortCalls(s[1..]));
      assert s == [s[0]] + s[1..];
    }
  }

  lemma {:induction false} SortKeepsIndices(s: seq<ScheduledCall>)
    ensures multiset(IndicesOf(SortCalls(s))) == multiset(IndicesOf(s))
  {
    if s != [] {
      SortKeepsIndices(s[1..]);
      InsertKeepsIndices(s[0], SortCalls(s[1..]));
    }
  }

  ghost predicate Ordered(s: seq<ScheduledCall>) {
    forall i, j :: 0 <= i < j < |s| ==>
      s[i].startOffsetMs < s[j].startOffsetMs
      || (s[i].startOffsetMs == s[j].startOffsetMs && s[i].index <= s[j].index)
  }

  lemma {:induction false} InsertOrdered(call: ScheduledCall, s: seq<ScheduledCall>)
    requires Ordered(s)
    ensures Ordered(InsertCall(call, s))
  {
    if s != [] {
      if Before(s[0], call) {
        InsertOrdered(call, s[1..]);
        InsertKeepsCalls(call, s[1..]);
        PrependOrdered(s[0], InsertCall(call, s[1..]), call, s[1..]);
      } else {
        forall j | 0 <= j < |s| ensures !Before(s[j], call) {
          assert j > 0 ==> !Before(s[j], s[0]);
        }
      }
    }
  }

  lemma PrependOrdered(first: ScheduledCall, r: seq<ScheduledCall>, call: ScheduledCall, s: seq<ScheduledCall>)
    requires Ordered(r) && multiset(r) == multiset(s) + multiset{call}
    requires !Before(call, first) && forall x <- s :: !Before(x, first)
    ensures Ordered([first] + r)
  {
    forall j | 0 <= j < |r| ensures !Before(r[j], first) {
      assert r[j] in multiset(r);
    }
  }

  lemma {:induction false} SortOrders(s: seq<ScheduledCall>)
    ensures Ordered(SortCalls(s))
  {
    if s != [] {
      SortOrders(s[1..]);
      InsertOrdered(s[0], SortCalls(s[1..]));
    }
  }

  // Any ordered arrangement of the same calls is this one, so it does not
  // matter how they are sorted.
  lemma {:induction false} SortIsUnique(s: seq<ScheduledCall>, other: seq<ScheduledCall>)
    requires Ordered(other) && multiset(other) == multiset(s)
    ensures SortCalls(s) == other
  {
    SortOrders(s);
    SortKeepsCalls(s);
    OrderedUnique(SortCalls(s), other);
  }

  lemma {:induction false} OrderedUnique(a: seq<ScheduledCall>, b: seq<ScheduledCall>)
    requires Ordered(a) && Ordered(b) && multiset(a) == multiset(b)
    ensures a == b
  {
    assert |multiset(a)| == |a| && |multiset(b)| == |b|;
    if a != [] {
      SameFirst(a, b);
      WithoutFirst(a);
      WithoutFirst(b);
      OrderedUnique(a[1..], b[1..]);
    }
  }

  lemma WithoutFirst(a: seq<ScheduledCall>)
    requires Ordered(a) && a != []
    ensures Ordered(a[1..]) && multiset(a[1..]) == multiset(a) - multiset{a[0]}
    ensures a == [a[0]] + a[1..]
  {
    assert a == [a[0]] + a[1..];
  }

  lemma SameFirst(a: seq<ScheduledCall>, b: seq<ScheduledCall>)
    requires Ordered(a) && Ordered(b) && multiset(a) == multiset(b) && a != [] && b != []
    ensures a[0] == b[0]
  {
    assert a[0] in multiset(b) && b[0] in multiset(a);
    var i :| 0 <= i < |b| && b[i] == a[0];
    var j :| 0 <= j < |a| && a[j] == b[0];
  }

  lemma {:induction false} InsertKeepsDistinct(call: ScheduledCall, s: seq<ScheduledCall>)
    requires DistinctOffsets(s) && forall x <- s :: x.startOffsetMs != call.startOffsetMs
    ensures DistinctOffsets(InsertCall(call, s))
  {
    if s != [] && Before(s[0], call) {
      InsertKeepsDistinct(call, s[1..]);
      InsertKeepsCalls(call, s[1..]);
      PrependDistinct(s[0], InsertCall(call, s[1..]), call, s[1..]);
    }
  }

  lemma PrependDistinct(first: ScheduledCall, r: seq<ScheduledCall>, call: ScheduledCall, s: seq<ScheduledCall>)
    requires DistinctOffsets(r) && multiset(r) == multiset(s) + multiset{call}
    requires call.startOffsetMs != first.startOffsetMs
    requires forall x <- s :: x.startOffsetMs != first.startOffsetMs
    ensures DistinctOffsets([first] + r)
  {
    forall j | 0 <= j < |r| ensures r[j].startOffsetMs != first.startOffsetMs {
      assert r[j] in multiset(r);
    }
  }

  lemma {:induction false} SortKeepsDistinct(s: seq<ScheduledCall>)
    requires DistinctOffsets(s)
    ensures DistinctOffsets(SortCalls(s))
  {
    if s != [] {
      SortKeepsDistinct(s[1..]);
      SortKeepsCalls(s[1..]);
      forall x <- SortCalls(s[1..]) ensures x.startOffsetMs != s[0].startOffsetMs {
        assert x in multiset(s[1..]);
      }
      InsertKeepsDistinct(s[0], SortCalls(s[1..]));
    }
  }

  // ---------- The schedule ----------

  ghost function SortedDemand(load: LoadSettings, durationMs: int): (g: Demand)
    requires load.cps > 0 && load.totalCalls >= 0 && load.maxConcurrent > 0 && durationMs > 0
    ensures |g.ready| == load.totalCalls && g.slots == load.maxConcurrent && g.duration == durationMs
  {
    SortedLength(Candidates(load));
    Demand(StartsOf(SortCalls(Candidates(load))), load.maxConcurrent, durationMs)
  }

  ghost predicate IsLeast(s: seq<int>, x: int) {
    x in s && forall y <- s :: x <= y
  }

  ghost predicate IsGreatest(s: seq<int>, x: int) {
    x in s && forall y <- s :: y <= x
  }

  // What a practical schedule of these settings is.
  ghost predicate IsPractical(load: LoadSettings, durationMs: int, p: PracticalSchedule)
    requires load.cps > 0 && load.totalCalls > 0 && load.maxConcurrent > 0 && durationMs > 0
  {
    var g := SortedDemand(load, durationMs);
    var starts := StartsOf(p.schedule.calls);
    && p.simulatedCallDurationMs == durationMs
    && p.schedule.totalPlannedCalls == |p.schedule.calls| == load.totalCalls
    && IndicesOf(p.schedule.calls) == IndicesOf(SortCalls(Candidates(load)))
    && multiset(IndicesOf(p.schedule.calls)) == multiset(Upto(load.totalCalls))
    && (forall k :: 0 <= k < load.totalCalls ==> PlacedInTime(p.schedule.calls[k], load))
    && starts == Starts(g)
    && IsLeast(starts, p.firstStartMs)
    && IsGreatest(starts, p.lastStartMs)
    && p.totalScheduleMs == p.lastStartMs + durationMs
    && p.schedule.maxSimultaneousCalls == ReportedPeak(g, load.totalCalls)
  }

  ghost function Upto(n: nat): (s: seq<int>)
    ensures |s| == n
    ensures forall i :: 0 <= i < n ==> s[i] == i
  {
    seq(n, i => i)
  }

  // The call is one of the planned ones and does not start before its own
  // candidate time.
  ghost predicate PlacedInTime(call: ScheduledCall, load: LoadSettings)
    requires load.cps > 0
  {
    0 <= call.index < load.totalCalls && call.startOffsetMs >= CandidateOffsetMs(call.index, load)
  }

  method BuildPracticalSchedule(load: LoadSettings, holdSecondsMax: int)
    returns (r: Result<PracticalSchedule, PlanError>)
    ensures var plan := RunPlan(load.cps, load.maxConcurrent, load.totalCalls);
      var durationMs := SimulatedCallDurationMs(holdSecondsMax);
      if !Accepted(plan, durationMs) then r == Failure(Rejection(plan, durationMs))
      else r.Success? && IsPractical(load, durationMs, r.value)
  {
    var durationMs := SimulatedCallDurationMs(holdSecondsMax);
    var base := BuildRunSchedule(RunPlan(load.cps, load.maxConcurrent, load.totalCalls), durationMs);
    if base.Failure? {
      return Failure(base.error);
    }
    var candidateCalls := BuildCandidates(base.value.calls, load);
    SortedLength(candidateCalls);
    var calls, peak, firstStartMs, lastStartMs, totalScheduleMs :=
      PlaceSorted(SortCalls(candidateCalls), load.maxConcurrent, durationMs);
    GreedyIsPlaced(SortCalls(candidateCalls), load.maxConcurrent, durationMs);
    SortedIsPlanned(load, calls);
    ExtremesHold(SortedDemand(load, durationMs));
    var schedule := RunSchedule(base.value.totalPlannedCalls, peak, calls);
    return Success(PracticalSchedule(schedule, durationMs, firstStartMs, lastStartMs, totalScheduleMs));
  }

  // The first loop of the function: it keeps the indices of the base schedule
  // and none of its offsets.
  method BuildCandidates(baseCalls: seq<ScheduledCall>, load: LoadSettings)
    returns (candidateCalls: seq<ScheduledCall>)
    requires load.cps > 0 && |baseCalls| == load.totalCalls
    requires forall i :: 0 <= i < |baseCalls| ==> baseCalls[i].index == i
    ensures candidateCalls == Candidates(load)
  {
    candidateCalls := [];
    for i := 0 to |baseCalls|
      invariant |candidateCalls| == i
      invariant forall k :: 0 <= k < i ==> candidateCalls[k] == ScheduledCall(k, CandidateOffsetMs(k, load))
    {
      candidateCalls := candidateCalls + [ScheduledCall(baseCalls[i].index, CandidateOffsetMs(i, load))];
    }
  }

  ghost function EarliestStart(g: Demand, k: nat): int
    requires 0 < k <= |g.ready|
  {
    if k == 1 then StartAt(g, 0) else
      var before := EarliestStart(g, k - 1);
      if StartAt(g, k - 1) < before then StartAt(g, k - 1) else before
  }

  ghost function LatestStart(g: Demand, k: nat): int
    requires 0 < k <= |g.ready|
  {
    if k == 1 then StartAt(g, 0) else
      var before := LatestStart(g, k - 1);
      if StartAt(g, k - 1) > before then StartAt(g, k - 1) else before
  }

  lemma {:induction false} ExtremesExact(g: Demand, k: nat)
    requires 0 < k <= |g.ready|
    ensures IsLeast(Starts(g)[..k], EarliestStart(g, k))
    ensures IsGreatest(Starts(g)[..k], LatestStart(g, k))
  {
    if k == 1 {
      assert Starts(g)[..1] == [StartAt(g, 0)];
    } else {
      ExtremesExact(g, k - 1);
      LeastExtends(Starts(g), k - 1, EarliestStart(g, k - 1));
      GreatestExtends(Starts(g), k - 1, LatestStart(g, k - 1));
    }
  }

  lemma LeastExtends(s: seq<int>, k: nat, x: int)
    requires k < |s| && IsLeast(s[..k], x)
    ensures IsLeast(s[..k + 1], if s[k] < x then s[k] else x)
  {
    assert s[..k + 1] == s[..k] + [s[k]];
  }

  lemma GreatestExtends(s: seq<int>, k: nat, x: int)
    requires k < |s| && IsGreatest(s[..k], x)
    ensures IsGreatest(s[..k + 1], if s[k] > x then s[k] else x)
  {
    assert s[..k + 1] == s[..k] + [s[k]];
  }

  lemma ExtremesHold(g: Demand)
    requires |g.ready| > 0
    ensures IsLeast(Starts(g), EarliestStart(g, |g.ready|))
    ensures IsGreatest(Starts(g), LatestStart(g, |g.ready|))
  {
    ExtremesExact(g, |g.ready|);
    assert Starts(g)[..|g.ready|] == Starts(g);
  }

  // The same calls in the same order, none of them moved forward.
  ghost predicate PlacedFrom(sorted: seq<ScheduledCall>, calls: seq<ScheduledCall>) {
    && |calls| == |sorted|
    && forall k :: 0 <= k < |calls| ==>
         calls[k].index == sorted[k].index && calls[k].startOffsetMs >= sorted[k].startOffsetMs
  }

  // The second loop of the function: greedy placement of the sorted
  // candidates, with its running minimum and maxima.
  method PlaceSorted(sorted: seq<ScheduledCall>, slots: int, durationMs: int)
    returns (calls: seq<ScheduledCall>, peak: int, firstStartMs: int, lastStartMs: int, totalScheduleMs: int)
    requires sorted != [] && slots > 0 && durationMs > 0
    ensures var g := Demand(StartsOf(sorted), slots, durationMs);
      && |calls| == |sorted|
      && calls == Placed(sorted, g, |sorted|)
      && peak == ReportedPeak(g, |sorted|)
      && firstStartMs == EarliestStart(g, |sorted|)
      && lastStartMs == LatestStart(g, |sorted|)
      && totalScheduleMs == lastStartMs + durationMs
  {
    ghost var g := Demand(StartsOf(sorted), slots, durationMs);
    calls, peak := [], 0;
    firstStartMs, lastStartMs, totalScheduleMs := 0, 0, 0;
    var hasCalls := false;
    var activeCallEndTimes := new EndTimeQueue();
    for i := 0 to |sorted|
      invariant activeCallEndTimes.Valid() && fresh(activeCallEndTimes)
      invariant activeCallEndTimes.items == Heap(g, i) && peak == ReportedPeak(g, i)
      invariant calls == Placed(sorted, g, i) && (hasCalls <==> i > 0)
      invariant hasCalls ==> firstStartMs == EarliestStart(g, i) && lastStartMs == LatestStart(g, i)
      invariant hasCalls ==> totalScheduleMs == lastStartMs + durationMs
    {
      var scheduledStartMs := PlaceCall(activeCallEndTimes, sorted[i].startOffsetMs, slots, durationMs);
      var live := |activeCallEndTimes.items|;
      peak := if live > peak then live else peak;
      calls := calls + [ScheduledCall(sorted[i].index, scheduledStartMs)];
      PlacedNext(sorted, g, i);
      firstStartMs, lastStartMs, totalScheduleMs :=
        Widen(hasCalls, firstStartMs, lastStartMs, totalScheduleMs, scheduledStartMs, durationMs);
      hasCalls := true;
    }
  }

  // The running bounds with one more start.
  method Widen(hasCalls: bool, first: int, last: int, total: int, startMs: int, durationMs: int)
    returns (firstStartMs: int, lastStartMs: int, totalScheduleMs: int)
    requires hasCalls ==> total == last + durationMs
    ensures firstStartMs == if !hasCalls || startMs < first then startMs else first
    ensures lastStartMs == if !hasCalls || startMs > last then startMs else last
    ensures totalScheduleMs == lastStartMs + durationMs
  {
    if !hasCalls {
      firstStartMs := startMs;
      lastStartMs := startMs;
      totalScheduleMs := startMs + durationMs;
    } else {
      firstStartMs := if startMs < first then startMs else first;
      lastStartMs := if startMs > last then startMs else last;
      totalScheduleMs := if startMs + durationMs > total then startMs + durationMs else total;
    }
  }

  // The first k sorted calls with the starts of the greedy loop.
  ghost function Placed(sorted: seq<ScheduledCall>, g: Demand, k: nat): (calls: seq<ScheduledCall>)
    requires k <= |sorted| == |g.ready|
    ensures |calls| == k
  {
    if k == 0 then [] else Placed(sorted, g, k - 1) + [ScheduledCall(sorted[k - 1].index, StartAt(g, k - 1))]
  }

  lemma PlacedNext(sorted: seq<ScheduledCall>, g: Demand, k: nat)
    requires k < |sorted| == |g.ready|
    ensures Placed(sorted, g, k + 1) == Placed(sorted, g, k) + [ScheduledCall(sorted[k].index, StartAt(g, k))]
  {
  }

  lemma {:induction false} PlacedCall(sorted: seq<ScheduledCall>, g: Demand, k: nat, i: nat)
    requires i < k <= |sorted| == |g.ready|
    ensures Placed(sorted, g, k)[i] == ScheduledCall(sorted[i].index, StartAt(g, i))
  {
    if i < k - 1 {
      PlacedCall(sorted, g, k - 1, i);
    }
  }

  lemma SortedLength(s: seq<ScheduledCall>)
    ensures |SortCalls(s)| == |s|
  {
    SortKeepsCalls(s);
    assert |multiset(SortCalls(s))| == |multiset(s)|;
  }

  lemma SortedDemandOrdered(load: LoadSettings, durationMs: int)
    requires load.cps > 0 && load.totalCalls >= 0 && load.maxConcurrent > 0 && durationMs > 0
    ensures Nondecreasing(SortedDemand(load, durationMs).ready)
  {
    SortOrders(Candidates(load));
  }

  lemma NeverEarly(g: Demand, i: nat)
    requires i < |g.ready|
    ensures StartAt(g, i) >= g.ready[i]
  {
    DropEndedHead(Heap(g, i), g.ready[i]);
  }

  lemma {:induction false} DropEndedHead(h: seq<int>, now: int)
    ensures DropEnded(h, now) != [] ==> DropEnded(h, now)[0] > now
  {
    if h != [] && h[0] <= now {
      DropEndedHead(h[1..], now);
    }
  }

  lemma {:induction false} SameIndices(a: seq<ScheduledCall>, b: seq<ScheduledCall>)
    requires |a| == |b| && forall k :: 0 <= k < |a| ==> a[k].index == b[k].index
    ensures IndicesOf(a) == IndicesOf(b)
  {
  }

  lemma PlannedIndices(load: LoadSettings)
    requires load.cps > 0 && load.totalCalls >= 0
    ensures IndicesOf(Candidates(load)) == Upto(load.totalCalls)
  {
  }

  lemma SortedCallPlanned(load: LoadSettings, k: nat)
    requires load.cps > 0 && load.totalCalls >= 0
    requires k < |SortCalls(Candidates(load))|
    ensures SortCalls(Candidates(load))[k] in Candidates(load)
  {
    SortKeepsCalls(Candidates(load));
    assert SortCalls(Candidates(load))[k] in multiset(Candidates(load));
  }

  lemma GreedyIsPlaced(sorted: seq<ScheduledCall>, slots: int, durationMs: int)
    requires slots > 0 && durationMs > 0
    ensures var g := Demand(StartsOf(sorted), slots, durationMs);
      var calls := Placed(sorted, g, |sorted|);
      PlacedFrom(sorted, calls) && StartsOf(calls) == Starts(g)
  {
    var g := Demand(StartsOf(sorted), slots, durationMs);
    forall k | 0 <= k < |sorted|
      ensures Placed(sorted, g, |sorted|)[k] == ScheduledCall(sorted[k].index, StartAt(g, k))
      ensures StartAt(g, k) >= sorted[k].startOffsetMs
    {
      PlacedCall(sorted, g, |sorted|, k);
      NeverEarly(g, k);
    }
  }

  // Calls placed in sorted order and not early are the planned ones, each at or
  // after its own candidate time.
  lemma SortedIsPlanned(load: LoadSettings, calls: seq<ScheduledCall>)
    requires load.cps > 0 && load.totalCalls >= 0
    requires PlacedFrom(SortCalls(Candidates(load)), calls)
    ensures |calls| == load.totalCalls
    ensures IndicesOf(calls) == IndicesOf(SortCalls(Candidates(load)))
    ensures multiset(IndicesOf(calls)) == multiset(Upto(load.totalCalls))
    ensures forall k :: 0 <= k < load.totalCalls ==> PlacedInTime(calls[k], load)
  {
    var planned := Candidates(load);
    SortedLength(planned);
    SortKeepsIndices(planned);
    PlannedIndices(load);
    SameIndices(calls, SortCalls(planned));
    forall k | 0 <= k < |calls| ensures PlacedInTime(calls[k], load) {
      SortedCallPlanned(load, k);
    }
  }
}
