// The greedy placement loop shared by buildRunSchedule and
// buildPracticalSchedule, and the scheduling theory of its output.
module GreedySchedules {
  import opened EndTimeQueues

  // Calls in the order the loop visits them, each with the time it is ready,
  // the number of calls that may be live at once, and how long a call lasts.
  datatype DemandData = Demand(ready: seq<int>, slots: int, duration: int)

  type Demand = g: DemandData | g.slots > 0 && g.duration > 0 witness Demand([], 1, 1)

  // ---------- What the loop computes ----------

  ghost function PlacedAt(h: seq<int>, ready: int, slots: int): int
    requires slots > 0
  {
    var live := DropEnded(h, ready);
    if |live| >= slots then live[0] else ready
  }

  ghost function HeapAfter(h: seq<int>, ready: int, slots: int, duration: int): seq<int>
    requires slots > 0
  {
    var live := DropEnded(h, ready);
    var start := PlacedAt(h, ready, slots);
    Insert(if |live| >= slots then DropEnded(live, start) else live, start + duration)
  }

  // The heap once the first k calls are placed.
  ghost function Heap(g: Demand, k: nat): seq<int>
    requires k <= |g.ready|
  {
    if k == 0 then [] else HeapAfter(Heap(g, k - 1), g.ready[k - 1], g.slots, g.duration)
  }

  ghost function StartAt(g: Demand, i: nat): int
    requires i < |g.ready|
  {
    PlacedAt(Heap(g, i), g.ready[i], g.slots)
  }

  ghost function Starts(g: Demand): (s: seq<int>)
    ensures |s| == |g.ready|
  {
    seq(|g.ready|, i requires 0 <= i < |g.ready| => StartAt(g, i))
  }

  // The largest heap size seen while the first k calls are placed.
  ghost function ReportedPeak(g: Demand, k: nat): (peak: nat)
    requires k <= |g.ready|
  {
    if k == 0 then 0 else
      var before := ReportedPeak(g, k - 1);
      if |Heap(g, k)| > before then |Heap(g, k)| else before
  }

  // One iteration of the loop: free what has ended, delay the call to the
  // earliest end when every slot is taken, and occupy a slot.
  method PlaceCall(queue: EndTimeQueue, ready: int, slots: int, duration: int) returns (start: int)
    requires queue.Valid() && slots > 0
    modifies queue
    ensures queue.Valid()
    ensures start == PlacedAt(old(queue.items), ready, slots)
    ensures queue.items == HeapAfter(old(queue.items), ready, slots, duration)
  {
    queue.PopEnded(ready);
    start := ready;
    if |queue.items| >= slots {
      start := queue.Top();
      queue.PopEnded(start);
    }
    queue.Push(start + duration);
  }

  // ---------- What a schedule should satisfy ----------

  ghost predicate Increasing(s: seq<int>) {
    forall i, j :: 0 <= i < j < |s| ==> s[i] < s[j]
  }

  // The calls live at time t.
  ghost function Live(starts: seq<int>, duration: int, t: int): set<nat> {
    set i: nat | i < |starts| && starts[i] <= t < starts[i] + duration
  }

  // The calls started by time t.
  ghost function Started(starts: seq<int>, t: int): set<nat> {
    set i: nat | i < |starts| && starts[i] <= t
  }

  ghost predicate Bounded(starts: seq<int>, g: Demand) {
    forall t :: |Live(starts, g.duration, t)| <= g.slots
  }

  // `peak` is the largest number of calls live at one time.
  ghost predicate IsPeak(starts: seq<int>, duration: int, peak: int) {
    && (forall t :: |Live(starts, duration, t)| <= peak)
    && (exists t :: |Live(starts, duration, t)| == peak)
  }

  // A schedule of the same calls that never starts one before it is ready and
  // never exceeds the slots.
  ghost predicate Feasible(starts: seq<int>, g: Demand) {
    && |starts| == |g.ready|
    && (forall i :: 0 <= i < |starts| ==> g.ready[i] <= starts[i])
    && Bounded(starts, g)
  }

  // First-in first-out service on g.slots servers: a call waits for its ready
  // time and for the end of the call g.slots places before it.
  ghost function Fifo(g: Demand, i: nat): int
    requires i < |g.ready|
  {
    if i < g.slots then g.ready[i] else
      var freed := Fifo(g, i - g.slots) + g.duration;
      if freed > g.ready[i] then freed else g.ready[i]
  }

  ghost function FifoStarts(g: Demand): (s: seq<int>)
    ensures |s| == |g.ready|
  {
    seq(|g.ready|, i requires 0 <= i < |g.ready| => Fifo(g, i))
  }

  // Freeing every slot that ends at the future time a call is delayed to is
  // harmless unless two of them end together and the next call is ready
  // before that time.
  ghost predicate SafeAt(g: Demand, j: int) {
    (g.slots <= j && j + 1 < |g.ready| && Fifo(g, j) > g.ready[j + 1]) ==>
      Fifo(g, j - g.slots) < Fifo(g, j + 1 - g.slots)
  }

  ghost predicate NoSharedRelease(g: Demand) {
    forall j :: SafeAt(g, j)
  }
}
