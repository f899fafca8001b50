// The concurrency limit and the reported peak of the greedy loop: when they
// hold, for every list of ready times in nondecreasing order.
module Concurrency {
  import opened EndTimeQueues
  import opened GreedySchedules
  import opened FifoTheory

  // ---------- Counting ----------

  // The indices lo, ..., hi - 1.
  ghost function Span(lo: nat, hi: nat): (span: set<nat>)
    ensures forall i :: i in span <==> lo <= i < hi
    ensures lo <= hi ==> |span| == hi - lo
    decreases hi
  {
    if lo >= hi then {} else Span(lo, hi - 1) + {hi - 1}
  }

  lemma {:induction false} SubsetSize<T>(a: set<T>, b: set<T>)
    requires a <= b
    ensures |a| <= |b|
  {
    assert b == a + (b - a);
  }

  lemma {:induction false} Least(s: set<nat>) returns (least: nat)
    requires s != {}
    ensures least in s && forall i <- s :: least <= i
  {
    least :| least in s;
    var rest := s - {least};
    assert forall i <- s :: i == least || i in rest;
    if rest != {} {
      var other := Least(rest);
      if other < least { least := other; }
    }
  }

  // ---------- First-in first-out service keeps the limit ----------

  lemma FifoBounded(g: Demand)
    requires Nondecreasing(g.ready)
    ensures Bounded(FifoStarts(g), g)
  {
    forall t ensures |Live(FifoStarts(g), g.duration, t)| <= g.slots {
      FifoBoundedAt(g, t);
    }
  }

  lemma FifoBoundedAt(g: Demand, t: int)
    requires Nondecreasing(g.ready)
    ensures |Live(FifoStarts(g), g.duration, t)| <= g.slots
  {
    var live := Live(FifoStarts(g), g.duration, t);
    if live != {} {
      var first := Least(live);
      forall i | i in live ensures i < first + g.slots {
        if i >= first + g.slots {
          FifoOrdered(g, first + g.slots, i);
        }
      }
      SubsetSize(live, Span(first, first + g.slots));
    }
  }

  // ---------- A shared release breaks it ----------

  // While a call waits, first-in first-out service has every slot in use.
  lemma BusyWhileWaiting(g: Demand, j: nat, t: int) returns (first: nat)
    requires Nondecreasing(g.ready) && j < |g.ready|
    requires g.ready[j] <= t < Fifo(g, j)
    ensures first + g.slots <= j
    ensures forall i :: first <= i < first + g.slots ==> Fifo(g, i) <= t < Fifo(g, i) + g.duration
  {
    var waiting := set i: nat | i <= j && Fifo(g, i) > t;
    assert j in waiting;
    var p := Least(waiting);
    assert g.ready[p] <= g.ready[j];
    assert p >= g.slots;
    first := p - g.slots;
    forall i | first <= i < p ensures Fifo(g, i) <= t < Fifo(g, i) + g.duration {
      assert i !in waiting;
      FifoOrdered(g, first, i);
    }
  }

  // The call after the first shared release is placed at its ready time, on
  // top of slots that are all in use then.
  lemma SharedReleaseOverlaps(g: Demand, j: nat)
    requires Nondecreasing(g.ready)
    requires !SafeAt(g, j) && forall i :: i < j ==> SafeAt(g, i)
    ensures |Live(Starts(g), g.duration, g.ready[j + 1])| > g.slots
  {
    var t := g.ready[j + 1];
    ReleasedEarly(g, j);
    var first := BusyWhileWaiting(g, j, t);
    Crowded(Starts(g), g.duration, t, first, first + g.slots, j + 1);
  }

  lemma Crowded(starts: seq<int>, duration: int, t: int, lo: nat, hi: nat, extra: nat)
    requires lo <= hi <= extra < |starts|
    requires forall i :: lo <= i < hi ==> starts[i] <= t < starts[i] + duration
    requires starts[extra] <= t < starts[extra] + duration
    ensures |Live(starts, duration, t)| > hi - lo
  {
    SubsetSize(Span(lo, hi) + {extra}, Live(starts, duration, t));
  }

  lemma ReleasedEarly(g: Demand, j: nat)
    requires Nondecreasing(g.ready)
    requires !SafeAt(g, j) && forall i :: i < j ==> SafeAt(g, i)
    ensures forall i :: 0 <= i <= j ==> Starts(g)[i] == Fifo(g, i)
    ensures Starts(g)[j + 1] == g.ready[j + 1]
  {
    var lo := InStepUntil(g, j);
    forall i | 0 <= i <= j ensures Starts(g)[i] == Fifo(g, i) {
      StartInStep(g, j + 1, lo, i);
    }
    SlotReleased(g, j, lo);
  }

  lemma InStepUntil(g: Demand, j: nat) returns (lo: nat)
    requires Nondecreasing(g.ready)
    requires !SafeAt(g, j) && forall i :: i < j ==> SafeAt(g, i)
    ensures j + 1 < |g.ready| && InStep(g, j + 1, lo)
  {
    lo := LoopInStep(g, j + 1);
  }

  lemma StartInStep(g: Demand, k: nat, lo: nat, i: nat)
    requires i < k <= |g.ready| && InStep(g, k, lo)
    ensures Starts(g)[i] == Fifo(g, i)
  {
  }

  lemma SlotReleased(g: Demand, j: nat, lo: nat)
    requires Nondecreasing(g.ready)
    requires !SafeAt(g, j) && InStep(g, j + 1, lo)
    ensures Starts(g)[j + 1] == g.ready[j + 1]
  {
    FifoSorted(g);
    FifoOrdered(g, j - g.slots, j + 1 - g.slots);
    assert lo > j + 1 - g.slots;
    var cut := DropFromRun(Ends(g), lo, j + 1, g.ready[j + 1]);
  }

  lemma {:induction false} FirstUnsafe(g: Demand, j: nat) returns (k: nat)
    requires !SafeAt(g, j)
    ensures !SafeAt(g, k) && forall i :: i < k ==> SafeAt(g, i)
  {
    if i: nat :| i < j && !SafeAt(g, i) {
      k := FirstUnsafe(g, i);
    } else {
      k := j;
      assert forall i :: i < 0 ==> SafeAt(g, i);
    }
  }

  // ---------- The exact condition ----------

  lemma SafeIsFifo(g: Demand)
    requires Nondecreasing(g.ready) && NoSharedRelease(g)
    ensures Starts(g) == FifoStarts(g)
  {
    if |g.ready| > 0 {
      var lo := LoopInStep(g, |g.ready|);
    }
  }

  // The loop keeps the concurrency limit exactly when no two slots that end
  // together are released to calls ready before that end.
  lemma BoundedIffSafe(g: Demand)
    requires Nondecreasing(g.ready)
    ensures Bounded(Starts(g), g) <==> NoSharedRelease(g)
  {
    if NoSharedRelease(g) {
      SafeIsFifo(g);
      FifoBounded(g);
    } else {
      var j: int :| !SafeAt(g, j);
      var k := FirstUnsafe(g, j);
      SharedReleaseOverlaps(g, k);
    }
  }

  // ---------- The reported peak ----------

  lemma {:induction false} HeapFits(g: Demand, k: nat)
    requires k <= |g.ready|
    ensures |Heap(g, k)| <= g.slots && ReportedPeak(g, k) <= g.slots
  {
    if k > 0 {
      HeapFits(g, k - 1);
      var live := DropEnded(Heap(g, k - 1), g.ready[k - 1]);
      DropShrinks(Heap(g, k - 1), g.ready[k - 1]);
      if |live| >= g.slots {
        DropShrinks(live[1..], live[0]);
      }
    }
  }

  lemma {:induction false} DropShrinks(h: seq<int>, now: int)
    ensures |DropEnded(h, now)| <= |h|
  {
    if h != [] && h[0] <= now {
      DropShrinks(h[1..], now);
    }
  }

  lemma {:induction false} PeakIsLargestHeap(g: Demand, k: nat) returns (at: nat)
    requires k <= |g.ready|
    ensures forall i :: 0 <= i <= k ==> |Heap(g, i)| <= ReportedPeak(g, k)
    ensures at <= k && |Heap(g, at)| == ReportedPeak(g, k)
  {
    if k == 0 {
      at := 0;
    } else {
      at := PeakIsLargestHeap(g, k - 1);
      if |Heap(g, k)| > ReportedPeak(g, k - 1) { at := k; }
    }
  }

  lemma HeapRun(g: Demand, k: nat) returns (lo: nat)
    requires Nondecreasing(g.ready) && NoSharedRelease(g)
    requires 0 < k <= |g.ready|
    ensures lo < k && |Heap(g, k)| == k - lo
    ensures forall i :: 0 <= i < lo ==> FifoStarts(g)[i] + g.duration <= Fifo(g, k - 1)
    ensures FifoStarts(g)[lo] + g.duration > Fifo(g, k - 1)
  {
    lo := LoopInStep(g, k);
    assert forall i :: 0 <= i < k ==> Ends(g)[i] == FifoStarts(g)[i] + g.duration;
  }

  // The heap after a placement counts the calls live at that start, and no
  // more calls are live until the next start.
  lemma HeapIsLive(g: Demand, k: nat, t: int)
    requires Nondecreasing(g.ready) && NoSharedRelease(g)
    requires 0 < k <= |g.ready|
    requires Fifo(g, k - 1) <= t
    ensures |Live(FifoStarts(g), g.duration, Fifo(g, k - 1))| >= |Heap(g, k)|
    ensures (k < |g.ready| ==> t < Fifo(g, k)) ==>
              |Live(FifoStarts(g), g.duration, t)| <= |Heap(g, k)|
  {
    var lo := HeapRun(g, k);
    FifoSorted(g);
    LiveAtLeast(FifoStarts(g), g.duration, lo, k, Fifo(g, k - 1));
    if k < |g.ready| ==> t < Fifo(g, k) {
      LiveAtMost(FifoStarts(g), g.duration, lo, k, t);
    }
  }

  lemma LiveAtLeast(s: seq<int>, d: int, lo: nat, hi: nat, t: int)
    requires Nondecreasing(s) && lo < hi <= |s|
    requires s[hi - 1] <= t < s[lo] + d
    ensures |Live(s, d, t)| >= hi - lo
  {
    SubsetSize(Span(lo, hi), Live(s, d, t));
  }

  lemma LiveAtMost(s: seq<int>, d: int, lo: nat, hi: nat, t: int)
    requires Nondecreasing(s) && lo <= hi <= |s|
    requires forall i :: 0 <= i < lo ==> s[i] + d <= t
    requires hi < |s| ==> t < s[hi]
    ensures |Live(s, d, t)| <= hi - lo
  {
    SubsetSize(Live(s, d, t), Span(lo, hi));
  }

  lemma SafePeakExact(g: Demand)
    requires Nondecreasing(g.ready) && NoSharedRelease(g)
    ensures IsPeak(FifoStarts(g), g.duration, ReportedPeak(g, |g.ready|))
  {
    var s := FifoStarts(g);
    var n := |g.ready|;
    var peak := ReportedPeak(g, n);
    var at := PeakIsLargestHeap(g, n);
    FifoSorted(g);
    forall t ensures |Live(s, g.duration, t)| <= peak {
      var k := StartedCount(s, t);
      if k > 0 {
        assert s[k - 1] <= t && (k < n ==> t < s[k]);
        HeapIsLive(g, k, t);
      } else {
        LiveAtMost(s, g.duration, 0, 0, t);
      }
    }
    if at > 0 {
      HeapIsLive(g, at, Fifo(g, at - 1));
      assert |Live(s, g.duration, Fifo(g, at - 1))| == peak;
    } else {
      assert |Live(s, g.duration, 0)| == peak;
    }
  }

  // How many calls of a sorted schedule have started by time t.
  lemma {:induction false} StartedCount(s: seq<int>, t: int) returns (k: nat)
    requires Nondecreasing(s)
    ensures k <= |s|
    ensures forall i :: 0 <= i < |s| ==> (s[i] <= t <==> i < k)
  {
    k := DropEndedKeeps(s, t);
  }

  // The reported peak is the true peak over all instants exactly when the
  // concurrency limit holds; otherwise it under-reports.
  lemma PeakExactIffSafe(g: Demand)
    requires Nondecreasing(g.ready)
    ensures IsPeak(Starts(g), g.duration, ReportedPeak(g, |g.ready|)) <==> NoSharedRelease(g)
    ensures !NoSharedRelease(g) ==>
              exists t :: |Live(Starts(g), g.duration, t)| > ReportedPeak(g, |g.ready|)
  {
    if NoSharedRelease(g) {
      SafeIsFifo(g);
      SafePeakExact(g);
    } else {
      HeapFits(g, |g.ready|);
      BoundedIffSafe(g);
      var t :| |Live(Starts(g), g.duration, t)| > g.slots;
    }
  }
}
