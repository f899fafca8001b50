// When the greedy loop is first-in first-out service, and when it is not.
module FifoTheory {
  import opened EndTimeQueues
  import opened GreedySchedules

  ghost function Ends(g: Demand): (s: seq<int>)
    ensures |s| == |g.ready|
  {
    seq(|g.ready|, i requires 0 <= i < |g.ready| => Fifo(g, i) + g.duration)
  }

  // ---------- Order ----------

  lemma {:induction false} FifoOrdered(g: Demand, i: nat, j: nat)
    requires Nondecreasing(g.ready)
    requires i <= j < |g.ready|
    ensures Fifo(g, i) <= Fifo(g, j)
    decreases j
  {
    if i < g.slots {
      assert g.ready[i] <= g.ready[j] <= Fifo(g, j);
    } else {
      FifoOrdered(g, i - g.slots, j - g.slots);
    }
  }

  lemma {:induction false} FifoStrictlyOrdered(g: Demand, i: nat, j: nat)
    requires Increasing(g.ready)
    requires i < j < |g.ready|
    ensures Fifo(g, i) < Fifo(g, j)
    decreases j
  {
    if i < g.slots {
      assert g.ready[i] < g.ready[j] <= Fifo(g, j);
    } else {
      FifoStrictlyOrdered(g, i - g.slots, j - g.slots);
    }
  }

  lemma FifoSorted(g: Demand)
    requires Nondecreasing(g.ready)
    ensures Nondecreasing(FifoStarts(g)) && Nondecreasing(Ends(g))
  {
    forall i, j | 0 <= i <= j < |g.ready| ensures Fifo(g, i) <= Fifo(g, j) {
      FifoOrdered(g, i, j);
    }
  }

  // Distinct ready times never lose a slot.
  lemma IncreasingIsSafe(g: Demand)
    requires Increasing(g.ready)
    ensures NoSharedRelease(g)
  {
    forall j ensures SafeAt(g, j) {
      if g.slots <= j && j + 1 < |g.ready| {
        FifoStrictlyOrdered(g, j - g.slots, j + 1 - g.slots);
      }
    }
  }

  // ---------- The heap is a run of consecutive end times ----------

  lemma {:induction false} DropFromRun(e: seq<int>, lo: nat, hi: nat, now: int) returns (cut: nat)
    requires Nondecreasing(e) && lo <= hi <= |e|
    ensures lo <= cut <= hi
    ensures DropEnded(e[lo..hi], now) == e[cut..hi]
    ensures forall i :: lo <= i < cut ==> e[i] <= now
    ensures cut < hi ==> e[cut] > now
    decreases hi - lo
  {
    cut := lo;
    if lo < hi && e[lo] <= now {
      assert e[lo..hi][1..] == e[lo + 1..hi];
      cut := DropFromRun(e, lo + 1, hi, now);
    }
  }

  lemma PushOnRun(e: seq<int>, lo: nat, hi: nat)
    requires Nondecreasing(e) && lo <= hi < |e|
    ensures Insert(e[lo..hi], e[hi]) == e[lo..hi + 1]
  {
    InsertLast(e[lo..hi], e[hi]);
  }

  // The state of the loop after k calls: every start so far is the first-in
  // first-out one, and the heap holds the end times of calls lo..k-1, which
  // are exactly those beyond the last start.
  ghost predicate InStep(g: Demand, k: nat, lo: nat)
    requires 0 < k <= |g.ready|
  {
    && lo < k <= lo + g.slots
    && Heap(g, k) == Ends(g)[lo..k]
    && (forall i :: 0 <= i < k ==> StartAt(g, i) == Fifo(g, i))
    && (forall i :: 0 <= i < lo ==> Ends(g)[i] <= Fifo(g, k - 1))
    && Ends(g)[lo] > Fifo(g, k - 1)
  }

  lemma FirstInStep(g: Demand)
    requires Nondecreasing(Ends(g)) && |g.ready| > 0
    ensures InStep(g, 1, 0)
  {
    PlaceAtOnce(Heap(g, 0), g.ready[0], g, Ends(g), 0, 0);
  }

  lemma {:induction false} LoopInStep(g: Demand, k: nat) returns (lo: nat)
    requires Nondecreasing(g.ready)
    requires 0 < k <= |g.ready|
    requires forall j :: j + 1 < k ==> SafeAt(g, j)
    ensures InStep(g, k, lo)
  {
    FifoSorted(g);
    if k == 1 {
      lo := 0;
      FirstInStep(g);
    } else {
      var before := LoopInStep(g, k - 1);
      lo := AdvanceStep(g, k - 1, before);
    }
  }

  // One placement on a heap whose live part is the run cut..k, when the run
  // fills every slot and when it leaves one free.
  lemma PlaceDelayed(h: seq<int>, ready: int, g: Demand, e: seq<int>, cut: nat, k: nat) returns (lo: nat)
    requires Nondecreasing(e) && cut + g.slots == k < |e|
    requires DropEnded(h, ready) == e[cut..k]
    requires e[k] == e[cut] + g.duration
    ensures PlacedAt(h, ready, g.slots) == e[cut]
    ensures cut < lo <= k && HeapAfter(h, ready, g.slots, g.duration) == e[lo..k + 1]
    ensures forall i :: cut <= i < lo ==> e[i] <= e[cut]
    ensures e[lo] > e[cut]
  {
    lo := DropFromRun(e, cut, k, e[cut]);
    PushOnRun(e, lo, k);
  }

  lemma PlaceAtOnce(h: seq<int>, ready: int, g: Demand, e: seq<int>, cut: nat, k: nat)
    requires Nondecreasing(e) && cut <= k < |e| && k - cut < g.slots
    requires DropEnded(h, ready) == e[cut..k]
    ensures PlacedAt(h, ready, g.slots) == ready
    ensures e[k] == ready + g.duration ==> HeapAfter(h, ready, g.slots, g.duration) == e[cut..k + 1]
  {
    PushOnRun(e, cut, k);
  }

  lemma AdvanceDelayed(g: Demand, k: nat, before: nat) returns (lo: nat)
    requires Nondecreasing(Ends(g)) && 0 < k < |g.ready|
    requires InStep(g, k, before) && before == k - g.slots
    requires Ends(g)[before] > g.ready[k]
    requires DropEnded(Heap(g, k), g.ready[k]) == Ends(g)[before..k]
    ensures InStep(g, k + 1, lo)
  {
    var e := Ends(g);
    assert Fifo(g, k) == e[before];
    lo := PlaceDelayed(Heap(g, k), g.ready[k], g, e, before, k);
    forall i | 0 <= i < lo ensures e[i] <= Fifo(g, k) {
      assert i < before ==> e[i] <= e[before];
    }
  }

  lemma AdvanceAtOnce(g: Demand, k: nat, before: nat, cut: nat)
    requires Nondecreasing(Ends(g)) && 0 < k < |g.ready|
    requires InStep(g, k, before) && before <= cut <= k && k - cut < g.slots
    requires DropEnded(Heap(g, k), g.ready[k]) == Ends(g)[cut..k]
    requires forall i :: before <= i < cut ==> Ends(g)[i] <= g.ready[k]
    requires cut < k ==> Ends(g)[cut] > g.ready[k]
    requires Fifo(g, k - 1) <= Fifo(g, k) == g.ready[k]
    ensures InStep(g, k + 1, cut)
  {
    var e := Ends(g);
    var start := Fifo(g, k);
    assert e[k] == start + g.duration;
    PlaceAtOnce(Heap(g, k), g.ready[k], g, e, cut, k);
    assert Heap(g, k + 1) == e[cut..k + 1];
    assert StartAt(g, k) == start;
    forall i | 0 <= i < cut ensures e[i] <= start {
      assert i < before ==> e[i] <= Fifo(g, k - 1);
    }
  }

  lemma AdvanceStep(g: Demand, k: nat, before: nat) returns (lo: nat)
    requires Nondecreasing(g.ready) && Nondecreasing(Ends(g))
    requires 0 < k < |g.ready|
    requires InStep(g, k, before) && SafeAt(g, k - 1)
    ensures InStep(g, k + 1, lo)
  {
    lo := DropFromRun(Ends(g), before, k, g.ready[k]);
    FifoOrdered(g, k - 1, k);
    if k - lo >= g.slots {
      lo := AdvanceDelayed(g, k, lo);
    } else {
      NotDelayed(g, k, before, lo);
      AdvanceAtOnce(g, k, before, lo);
    }
  }

  // A call that finds a free slot is not waiting for its predecessor either.
  lemma NotDelayed(g: Demand, k: nat, before: nat, cut: nat)
    requires Nondecreasing(g.ready)
    requires 0 < k < |g.ready|
    requires InStep(g, k, before) && SafeAt(g, k - 1)
    requires before <= cut <= k && k - cut < g.slots
    requires forall i :: before <= i < cut ==> Ends(g)[i] <= g.ready[k]
    ensures Fifo(g, k) == g.ready[k]
  {
    if k >= g.slots && Ends(g)[k - g.slots] > g.ready[k] {
      assert false;
    }
  }
}
