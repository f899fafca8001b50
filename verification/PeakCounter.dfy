// The lock-free peak counter of executeLiveRun: every call thread counts
// itself in, raises the peak with a weak compare-and-swap loop, runs its call,
// and counts itself out when its scope ends, normally or by an exception.
module PeakCounter {

  datatype Phase =
    | Waiting                                // not yet counted in
    | Counted(mine: int)                     // fetch_add done
    | Comparing(mine: int, observed: int)    // about to test the loop condition
    | Inside                                 // past the loop, running the call
    | Done                                   // fetch_sub done

  datatype State = State(active: int, peak: int, calls: seq<Phase>)

  ghost predicate Initial(s: State) {
    s.active == 0 && s.peak == 0 && forall i :: 0 <= i < |s.calls| ==> s.calls[i] == Waiting
  }

  // One atomic action of call thread i.
  ghost predicate Step(s: State, t: State, i: nat) {
    i < |s.calls| &&
    match s.calls[i]
    case Waiting => t == State(s.active + 1, s.peak, s.calls[i := Counted(s.active + 1)])
    case Counted(mine) => t == s.(calls := s.calls[i := Comparing(mine, s.peak)])
    case Comparing(mine, observed) =>
      if mine <= observed then t == s.(calls := s.calls[i := Inside])
      else
        // The exchange may succeed when the peak is still the observed one; it
        // may also fail then, for no reason, and fails otherwise. A failure
        // reloads the observed peak.
        || (s.peak == observed && t == State(s.active, mine, s.calls[i := Inside]))
        || t == s.(calls := s.calls[i := Comparing(mine, s.peak)])
    case Inside => t == State(s.active - 1, s.peak, s.calls[i := Done])
    case Done => false
  }

  ghost predicate Next(s: State, t: State) {
    exists i :: Step(s, t, i)
  }

  ghost predicate IsRun(run: seq<State>) {
    && |run| > 0
    && Initial(run[0])
    && forall k :: 0 <= k < |run| - 1 ==> Next(run[k], run[k + 1])
  }

  // The largest value activeCalls has had.
  ghost function Largest(run: seq<State>): int
    requires |run| > 0
  {
    var last := run[|run| - 1].active;
    if |run| == 1 then last else
      var before := Largest(run[..|run| - 1]);
      if last > before then last else before
  }

  predicate InSection(p: Phase) {
    p.Counted? || p.Comparing? || p.Inside?
  }

  predicate InLoop(p: Phase) {
    p.Counted? || p.Comparing?
  }

  ghost function Members(calls: seq<Phase>): set<nat> {
    set i: nat | i < |calls| && InSection(calls[i])
  }

  // ---------- What holds after every step ----------

  ghost predicate Good(s: State, largest: int) {
    && s.active == |Members(s.calls)|
    && 0 <= s.peak <= largest
    && s.active <= largest
    && (forall i :: 0 <= i < |s.calls| && InLoop(s.calls[i]) ==> 0 < s.calls[i].mine <= largest)
    && (forall i :: 0 <= i < |s.calls| && s.calls[i].Comparing? ==> 0 <= s.calls[i].observed <= s.peak)
    && (s.peak == largest || exists i :: 0 <= i < |s.calls| && InLoop(s.calls[i]) && s.calls[i].mine == largest)
  }

  lemma InitialGood(s: State)
    requires Initial(s)
    ensures Good(s, 0)
  {
    assert Members(s.calls) == {};
  }

  lemma StepGood(s: State, t: State, i: nat, largest: int)
    requires Good(s, largest) && Step(s, t, i)
    ensures Good(t, if t.active > largest then t.active else largest)
  {
    StepCounts(s, t, i);
    if s.calls[i] == Waiting && t.active > largest {
      assert t.calls[i] == Counted(t.active);
    } else {
      KeepLargest(s, t, i, largest);
    }
  }

  lemma StepCounts(s: State, t: State, i: nat)
    requires s.active == |Members(s.calls)| && Step(s, t, i)
    ensures t.active == |Members(t.calls)|
  {
    if s.calls[i] == Waiting {
      assert Members(t.calls) == Members(s.calls) + {i};
    } else if s.calls[i] == Inside {
      assert Members(t.calls) == Members(s.calls) - {i};
    } else if InLoop(s.calls[i]) {
      assert Members(t.calls) == Members(s.calls);
    }
  }

  // A thread that leaves the loop has seen, or set, a peak of at least its own
  // count.
  lemma KeepLargest(s: State, t: State, i: nat, largest: int)
    requires Good(s, largest) && i < |s.calls| && |t.calls| == |s.calls|
    requires s.peak <= t.peak <= largest
    requires forall j :: 0 <= j < |s.calls| && j != i ==> t.calls[j] == s.calls[j]
    requires InLoop(s.calls[i]) ==>
      (InLoop(t.calls[i]) && t.calls[i].mine == s.calls[i].mine) || t.peak >= s.calls[i].mine
    ensures t.peak == largest || exists j :: 0 <= j < |t.calls| && InLoop(t.calls[j]) && t.calls[j].mine == largest
  {
    if s.peak != largest {
      var j :| 0 <= j < |s.calls| && InLoop(s.calls[j]) && s.calls[j].mine == largest;
      assert j != i ==> t.calls[j] == s.calls[j];
    }
  }

  ghost function Last(run: seq<State>): State
    requires |run| > 0
  {
    run[|run| - 1]
  }

  lemma {:induction false} RunGood(run: seq<State>)
    requires IsRun(run)
    ensures Good(Last(run), Largest(run))
  {
    if |run| == 1 {
      InitialGood(run[0]);
    } else {
      var before := run[..|run| - 1];
      RunGood(before);
      assert Next(Last(before), Last(run));
      var i :| Step(Last(before), Last(run), i);
      StepGood(Last(before), Last(run), i, Largest(before));
    }
  }

  // ---------- Results over whole runs ----------

  lemma ActiveCountsSection(run: seq<State>)
    requires IsRun(run)
    ensures Last(run).active == |Members(Last(run).calls)|
    ensures Last(run).peak <= Largest(run)
  {
    RunGood(run);
  }

  // As soon as no thread is inside the loop, in particular when all calls are
  // done, the recorded peak is the largest count there has been.
  lemma PeakExact(run: seq<State>)
    requires IsRun(run)
    requires forall p <- Last(run).calls :: !InLoop(p)
    ensures Last(run).peak == Largest(run)
  {
    RunGood(run);
  }

  // ---------- What one step does ----------

  ghost function InSectionCount(p: Phase): int {
    if InSection(p) then 1 else 0
  }

  // Every step is one atomic operation of its thread: the counter moves exactly
  // when the thread enters or leaves the section, a thread that enters is told
  // the new count, every look at the peak sees the present one, and the peak
  // only moves from a value just observed up to the thread's own count.
  lemma StepEffect(s: State, t: State, i: nat)
    requires Step(s, t, i)
    ensures |t.calls| == |s.calls| && forall j :: 0 <= j < |s.calls| && j != i ==> t.calls[j] == s.calls[j]
    ensures t.active == s.active + InSectionCount(t.calls[i]) - InSectionCount(s.calls[i])
    ensures t.calls[i].Counted? ==> s.calls[i] == Waiting && t.calls[i].mine == t.active
    ensures t.calls[i].Comparing? ==>
      InLoop(s.calls[i]) && t.calls[i].mine == s.calls[i].mine && t.calls[i].observed == s.peak == t.peak
    ensures t.calls[i].Inside? ==>
      s.calls[i].Comparing? && (t.peak == s.peak ==> s.calls[i].mine <= s.calls[i].observed)
    ensures t.calls[i] == Done ==> s.calls[i].Inside?
    ensures t.peak != s.peak ==>
      s.calls[i].Comparing? && s.calls[i].observed == s.peak < t.peak == s.calls[i].mine && t.calls[i].Inside?
  {
  }

  // A thread leaves the loop only for its call, and only once the peak has
  // reached its count.
  lemma LeavesAtPeak(run: seq<State>, t: State, i: nat)
    requires IsRun(run) && Step(Last(run), t, i) && InLoop(Last(run).calls[i]) && !InLoop(t.calls[i])
    ensures t.calls[i].Inside? && t.peak >= Last(run).calls[i].mine
  {
    RunGood(run);
  }
}
