// The peak counter's threads get on: every state change is work done, and a
// thread in the loop is never more than two of its own steps from its call.
module PeakProgress {
  import opened Arithmetic
  import opened PeakCounter

  // ---------- How much work there is ----------

  // How many more state changes a thread can make among n threads.
  ghost function Budget(p: Phase, n: int): int {
    match p
    case Waiting => n + 4
    case Counted(_) => n + 3
    case Comparing(_, observed) => n - observed + 2
    case Inside => 1
    case Done => 0
  }

  ghost function Total(calls: seq<Phase>, n: int): int {
    if calls == [] then 0 else Budget(calls[0], n) + Total(calls[1..], n)
  }

  lemma {:induction false} TotalUpdate(calls: seq<Phase>, n: int, i: nat, p: Phase)
    requires i < |calls|
    ensures Total(calls[i := p], n) == Total(calls, n) - Budget(calls[i], n) + Budget(p, n)
  {
    if i == 0 {
      assert calls[0 := p][1..] == calls[1..];
    } else {
      TotalUpdate(calls[1..], n, i - 1, p);
      assert calls[i := p][1..] == calls[1..][i - 1 := p];
    }
  }

  ghost predicate Settled(s: State) {
    && s.active == |Members(s.calls)|
    && 0 <= s.peak <= |s.calls|
    && forall p <- s.calls :: (InLoop(p) ==> p.mine <= |s.calls|) && (p.Comparing? ==> 0 <= p.observed <= s.peak)
  }

  lemma {:induction false} TotalBounds(s: State, calls: seq<Phase>)
    requires Settled(s) && forall p <- calls :: p in s.calls
    ensures 0 <= Total(calls, |s.calls|) <= |calls| * (|s.calls| + 4)
  {
    if calls != [] {
      TotalBounds(s, calls[1..]);
      assert 0 <= Budget(calls[0], |s.calls|) <= |s.calls| + 4;
      OneMore(|calls[1..]|, |s.calls| + 4);
    }
  }

  lemma MembersFit(calls: seq<Phase>)
    ensures |Members(calls)| <= |calls|
  {
    if calls == [] {
      assert Members(calls) == {};
    } else {
      var m := |calls| - 1;
      MembersFit(calls[..m]);
      assert Members(calls) == if InSection(calls[m]) then Members(calls[..m]) + {m} else Members(calls[..m]);
    }
  }

  // Every step other than a failure for no reason, which changes nothing,
  // uses up budget: a real failure has seen the peak grow.
  lemma StepSpends(s: State, t: State, i: nat)
    requires Settled(s) && Step(s, t, i)
    ensures Settled(t) && |t.calls| == |s.calls|
    ensures t == s || Total(t.calls, |t.calls|) < Total(s.calls, |s.calls|)
  {
    StepCounts(s, t, i);
    MembersFit(t.calls);
    assert s.calls[i] in s.calls;
    TotalUpdate(s.calls, |s.calls|, i, t.calls[i]);
  }

  ghost function Changes(run: seq<State>): nat
    requires |run| > 0
  {
    if |run| == 1 then 0
    else Changes(run[..|run| - 1]) + if run[|run| - 1] == run[|run| - 2] then 0 else 1
  }

  // However the threads interleave, a run of n calls has at most n * (n + 4)
  // state changes: no thread can loop for ever except on failures for no
  // reason.
  lemma BoundedWork(run: seq<State>)
    requires IsRun(run)
    ensures Changes(run) <= |run[0].calls| * (|run[0].calls| + 4)
  {
    WorkSpent(run);
    TotalBounds(Last(run), Last(run).calls);
    assert Settled(run[0]) by { assert Members(run[0].calls) == {}; }
    TotalBounds(run[0], run[0].calls);
  }

  lemma {:induction false} WorkSpent(run: seq<State>)
    requires IsRun(run)
    ensures Settled(Last(run)) && |Last(run).calls| == |run[0].calls|
    ensures Changes(run) + Total(Last(run).calls, |run[0].calls|) <= Total(run[0].calls, |run[0].calls|)
  {
    if |run| == 1 {
      assert Members(run[0].calls) == {};
    } else {
      var before := run[..|run| - 1];
      WorkSpent(before);
      assert Next(Last(before), Last(run));
      var i :| Step(Last(before), Last(run), i);
      StepSpends(Last(before), Last(run), i);
    }
  }

  // ---------- A thread's own steps ----------

  // A step changes nothing exactly when it is an exchange that fails for no
  // reason: the peak is still the observed one, and lower than the count.
  lemma IdleIsSpurious(s: State, i: nat)
    ensures Step(s, s, i) <==>
      i < |s.calls| && s.calls[i].Comparing? && s.calls[i].mine > s.calls[i].observed == s.peak
  {
    if i < |s.calls| {
      assert s.calls[i := s.calls[i]] == s.calls;
      if Step(s, s, i) {
        StepEffect(s, s, i);
      }
    }
  }

  ghost predicate OwnSteps(path: seq<State>, i: nat) {
    |path| > 0 && forall k :: 0 <= k < |path| - 1 ==> Step(path[k], path[k + 1], i)
  }

  // Whatever the others have done, a thread in the loop can be inside after at
  // most two steps of its own, a load or a failed exchange first where it has
  // not seen the present peak; the peak is then at least its count.
  lemma LeavesLoop(run: seq<State>, i: nat) returns (path: seq<State>)
    requires IsRun(run) && i < |Last(run).calls| && InLoop(Last(run).calls[i])
    ensures OwnSteps(path, i) && path[0] == Last(run) && |path| <= 3
    ensures |Last(path).calls| == |Last(run).calls| && Last(path).calls[i] == Inside
    ensures var mine := Last(run).calls[i].mine;
      Last(path).peak == if mine > Last(run).peak then mine else Last(run).peak
  {
    RunGood(run);
    var s := Last(run);
    var mine := s.calls[i].mine;
    if s.calls[i].Comparing? && (mine <= s.calls[i].observed || s.calls[i].observed == s.peak) {
      path := [s, Left(s, i)];
    } else {
      var loaded := s.(calls := s.calls[i := Comparing(mine, s.peak)]);
      assert Step(s, loaded, i);
      assert Step(loaded, Left(loaded, i), i);
      path := [s, loaded, Left(loaded, i)];
    }
  }

  // The thread leaves the loop in one step.
  ghost function Left(s: State, i: nat): State
    requires i < |s.calls| && s.calls[i].Comparing?
  {
    State(s.active,
          if s.calls[i].mine <= s.calls[i].observed then s.peak else s.calls[i].mine,
          s.calls[i := Inside])
  }
}
