// The supervisor under every interleaving of its callers, its runtimes'
// reports and its own recoveries.
module SupervisorRuns {
  import opened Results
  import opened RuntimeSupervisors

  // A connect() or recover() call, by the await it is suspended at.
  datatype Flight =
    | ConnectLoadsConfig
    | ConnectLoadsSession(configFound: bool)
    | RecoverLoadsConfig
    | RecoverLoadsSession(configFound: bool)
    | RecoverRefreshes
    | RecoverSaves

  predicate IsRecovery(f: Flight) {
    f.RecoverLoadsConfig? || f.RecoverLoadsSession? || f.RecoverRefreshes? || f.RecoverSaves?
  }

  datatype Outcome = Found | Missing | Rejected

  // The session a runtime is made with.
  datatype SessionUse = StoredSession | RefreshedSession

  datatype World = World(
    fields: Fields,
    calls: seq<Effect>,             // calls the running piece of code has still to make
    created: nat,                   // how many runtimes exist
    sessions: map<RuntimeId, SessionUse>,
    open: set<RuntimeId>,           // runtimes connected and not disconnected since
    listened: set<RuntimeId>,       // runtimes that hold the supervisor's handler
    reports: map<RuntimeId, ConnectionState>,
    queued: nat,                    // recovery tasks handed to the scheduler
    flights: map<nat, Flight>,
    gaveUp: bool)                   // a recovery ended early, none queued or started since

  datatype Action =
    | CallConnect(flight: nat)
    | CallDisconnect
    | MakeCall
    | Report(id: RuntimeId, state: ConnectionState)
    | TaskFires(flight: nat)
    | Resume(flight: nat, outcome: Outcome)

  ghost predicate Initial(w: World) {
    w == World(Fields(None, false), [], 0, map[], {}, {}, map[], 0, map[], false)
  }

  // A call reaches the surroundings.
  ghost function Perform(w: World, call: Effect): World {
    match call
    case DisconnectRuntime(id) => w.(open := w.open - {id})
    case ConnectRuntime(id) => w.(open := w.open + {id}, listened := w.listened + {id})
    case BroadcastState(_, _) => w
    case QueueRecovery => w.(queued := w.queued + 1, gaveUp := false)
  }

  ghost function PerformAll(w: World, calls: seq<Effect>): World
    decreases |calls|
  {
    if calls == [] then w else PerformAll(Perform(w, calls[0]), calls[1..])
  }

  ghost function Started(w: World, flight: nat, session: SessionUse): World {
    var (fields, calls) := AfterStart(w.fields, w.created);
    w.(fields := fields, calls := calls, created := w.created + 1, sessions := w.sessions[w.created := session],
       flights := w.flights - {flight}, gaveUp := false)
  }

  ghost function Ended(w: World, flight: nat): World
    requires flight in w.flights
  {
    w.(flights := w.flights - {flight}, gaveUp := w.gaveUp || IsRecovery(w.flights[flight]))
  }

  // A suspended call goes on with the outcome of what it awaited. Missing
  // means null for a load; a refresh or save only succeeds or rejects.
  ghost function Resumed(w: World, flight: nat, outcome: Outcome): World
    requires flight in w.flights
  {
    match w.flights[flight]
    case ConnectLoadsConfig =>
      if outcome == Rejected then Ended(w, flight)
      else w.(flights := w.flights[flight := ConnectLoadsSession(outcome == Found)])
    case ConnectLoadsSession(configFound) =>
      if outcome == Found && configFound then Started(w, flight, StoredSession) else Ended(w, flight)
    case RecoverLoadsConfig =>
      if outcome == Rejected then Ended(w, flight)
      else w.(flights := w.flights[flight := RecoverLoadsSession(outcome == Found)])
    case RecoverLoadsSession(configFound) =>
      if outcome == Found && configFound then w.(flights := w.flights[flight := RecoverRefreshes])
      else Ended(w, flight)
    case RecoverRefreshes =>
      if outcome == Rejected then Started(w, flight, StoredSession)
      else w.(flights := w.flights[flight := RecoverSaves])
    case RecoverSaves => Started(w, flight, if outcome == Rejected then StoredSession else RefreshedSession)
  }

  // Pieces of code run one at a time; a runtime may report at any moment, also
  // while a call on it is being made.
  ghost predicate Next(w: World, a: Action, w': World) {
    match a
    case CallConnect(flight) =>
      w.calls == [] && flight !in w.flights && w' == w.(flights := w.flights[flight := ConnectLoadsConfig])
    case CallDisconnect =>
      w.calls == [] && var (fields, calls) := AfterDisconnect(w.fields); w' == w.(fields := fields, calls := calls)
    case MakeCall =>
      w.calls != [] && w' == Perform(w.(calls := w.calls[1..]), w.calls[0])
    case Report(id, state) =>
      && id in w.listened
      && var (fields, calls) := AfterReport(w.fields, id, state);
         w' == PerformAll(w.(fields := fields, reports := w.reports[id := state]), calls)
    case TaskFires(flight) =>
      && w.calls == [] && w.queued > 0 && flight !in w.flights
      && w' == w.(
           queued := w.queued - 1,
           fields := AfterTaskStarts(w.fields),
           flights := w.flights[flight := RecoverLoadsConfig])
    case Resume(flight, outcome) =>
      w.calls == [] && flight in w.flights && w' == Resumed(w, flight, outcome)
  }

  ghost predicate Steps(w: World, w': World) {
    exists a :: Next(w, a, w')
  }

  ghost predicate IsRun(run: seq<World>) {
    && |run| > 0 && Initial(run[0])
    && forall k :: 0 <= k < |run| - 1 ==> Steps(run[k], run[k + 1])
  }

  // ---------- Invariants ----------

  ghost function Current(f: Fields): set<RuntimeId> {
    if f.runtime.Some? then {f.runtime.value} else {}
  }

  // At rest exactly the current runtime is open; while a replacement is under
  // way the old one is closed before the new one is opened.
  ghost predicate OneOpen(w: World) {
    || (w.calls == [] && w.open == Current(w.fields))
    || (|w.calls| == 1 && w.calls[0].DisconnectRuntime? && w.fields.runtime == None && w.open == {w.calls[0].id})
    || (|w.calls| == 1 && w.calls[0].ConnectRuntime? && w.fields.runtime == Some(w.calls[0].id) && w.open == {})
    || (|w.calls| == 2 && w.calls[0].DisconnectRuntime? && w.calls[1].ConnectRuntime?
        && w.fields.runtime == Some(w.calls[1].id) && w.calls[0].id != w.calls[1].id && w.open == {w.calls[0].id})
  }

  ghost predicate IdsKnown(w: World) {
    && (forall id <- w.open :: id < w.created)
    && (forall id <- w.listened :: id < w.created)
    && (forall id <- w.reports :: id in w.listened)
    && (w.fields.runtime.Some? ==> w.fields.runtime.value < w.created)
  }

  ghost predicate OneQueued(w: World) {
    w.queued == if w.fields.recoveryScheduled then 1 else 0
  }

  ghost predicate RecoveryInFlight(w: World) {
    exists flight <- w.flights :: IsRecovery(w.flights[flight])
  }

  // A lost connection is being recovered, or a recovery gave up on it.
  ghost predicate LossAttended(w: World) {
    w.fields.runtime.Some? && w.fields.runtime.value in w.reports && Lost(w.reports[w.fields.runtime.value]) ==>
      w.fields.recoveryScheduled || RecoveryInFlight(w) || w.gaveUp
  }

  ghost predicate Good(w: World) {
    OneOpen(w) && IdsKnown(w) && OneQueued(w) && LossAttended(w)
  }

  lemma NextGood(w: World, a: Action, w': World)
    requires Good(w) && Next(w, a, w')
    ensures Good(w')
  {
    match a
    case Report(id, state) => ReportGood(w, id, state, w');
    case Resume(flight, outcome) => ResumeGood(w, flight, outcome, w');
    case TaskFires(flight) => assert IsRecovery(w'.flights[flight]);
    case CallConnect(flight) => FlightsKept(w, w', flight);
    case CallDisconnect => DisconnectGood(w, w');
    case MakeCall => MakeCallGood(w, w');
  }

  lemma DisconnectGood(w: World, w': World)
    requires Good(w) && Next(w, CallDisconnect, w')
    ensures Good(w')
  {
    assert w'.calls == DisconnectOf(w.fields.runtime);
    assert w'.open == Current(w.fields);
    assert w'.flights == w.flights;
  }

  lemma MakeCallGood(w: World, w': World)
    requires Good(w) && Next(w, MakeCall, w')
    ensures Good(w')
  {
    assert w'.flights == w.flights;
    if |w.calls| == 2 {
      assert w'.calls == [w.calls[1]];
    } else {
      assert w'.calls == [];
    }
  }

  // Adding a call or advancing a recovery loses no recovery in flight.
  lemma FlightsKept(w: World, w': World, flight: nat)
    requires forall other <- w.flights :: other != flight ==> other in w'.flights && w'.flights[other] == w.flights[other]
    requires flight in w.flights && IsRecovery(w.flights[flight]) ==> flight in w'.flights && IsRecovery(w'.flights[flight])
    ensures RecoveryInFlight(w) ==> RecoveryInFlight(w')
  {
    if RecoveryInFlight(w) {
      var other :| other in w.flights && IsRecovery(w.flights[other]);
      assert other in w'.flights && IsRecovery(w'.flights[other]);
    }
  }

  // What a report comes to: only a loss of the current runtime with no
  // recovery scheduled queues one.
  lemma ReportResult(w: World, id: RuntimeId, state: ConnectionState, w': World)
    requires Next(w, Report(id, state), w')
    ensures var reported := w.(reports := w.reports[id := state]);
      w' == if w.fields.runtime == Some(id) && Lost(state) && !w.fields.recoveryScheduled
        then reported.(fields := w.fields.(recoveryScheduled := true), queued := w.queued + 1, gaveUp := false)
        else reported
  {
    var reported := w.(fields := AfterReport(w.fields, id, state).0, reports := w.reports[id := state]);
    PerformBroadcast(reported, id, state, []);
    PerformBroadcast(reported, id, state, [QueueRecovery]);
    assert [QueueRecovery][1..] == [];
    assert [BroadcastState(id, state)] + [] == [BroadcastState(id, state)];
  }

  lemma PerformBroadcast(w: World, id: RuntimeId, state: ConnectionState, more: seq<Effect>)
    ensures PerformAll(w, [BroadcastState(id, state)] + more) == PerformAll(w, more)
  {
    assert ([BroadcastState(id, state)] + more)[1..] == more;
  }

  lemma ReportGood(w: World, id: RuntimeId, state: ConnectionState, w': World)
    requires Good(w) && Next(w, Report(id, state), w')
    ensures Good(w')
  {
    ReportResult(w, id, state, w');
  }

  lemma ResumeGood(w: World, flight: nat, outcome: Outcome, w': World)
    requires Good(w) && Next(w, Resume(flight, outcome), w')
    ensures Good(w')
  {
    if w' == Started(w, flight, StoredSession) {
      StartedGood(w, flight, StoredSession);
    } else if w' == Started(w, flight, RefreshedSession) {
      StartedGood(w, flight, RefreshedSession);
    } else if w' == Ended(w, flight) {
      EndedGood(w, flight);
    } else {
      AdvancedGood(w, flight, outcome, w');
    }
  }

  lemma AdvancedGood(w: World, flight: nat, outcome: Outcome, w': World)
    requires Good(w) && Next(w, Resume(flight, outcome), w')
    requires w' == w.(flights := w'.flights) && flight in w'.flights
    ensures Good(w')
  {
    FlightsKept(w, w', flight);
  }

  lemma StartedGood(w: World, flight: nat, session: SessionUse)
    requires Good(w) && w.calls == []
    ensures Good(Started(w, flight, session))
  {
    var w' := Started(w, flight, session);
    assert w'.fields.runtime == Some(w.created);
    if w.fields.runtime.Some? {
      assert w'.calls == [DisconnectRuntime(w.fields.runtime.value), ConnectRuntime(w.created)];
    } else {
      assert w'.calls == [ConnectRuntime(w.created)];
    }
  }

  lemma EndedGood(w: World, flight: nat)
    requires Good(w) && flight in w.flights
    ensures Good(Ended(w, flight))
  {
    if !IsRecovery(w.flights[flight]) && RecoveryInFlight(w) {
      var other :| other in w.flights && IsRecovery(w.flights[other]);
      assert other in Ended(w, flight).flights;
    }
  }

  lemma {:induction false} RunGood(run: seq<World>, k: nat)
    requires IsRun(run) && k < |run|
    ensures Good(run[k])
  {
    if k > 0 {
      RunGood(run, k - 1);
      assert Steps(run[k - 1], run[k]);
      var a :| Next(run[k - 1], a, run[k]);
      NextGood(run[k - 1], a, run[k]);
    }
  }

  // ---------- Results over whole runs ----------

  lemma AtMostOneOpen(run: seq<World>, k: nat)
    requires IsRun(run) && k < |run|
    ensures |run[k].open| <= 1
    ensures run[k].calls == [] ==> run[k].open == Current(run[k].fields)
  {
    RunGood(run, k);
  }

  lemma ScheduledMeansQueued(run: seq<World>, k: nat)
    requires IsRun(run) && k < |run|
    ensures run[k].queued <= 1 && (run[k].fields.recoveryScheduled <==> run[k].queued == 1)
  {
    RunGood(run, k);
  }

  // When the current runtime's last report was a loss, a recovery is queued or
  // in flight, unless one gave up and none has been queued since.
  lemma LossIsAttended(run: seq<World>, k: nat, id: RuntimeId)
    requires IsRun(run) && k < |run|
    requires run[k].fields.runtime == Some(id) && id in run[k].reports && run[k].reports[id] in {Disconnected, Errored}
    ensures run[k].queued == 1 || RecoveryInFlight(run[k]) || run[k].gaveUp
  {
    RunGood(run, k);
  }

  ghost predicate Retired(w: World, id: RuntimeId) {
    id < w.created && w.fields.runtime != Some(id)
  }

  lemma RetiredStays(w: World, a: Action, w': World, id: RuntimeId)
    requires Retired(w, id) && Next(w, a, w')
    ensures Retired(w', id)
  {
    if a.Report? {
      ReportResult(w, a.id, a.state, w');
    }
  }

  lemma {:induction false} RetiredForGood(run: seq<World>, k: nat, j: nat, id: RuntimeId)
    requires IsRun(run) && k <= j < |run| && Retired(run[k], id)
    ensures Retired(run[j], id)
    decreases j
  {
    if k < j {
      RetiredForGood(run, k, j - 1, id);
      assert Steps(run[j - 1], run[j]);
      var a :| Next(run[j - 1], a, run[j]);
      RetiredStays(run[j - 1], a, run[j], id);
    }
  }

  // A runtime that has been replaced or disconnected can report what it likes,
  // even while it is being disconnected: nothing is ever scheduled for it.
  lemma RetiredNeverSchedules(run: seq<World>, k: nat, j: nat, id: RuntimeId, state: ConnectionState)
    requires IsRun(run) && k <= j && j + 1 < |run| && Retired(run[k], id)
    requires Next(run[j], Report(id, state), run[j + 1])
    ensures run[j + 1] == run[j].(reports := run[j].reports[id := state])
  {
    RetiredForGood(run, k, j, id);
    ReportResult(run[j], id, state, run[j + 1]);
  }

  // The runtime about to be disconnected is always a retired one.
  lemma DisconnectsRetired(run: seq<World>, k: nat)
    requires IsRun(run) && k < |run| && run[k].calls != [] && run[k].calls[0].DisconnectRuntime?
    ensures Retired(run[k], run[k].calls[0].id)
  {
    RunGood(run, k);
    assert run[k].calls[0].id in run[k].open;
  }

  // ---------- When a recovery gives up ----------

  predicate PastLoads(f: Flight) {
    f == RecoverRefreshes || f == RecoverSaves
  }

  // A recovery gives up exactly when one of its two loads is rejected, or both
  // are over and one of them found nothing.
  lemma GivesUpAtLoads(w: World, a: Action, w': World)
    requires Next(w, a, w') && !w.gaveUp
    ensures w'.gaveUp <==>
      a.Resume? && ((w.flights[a.flight] == RecoverLoadsConfig && a.outcome == Rejected)
                    || (w.flights[a.flight].RecoverLoadsSession?
                        && (a.outcome != Found || !w.flights[a.flight].configFound)))
    ensures w'.gaveUp ==>
      w'.fields == w.fields && w'.calls == [] && w'.created == w.created && w'.flights == w.flights - {a.flight}
  {
    if a.Report? {
      ReportResult(w, a.id, a.state, w');
    }
  }

  // A recovery that knows of no configuration has loaded it and found none.
  lemma {:induction false} ConfigWasMissing(run: seq<World>, k: nat, flight: nat) returns (j: nat)
    requires IsRun(run) && k < |run|
    requires flight in run[k].flights && run[k].flights[flight] == RecoverLoadsSession(false)
    ensures j < k && flight in run[j].flights && run[j].flights[flight] == RecoverLoadsConfig
    ensures Next(run[j], Resume(flight, Missing), run[j + 1])
  {
    assert k > 0 && Steps(run[k - 1], run[k]);
    var a :| Next(run[k - 1], a, run[k]);
    if flight in run[k - 1].flights && run[k - 1].flights[flight] == RecoverLoadsSession(false) {
      j := ConfigWasMissing(run, k - 1, flight);
    } else {
      ConfigNotFound(run[k - 1], a, run[k], flight);
      j := k - 1;
    }
  }

  lemma ConfigNotFound(w: World, a: Action, w': World, flight: nat)
    requires Next(w, a, w') && flight in w'.flights && w'.flights[flight] == RecoverLoadsSession(false)
    requires flight !in w.flights || w.flights[flight] != RecoverLoadsSession(false)
    ensures a == Resume(flight, Missing) && flight in w.flights && w.flights[flight] == RecoverLoadsConfig
  {
    if !(a.Resume? && a.flight == flight) {
      FlightUntouched(w, a, w', flight);
    }
  }

  // A call goes on only by its own resumption, and begins at its first load.
  lemma FlightUntouched(w: World, a: Action, w': World, flight: nat)
    requires Next(w, a, w') && !(a.Resume? && a.flight == flight)
    ensures flight in w.flights ==> flight in w'.flights && w'.flights[flight] == w.flights[flight]
    ensures flight !in w.flights && flight in w'.flights ==>
      w'.flights[flight] == ConnectLoadsConfig || w'.flights[flight] == RecoverLoadsConfig
  {
    if a.Report? {
      ReportResult(w, a.id, a.state, w');
    }
  }

  // Whenever a recovery gives up, a load of its own was Missing or Rejected,
  // then or before.
  lemma GaveUpHasCause(run: seq<World>, k: nat) returns (flight: nat, j: nat, outcome: Outcome)
    requires IsRun(run) && k + 1 < |run| && !run[k].gaveUp && run[k + 1].gaveUp
    ensures Next(run[k], Resume(flight, Missing), run[k + 1]) || Next(run[k], Resume(flight, Rejected), run[k + 1])
      || Next(run[k], Resume(flight, Found), run[k + 1])
    ensures flight in run[k].flights && IsRecovery(run[k].flights[flight])
    ensures j <= k && outcome != Found && Next(run[j], Resume(flight, outcome), run[j + 1])
    ensures flight in run[j].flights
      && (run[j].flights[flight] == RecoverLoadsConfig || run[j].flights[flight].RecoverLoadsSession?)
  {
    assert Steps(run[k], run[k + 1]);
    var a :| Next(run[k], a, run[k + 1]);
    GivesUpAtLoads(run[k], a, run[k + 1]);
    flight := a.flight;
    assert a == Resume(flight, a.outcome);
    if a.outcome == Found {
      j := ConfigWasMissing(run, k, flight);
      outcome := Missing;
    } else {
      j, outcome := k, a.outcome;
    }
  }

  // A step that ends a recovery past both loads makes a runtime, whatever the
  // refresh or the save has come to.
  lemma PastLoadsStep(w: World, a: Action, w': World, flight: nat)
    requires Next(w, a, w') && flight in w.flights && PastLoads(w.flights[flight])
    ensures (flight in w'.flights && PastLoads(w'.flights[flight])) || RecoveredNow(w, w')
  {
    if !(a.Resume? && a.flight == flight) {
      FlightUntouched(w, a, w', flight);
    }
  }

  // The step makes one runtime and makes it current; connecting it is the last
  // call to be made.
  ghost predicate RecoveredNow(w: World, w': World) {
    && w'.created == w.created + 1 && w'.fields.runtime == Some(w.created)
    && w'.calls != [] && w'.calls[|w'.calls| - 1] == ConnectRuntime(w.created)
  }

  // So over runs: a recovery past both loads is under way until it has made a
  // runtime, and current.
  lemma {:induction false} PastLoadsRecovers(run: seq<World>, k: nat, j: nat, flight: nat)
    requires IsRun(run) && k <= j < |run|
    requires flight in run[k].flights && PastLoads(run[k].flights[flight])
    ensures (flight in run[j].flights && PastLoads(run[j].flights[flight]))
      || exists i: nat :: k <= i < j && RecoveredAt(run, i)
    decreases j - k
  {
    if k < j {
      PastLoadsRecovers(run, k, j - 1, flight);
      if flight in run[j - 1].flights && PastLoads(run[j - 1].flights[flight]) {
        assert Steps(run[j - 1], run[j]);
        var a :| Next(run[j - 1], a, run[j]);
        PastLoadsStep(run[j - 1], a, run[j], flight);
        assert RecoveredNow(run[j - 1], run[j]) ==> RecoveredAt(run, j - 1);
      }
    }
  }

  ghost predicate RecoveredAt(run: seq<World>, i: nat)
    requires i + 1 < |run|
  {
    RecoveredNow(run[i], run[i + 1])
  }

  // The outcomes of what a call awaits, in turn, with nothing in between.
  ghost function Finish(w: World, flight: nat, outcomes: seq<Outcome>): World
    decreases |outcomes|
  {
    if outcomes == [] || flight !in w.flights then w
    else Finish(Resumed(w, flight, outcomes[0]), flight, outcomes[1..])
  }

  // What a whole recovery comes to: it starts a runtime exactly when both loads
  // find something, with the refreshed session exactly when the refresh and the
  // save of it succeed as well.
  lemma RecoveryInFull(w: World, flight: nat, config: Outcome, session: Outcome, refresh: Outcome, save: Outcome)
    requires flight in w.flights && w.flights[flight] == RecoverLoadsConfig
    ensures var w' := Finish(w, flight, [config, session, refresh, save]);
      && flight !in w'.flights
      && if config == Found && session == Found
         then w' == Started(w, flight,
           if refresh != Rejected && save != Rejected then RefreshedSession else StoredSession)
         else w' == w.(flights := w.flights - {flight}, gaveUp := true)
  {
    var all := [config, session, refresh, save];
    assert all[1..] == [session, refresh, save] && all[1..][1..] == [refresh, save];
    assert all[1..][1..][1..] == [save];
    var w1 := Resumed(w, flight, config);
    if config != Rejected {
      assert Finish(w, flight, all) == Finish(w1, flight, [session, refresh, save]);
      assert w1.flights - {flight} == w.flights - {flight};
      RecoveryFromSession(w1, flight, session, refresh, save);
    }
  }

  lemma RecoveryFromSession(w: World, flight: nat, session: Outcome, refresh: Outcome, save: Outcome)
    requires flight in w.flights && w.flights[flight].RecoverLoadsSession?
    ensures var w' := Finish(w, flight, [session, refresh, save]);
      if w.flights[flight].configFound && session == Found
      then w' == Started(w, flight,
        if refresh != Rejected && save != Rejected then RefreshedSession else StoredSession)
      else w' == w.(flights := w.flights - {flight}, gaveUp := true)
  {
    assert [session, refresh, save][1..] == [refresh, save] && [refresh, save][1..] == [save];
    var w1 := Resumed(w, flight, session);
    if w.flights[flight].configFound && session == Found {
      var w2 := Resumed(w1, flight, refresh);
      assert w1.flights - {flight} == w.flights - {flight};
      assert Finish(w, flight, [session, refresh, save]) == Finish(w2, flight, [save]);
      if refresh != Rejected {
        assert w2.flights - {flight} == w.flights - {flight};
        assert Finish(w2, flight, [save]) == Resumed(w2, flight, save);
      }
    }
  }

  // And a whole connect(): it starts a runtime, with the stored session, exactly
  // when both loads find something.
  lemma ConnectInFull(w: World, flight: nat, config: Outcome, session: Outcome)
    requires flight in w.flights && w.flights[flight] == ConnectLoadsConfig
    ensures var w' := Finish(w, flight, [config, session]);
      w' == if config == Found && session == Found then Started(w, flight, StoredSession)
            else w.(flights := w.flights - {flight})
  {
    var w1 := Resumed(w, flight, config);
    assert [config, session][1..] == [session] && [session][1..] == [];
    if config != Rejected {
      assert w1.flights - {flight} == w.flights - {flight};
      assert Finish(w, flight, [config, session]) == Finish(w1, flight, [session]);
      assert Finish(w1, flight, [session]) == Finish(Resumed(w1, flight, session), flight, []);
    }
  }

  // ---------- Does disconnect() last? ----------

  // A call that found no configuration ends without a runtime.
  predicate Doomed(f: Flight) {
    f == ConnectLoadsSession(false) || f == RecoverLoadsSession(false)
  }

  // No runtime, and nothing under way that could start one.
  ghost predicate Quiet(w: World) {
    && w.fields.runtime == None && w.queued == 0 && (forall flight <- w.flights :: Doomed(w.flights[flight]))
    && (w.calls == [] || (|w.calls| == 1 && w.calls[0].DisconnectRuntime?))
  }

  ghost predicate StepsUncalled(w: World, w': World) {
    exists a: Action :: !a.CallConnect? && Next(w, a, w')
  }

  lemma QuietKept(w: World, w': World)
    requires Quiet(w) && StepsUncalled(w, w')
    ensures Quiet(w')
  {
    var a: Action :| !a.CallConnect? && Next(w, a, w');
    if a.Report? {
      ReportResult(w, a.id, a.state, w');
    }
  }

  // Then, until connect() is called again, no runtime is ever opened.
  lemma {:induction false} DisconnectLasts(run: seq<World>, k: nat, j: nat)
    requires IsRun(run) && k <= j < |run| && Quiet(run[k])
    requires forall i :: k <= i < j ==> StepsUncalled(run[i], run[i + 1])
    ensures Quiet(run[j]) && (run[j].calls == [] ==> run[j].open == {})
    decreases j
  {
    if k < j {
      DisconnectLasts(run, k, j - 1);
      QuietKept(run[j - 1], run[j]);
    }
    RunGood(run, j);
  }

  ghost predicate UncalledPath(path: seq<World>) {
    |path| > 0 && forall i: nat :: i + 1 < |path| ==> UncalledAt(path, i)
  }

  ghost predicate UncalledAt(path: seq<World>, i: nat)
    requires i + 1 < |path|
  {
    StepsUncalled(path[i], path[i + 1])
  }

  ghost function Last(path: seq<World>): World
    requires |path| > 0
  {
    path[|path| - 1]
  }

  lemma PathPrepend(w: World, a: Action, path: seq<World>)
    requires UncalledPath(path) && !a.CallConnect? && Next(w, a, path[0])
    ensures UncalledPath([w] + path) && Last([w] + path) == Last(path)
  {
    assert StepsUncalled(w, path[0]);
    forall i: nat | i + 1 < |path| + 1 ensures UncalledAt([w] + path, i) {
      assert i > 0 ==> UncalledAt(path, i - 1);
    }
  }

  // Without a runtime, nothing more is opened until connect() is called again
  // exactly when the world is quiet.
  lemma DisconnectLastsExactly(run: seq<World>, k: nat)
    requires IsRun(run) && k < |run| && run[k].fields.runtime == None
    ensures (forall path :: UncalledPath(path) && path[0] == run[k] ==> Last(path).fields.runtime == None)
      <==> Quiet(run[k])
  {
    RunGood(run, k);
    if Quiet(run[k]) {
      forall path | UncalledPath(path) && path[0] == run[k] ensures Last(path).fields.runtime == None {
        StaysQuiet(path);
      }
    } else {
      var path := DisconnectUndone(run[k]);
    }
  }

  lemma {:induction false} StaysQuiet(path: seq<World>)
    requires UncalledPath(path) && Quiet(path[0])
    ensures Quiet(Last(path))
    decreases |path|
  {
    if |path| > 1 {
      assert UncalledAt(path, 0);
      QuietKept(path[0], path[1]);
      forall i: nat | i + 1 < |path[1..]| ensures UncalledAt(path[1..], i) {
        assert UncalledAt(path, i + 1);
      }
      StaysQuiet(path[1..]);
    }
  }

  // Otherwise a recovery still queued or in flight, or a connect() that was
  // waiting, opens a runtime with no further call, also when the runtime to
  // disconnect has still to be told.
  lemma DisconnectUndone(w: World) returns (path: seq<World>)
    requires OneOpen(w) && w.fields.runtime == None && !Quiet(w)
    ensures UncalledPath(path) && path[0] == w
    ensures Last(path).calls == [] && |Last(path).open| == 1 && Last(path).open == Current(Last(path).fields)
  {
    if w.calls == [] {
      path := RestUndone(w);
    } else {
      var told := Perform(w.(calls := []), w.calls[0]);
      assert w.calls[1..] == [] && told.open == {};
      var rest := RestUndone(told);
      PathPrepend(w, MakeCall, rest);
      path := [w] + rest;
    }
  }

  lemma RestUndone(w: World) returns (path: seq<World>)
    requires w.calls == [] && w.open == {} && w.fields.runtime == None && !Quiet(w)
    ensures UncalledPath(path) && path[0] == w
    ensures Last(path).calls == [] && |Last(path).open| == 1 && Last(path).open == Current(Last(path).fields)
  {
    if flight :| flight in w.flights && !Doomed(w.flights[flight]) {
      path := FlightOpens(w, flight);
    } else {
      path := QueuedOpens(w);
    }
  }

  lemma QueuedOpens(w: World) returns (path: seq<World>)
    requires w.calls == [] && w.open == {} && w.fields.runtime == None && w.queued > 0
    ensures UncalledPath(path) && path[0] == w
    ensures Last(path).calls == [] && |Last(path).open| == 1 && Last(path).open == Current(Last(path).fields)
  {
    var unused := FreshFlight(w.flights.Keys);
    var fired := w.(
      queued := w.queued - 1,
      fields := AfterTaskStarts(w.fields),
      flights := w.flights[unused := RecoverLoadsConfig]);
    var rest := FlightOpens(fired, unused);
    PathPrepend(w, TaskFires(unused), rest);
    path := [w] + rest;
  }

  lemma {:induction false} FreshFlight(used: set<nat>) returns (unused: nat)
    ensures forall flight <- used :: flight < unused
  {
    if used == {} {
      unused := 0;
    } else {
      var flight :| flight in used;
      unused := FreshFlight(used - {flight});
      assert forall other <- used :: other == flight || other in used - {flight};
      if unused <= flight { unused := flight + 1; }
    }
  }

  ghost function StepsLeft(f: Flight): nat {
    match f
    case RecoverLoadsConfig => 3
    case RecoverLoadsSession(_) => 2
    case ConnectLoadsConfig => 1
    case _ => 0
  }

  lemma {:induction false} FlightOpens(w: World, flight: nat) returns (path: seq<World>)
    requires w.calls == [] && w.open == {} && w.fields.runtime == None && flight in w.flights
    requires !Doomed(w.flights[flight])
    ensures UncalledPath(path) && path[0] == w
    ensures Last(path).calls == [] && |Last(path).open| == 1 && Last(path).open == Current(Last(path).fields)
    decreases StepsLeft(w.flights[flight])
  {
    var f := w.flights[flight];
    var outcome := if f == RecoverRefreshes then Rejected else Found;
    var resumed := Resumed(w, flight, outcome);
    var rest;
    if f.RecoverLoadsConfig? || f.RecoverLoadsSession? || f.ConnectLoadsConfig? {
      rest := FlightOpens(resumed, flight);
    } else {
      rest := StartOpens(w, flight, if f == RecoverSaves then RefreshedSession else StoredSession);
    }
    PathPrepend(w, Resume(flight, outcome), rest);
    path := [w] + rest;
  }

  lemma StartOpens(w: World, flight: nat, session: SessionUse) returns (path: seq<World>)
    requires w.calls == [] && w.open == {} && w.fields.runtime == None
    ensures UncalledPath(path) && path[0] == Started(w, flight, session)
    ensures Last(path).calls == [] && |Last(path).open| == 1 && Last(path).open == Current(Last(path).fields)
  {
    var started := Started(w, flight, session);
    var running := Perform(started.(calls := []), ConnectRuntime(w.created));
    assert started.calls == [ConnectRuntime(w.created)] && running.open == {w.created};
    PathPrepend(started, MakeCall, [running]);
    path := [started] + [running];
  }

  // ---------- A run in which it does not last ----------

  lemma RunAppend(run: seq<World>, a: Action, w': World)
    requires IsRun(run) && Next(Last(run), a, w')
    ensures IsRun(run + [w']) && Last(run + [w']) == w'
  {
    assert Steps(Last(run), w');
  }

  // The world after a first connect() has succeeded.
  ghost function Connected(): World {
    World(Fields(Some(0), false), [], 1, map[0 := StoredSession], {0}, {0}, map[], 0, map[], false)
  }

  lemma FirstConnect() returns (run: seq<World>)
    ensures IsRun(run) && Last(run) == Connected()
  {
    var idle := World(Fields(None, false), [], 0, map[], {}, {}, map[], 0, map[], false);
    var called := idle.(flights := map[0 := ConnectLoadsConfig]);
    var configured := idle.(flights := map[0 := ConnectLoadsSession(true)]);
    var started := Started(configured, 0, StoredSession);
    assert called.flights[0 := ConnectLoadsSession(true)] == configured.flights;
    assert started.calls == [ConnectRuntime(0)] && started.flights == map[];
    RunAppend([idle], CallConnect(0), called);
    RunAppend([idle] + [called], Resume(0, Found), configured);
    RunAppend([idle] + [called] + [configured], Resume(0, Found), started);
    RunAppend([idle] + [called] + [configured] + [started], MakeCall, Connected());
    run := [idle] + [called] + [configured] + [started] + [Connected()];
  }

  // connect() succeeds, the runtime reports a loss, and disconnect() is called
  // and completes; the recovery queued by the loss then opens a runtime, with
  // no call to connect().
  lemma DisconnectFails() returns (run: seq<World>, path: seq<World>)
    ensures IsRun(run) && |run| >= 2 && Next(run[|run| - 2], MakeCall, Last(run))
    ensures run[|run| - 2].calls == [DisconnectRuntime(0)]
    ensures Last(run).calls == [] && Last(run).open == {} && Last(run).fields.runtime == None
    ensures UncalledPath(path) && path[0] == Last(run)
    ensures Last(path).calls == [] && |Last(path).open| == 1 && Last(path).open == Current(Last(path).fields)
  {
    var first := FirstConnect();
    var lost := Connected().(
      fields := Fields(Some(0), true), reports := map[0 := Disconnected], queued := 1);
    var disconnecting := lost.(fields := Fields(None, true), calls := [DisconnectRuntime(0)]);
    var disconnected := disconnecting.(calls := [], open := {});
    assert Next(Connected(), Report(0, Disconnected), lost) by {
      var heard := Connected().(fields := Fields(Some(0), true), reports := map[0 := Disconnected]);
      PerformBroadcast(heard, 0, Disconnected, [QueueRecovery]);
      assert [QueueRecovery][1..] == [];
    }
    RunAppend(first, Report(0, Disconnected), lost);
    RunAppend(first + [lost], CallDisconnect, disconnecting);
    RunAppend(first + [lost] + [disconnecting], MakeCall, disconnected);
    run := first + [lost] + [disconnecting] + [disconnected];
    path := QueuedOpens(disconnected);
  }
}
