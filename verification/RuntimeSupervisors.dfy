// RuntimeSupervisor: keeps one realtime connection alive across replacements,
// disconnects and recoveries.
module RuntimeSupervisors {
  import opened Results

  // A runtime made by createRuntime; ids are handed out in increasing order.
  type RuntimeId = nat

  datatype ConnectionState = Connected | Reconnecting | Disconnected | Errored

  predicate Lost(state: ConnectionState) {
    state == Disconnected || state == Errored
  }

  // Calls the supervisor makes on its surroundings, in order.
  datatype Effect =
    | DisconnectRuntime(id: RuntimeId)
    | ConnectRuntime(id: RuntimeId)
    | BroadcastState(id: RuntimeId, state: ConnectionState)
    | QueueRecovery

  datatype Fields = Fields(runtime: Option<RuntimeId>, recoveryScheduled: bool)

  function DisconnectOf(runtime: Option<RuntimeId>): seq<Effect> {
    if runtime.Some? then [DisconnectRuntime(runtime.value)] else []
  }

  // What each piece of code between two awaits does to the fields, and the
  // calls it makes.
  function AfterDisconnect(f: Fields): (Fields, seq<Effect>) {
    (f.(runtime := None), DisconnectOf(f.runtime))
  }

  function AfterStart(f: Fields, id: RuntimeId): (Fields, seq<Effect>) {
    (f.(runtime := Some(id)), DisconnectOf(f.runtime) + [ConnectRuntime(id)])
  }

  function AfterSchedule(f: Fields): (Fields, seq<Effect>) {
    if f.recoveryScheduled then (f, []) else (f.(recoveryScheduled := true), [QueueRecovery])
  }

  function AfterReport(f: Fields, id: RuntimeId, state: ConnectionState): (Fields, seq<Effect>) {
    if f.runtime != Some(id) then (f, [])
    else if Lost(state) then
      var (g, more) := AfterSchedule(f);
      (g, [BroadcastState(id, state)] + more)
    else (f, [BroadcastState(id, state)])
  }

  function AfterTaskStarts(f: Fields): Fields {
    f.(recoveryScheduled := false)
  }

  class RuntimeSupervisor {
    var runtime: Option<RuntimeId>
    var recoveryScheduled: bool

    constructor ()
      ensures State() == Fields(None, false)
    {
      runtime, recoveryScheduled := None, false;
    }

    function State(): Fields
      reads this
    {
      Fields(runtime, recoveryScheduled)
    }

    method Disconnect() returns (calls: seq<Effect>)
      modifies this
      ensures (State(), calls) == AfterDisconnect(old(State()))
      ensures runtime == None && recoveryScheduled == old(recoveryScheduled)
      ensures calls == if old(runtime).Some? then [DisconnectRuntime(old(runtime).value)] else []
    {
      var previous := runtime;
      runtime := None;
      calls := DisconnectOf(previous);
    }

    // The field points to the new runtime before the old one is disconnected.
    method StartRuntime(created: RuntimeId) returns (calls: seq<Effect>)
      modifies this
      ensures (State(), calls) == AfterStart(old(State()), created)
      ensures runtime == Some(created) && recoveryScheduled == old(recoveryScheduled)
      ensures calls != [] && calls[|calls| - 1] == ConnectRuntime(created)
      ensures forall id: RuntimeId :: DisconnectRuntime(id) in calls <==> old(runtime) == Some(id)
    {
      var previousRuntime := runtime;
      runtime := Some(created);
      calls := DisconnectOf(previousRuntime) + [ConnectRuntime(created)];
    }

    // The onConnectionState handler given to runtime `id`.
    method OnConnectionState(id: RuntimeId, state: ConnectionState) returns (calls: seq<Effect>)
      modifies this
      ensures (State(), calls) == AfterReport(old(State()), id, state)
      ensures runtime == old(runtime)
      ensures calls != [] <==> runtime == Some(id)
      ensures calls != [] ==> calls[0] == BroadcastState(id, state)
      ensures QueueRecovery in calls <==>
        runtime == Some(id) && state in {Disconnected, Errored} && !old(recoveryScheduled)
      ensures recoveryScheduled == (old(recoveryScheduled) || (runtime == Some(id) && state in {Disconnected, Errored}))
    {
      if runtime != Some(id) {
        return [];
      }
      calls := [BroadcastState(id, state)];
      if Lost(state) {
        var more := ScheduleRecovery();
        calls := calls + more;
      }
    }

    method ScheduleRecovery() returns (calls: seq<Effect>)
      modifies this
      ensures (State(), calls) == AfterSchedule(old(State()))
      ensures recoveryScheduled && runtime == old(runtime)
      ensures calls == if old(recoveryScheduled) then [] else [QueueRecovery]
    {
      if recoveryScheduled {
        return [];
      }
      recoveryScheduled := true;
      return [QueueRecovery];
    }

    method RecoveryTaskStarts()
      modifies this
      ensures State() == AfterTaskStarts(old(State()))
      ensures !recoveryScheduled && runtime == old(runtime)
    {
      recoveryScheduled := false;
    }
  }
}
