// How stale the answers of a cluster can be, and when a node reads its own
// writes.
module EntitlementAnswers {
  import opened Results
  import opened Entitlements
  import opened EntitlementCluster

  // ---------- How stale an answer can be ----------

  // Every answer on every node is the table's effective map as of a moment
  // less than the time to live, plus the duration of the one load that filled
  // the cache, before it was given.
  lemma AnswersAreRecent(catalog: Catalog, run: seq<World>, k: nat, i: nat)
    requires IsRun(catalog, run) && k < |run| && i < |run[k].answers|
    ensures var a := run[k].answers[i];
      && Saw(run[k].history, run[k].now, a.sight)
      && a.features == Effective(catalog, run[k].history[a.sight.version].table, a.tenant)
      && a.sight.readAt <= a.answeredAt < a.sight.readAt + 30_000 + (a.storedAt - a.sight.readAt)
  {
    RunGood(catalog, run, k);
    assert AnswerGood(catalog, run[k].history, run[k].now, run[k].answers[i]);
  }

  // Once version v has an irreversible feature on, every node answers true
  // from that delay on, whatever is set afterwards.
  lemma IrreversibleStaysOn(catalog: Catalog, run: seq<World>, k: nat, i: nat, v: nat, key: FeatureKey)
    requires IsRun(catalog, run) && k < |run| && i < |run[k].answers| && v < |run[k].history|
    requires key in catalog && catalog[key].irreversible
    requires Effective(catalog, run[k].history[v].table, run[k].answers[i].tenant)[key]
    requires var a := run[k].answers[i];
      a.answeredAt >= run[k].history[v].since + CACHE_TTL_MS + (a.storedAt - a.sight.readAt)
    ensures key in run[k].answers[i].features && run[k].answers[i].features[key]
  {
    RunGood(catalog, run, k);
    var h := run[k].history;
    var a := run[k].answers[i];
    AnswersAreRecent(catalog, run, k, i);
    assert a.sight.readAt > h[v].since;
    ReadBefore(catalog, h, run[k].now, a.sight, v);
    assert Stays(catalog, key, a.tenant, h[v].table, h[a.sight.version].table);
  }

  lemma ReadBefore(catalog: Catalog, h: History, now: int, s: Sight, v: nat)
    requires HistoryGood(catalog, h, now) && Saw(h, now, s) && v < |h|
    ensures s.version < v ==> s.readAt <= h[v].since
  {
    assert s.version < v ==> h[s.version + 1].since <= h[v].since;
  }

  // An answer given at least one time to live after the table was read.
  ghost predicate Overdue(a: Answer) {
    a.answeredAt - a.sight.readAt >= 30_000
  }

  // The path ends with more answers than it began with, one of them overdue
  // and from the cache entry given.
  ghost predicate AnswersOverdue(path: seq<World>, node: Node, tenant: Tenant, held: Held)
    requires |path| > 0
  {
    exists i :: |path[0].answers| <= i < |Last(path).answers| &&
      FromEntry(Last(path).answers[i], node, tenant, held) && Overdue(Last(path).answers[i])
  }

  ghost predicate FromEntry(a: Answer, node: Node, tenant: Tenant, held: Held) {
    a.node == node && a.tenant == tenant && a.sight == held.sight && a.storedAt == held.storedAt
  }

  // A cache entry that has not expired can still give an overdue answer
  // exactly when the load that filled it took time.
  lemma OverdueExactly(catalog: Catalog, w: World, node: Node, tenant: Tenant)
    requires Good(catalog, w) && (node, tenant) in w.caches
    requires var held := w.caches[(node, tenant)]; held.entry.expiresAt > w.now
    ensures var held := w.caches[(node, tenant)];
      (exists path :: IsPath(catalog, path) && path[0] == w && AnswersOverdue(path, node, tenant, held))
      <==> held.storedAt > held.sight.readAt
  {
    var held := w.caches[(node, tenant)];
    if held.storedAt > held.sight.readAt {
      var path := AskLate(catalog, w, node, tenant);
      LateIsOverdue(catalog, path, node, tenant);
    }
    forall path | IsPath(catalog, path) && path[0] == w && AnswersOverdue(path, node, tenant, held)
      ensures held.storedAt > held.sight.readAt
    {
      var i :| |w.answers| <= i < |Last(path).answers| &&
        FromEntry(Last(path).answers[i], node, tenant, held) && Overdue(Last(path).answers[i]);
      PathGood(catalog, path, |path| - 1);
      assert AnswerGood(catalog, Last(path).history, Last(path).now, Last(path).answers[i]);
    }
  }

  // Wait until the last moment of an entry, then ask.
  lemma AskLate(catalog: Catalog, w: World, node: Node, tenant: Tenant) returns (path: seq<World>)
    requires (node, tenant) in w.caches && w.caches[(node, tenant)].entry.expiresAt > w.now
    ensures IsPath(catalog, path) && path[0] == w && Last(path) == LateAnswer(w, node, tenant)
  {
    var waiting := w.caches[(node, tenant)].entry.expiresAt - 1 - w.now;
    var late := w.(now := w.now + waiting);
    AskHits(catalog, late, node, tenant);
    PathAppend(catalog, [w], Tick(waiting), late);
    PathAppend(catalog, [w] + [late], Ask(0, node, tenant), LateAnswer(w, node, tenant));
    path := [w] + [late] + [LateAnswer(w, node, tenant)];
  }

  lemma AskHits(catalog: Catalog, w: World, node: Node, tenant: Tenant)
    requires (node, tenant) in w.caches && w.caches[(node, tenant)].entry.expiresAt == w.now + 1
    ensures Next(catalog, w, Ask(0, node, tenant), LateAnswer(w, node, tenant))
  {
  }

  lemma LateIsOverdue(catalog: Catalog, path: seq<World>, node: Node, tenant: Tenant)
    requires IsPath(catalog, path) && Good(catalog, path[0]) && (node, tenant) in path[0].caches
    requires Last(path) == LateAnswer(path[0], node, tenant)
    ensures var held := path[0].caches[(node, tenant)];
      held.storedAt > held.sight.readAt ==> AnswersOverdue(path, node, tenant, held)
  {
    var held := path[0].caches[(node, tenant)];
    assert HeldGood(catalog, path[0].history, path[0].now, tenant, held);
    var answer := Last(path).answers[|path[0].answers|];
    assert FromEntry(answer, node, tenant, held) && (held.storedAt > held.sight.readAt ==> Overdue(answer));
  }

  // The world in which an entry has been asked for in its last moment.
  ghost function LateAnswer(w: World, node: Node, tenant: Tenant): World
    requires (node, tenant) in w.caches
  {
    var held := w.caches[(node, tenant)];
    var now := held.entry.expiresAt - 1;
    w.(now := now, answers := w.answers + [Answer(node, tenant, held.entry.features, now, held.sight, held.storedAt)])
  }

  // ---------- Reading one's own writes on a node ----------

  // Nothing older than version u can be answered for this tenant on this node.
  ghost predicate NothingOlder(w: World, node: Node, tenant: Tenant, u: nat) {
    && ((node, tenant) in w.caches ==> w.caches[(node, tenant)].sight.version >= u)
    && NoneOlderInFlight(w, node, tenant, u)
  }

  ghost predicate NoneOlderInFlight(w: World, node: Node, tenant: Tenant, u: nat) {
    forall id <- w.loads :: !OlderInFlight(w, id, node, tenant, u)
  }

  ghost predicate OlderInFlight(w: World, id: nat, node: Node, tenant: Tenant, u: nat) {
    && id in w.loads && w.loads[id].node == node && w.loads[id].tenant == tenant
    && w.loads[id].sight.Some? && w.loads[id].sight.value.version < u
  }

  // The answers given since `before` for this tenant on this node come from
  // version u or later.
  ghost predicate OnlyNewer(before: seq<Answer>, after: seq<Answer>, node: Node, tenant: Tenant, u: nat) {
    && before <= after
    && forall i :: |before| <= i < |after| && after[i].node == node && after[i].tenant == tenant
         ==> after[i].sight.version >= u
  }

  lemma NothingOlderKept(catalog: Catalog, w: World, w': World, node: Node, tenant: Tenant, u: nat)
    requires Steps(catalog, w, w') && NothingOlder(w, node, tenant, u) && u < |w.history|
    ensures NothingOlder(w', node, tenant, u) && u < |w'.history|
    ensures OnlyNewer(w.answers, w'.answers, node, tenant, u)
  {
    var a :| Next(catalog, w, a, w');
    LoadsStayNewer(catalog, w, a, w', node, tenant, u);
    CachesStayNewer(catalog, w, a, w', node, tenant, u);
    AnswersStayNewer(catalog, w, a, w', node, tenant, u);
  }

  lemma LoadsStayNewer(catalog: Catalog, w: World, a: Action, w': World, node: Node, tenant: Tenant, u: nat)
    requires Next(catalog, w, a, w') && NothingOlder(w, node, tenant, u) && u < |w.history|
    ensures NoneOlderInFlight(w', node, tenant, u)
    ensures u < |w'.history|
  {
    forall id <- w'.loads ensures !OlderInFlight(w', id, node, tenant, u) {
      assert id in w.loads ==> !OlderInFlight(w, id, node, tenant, u);
    }
  }

  lemma CachesStayNewer(catalog: Catalog, w: World, a: Action, w': World, node: Node, tenant: Tenant, u: nat)
    requires Next(catalog, w, a, w') && NothingOlder(w, node, tenant, u)
    ensures (node, tenant) in w'.caches ==> w'.caches[(node, tenant)].sight.version >= u
  {
    if a.Reply? {
      assert !OlderInFlight(w, a.load, node, tenant, u);
    }
  }

  lemma AnswersStayNewer(catalog: Catalog, w: World, a: Action, w': World, node: Node, tenant: Tenant, u: nat)
    requires Next(catalog, w, a, w') && NothingOlder(w, node, tenant, u)
    ensures OnlyNewer(w.answers, w'.answers, node, tenant, u)
  {
    OneMoreAnswer(catalog, w, a, w');
    if a.Reply? {
      assert !OlderInFlight(w, a.load, node, tenant, u);
    }
  }

  lemma OnlyNewerJoins(x: seq<Answer>, y: seq<Answer>, z: seq<Answer>, node: Node, tenant: Tenant, u: nat)
    requires OnlyNewer(x, y, node, tenant, u) && OnlyNewer(y, z, node, tenant, u)
    ensures OnlyNewer(x, z, node, tenant, u)
  {
    assert forall i :: |x| <= i < |y| ==> z[i] == y[i];
  }

  // From there on, whatever happens, every answer on the node comes from the
  // version the upsert made or a later one.
  lemma {:induction false} ReadsOwnWrites(
      catalog: Catalog, path: seq<World>, k: nat, j: nat, node: Node, tenant: Tenant, u: nat)
    requires IsPath(catalog, path) && k <= j < |path|
    requires NothingOlder(path[k], node, tenant, u) && u < |path[k].history|
    ensures NothingOlder(path[j], node, tenant, u) && u < |path[j].history|
    ensures OnlyNewer(path[k].answers, path[j].answers, node, tenant, u)
    decreases j - k
  {
    if k < j {
      ReadsOwnWrites(catalog, path, k, j - 1, node, tenant, u);
      assert StepsAt(catalog, path, j - 1);
      NothingOlderKept(catalog, path[j - 1], path[j], node, tenant, u);
      OnlyNewerJoins(path[k].answers, path[j - 1].answers, path[j].answers, node, tenant, u);
    }
  }

  // What the invalidation at the end of setEnabled achieves, over whole runs:
  // every later answer for the tenant on the node comes from the written
  // version or a later one exactly when no load of the tenant that read before
  // the upsert is in flight there.
  lemma InvalidationExact(catalog: Catalog, run: seq<World>, k: nat, write: nat)
    requires IsRun(catalog, run) && k + 1 < |run| && Next(catalog, run[k], FinishSet(write), run[k + 1])
    ensures var s := run[k].writes[write];
      (forall path :: IsPath(catalog, path) && path[0] == run[k + 1] ==>
        OnlyNewer(run[k + 1].answers, Last(path).answers, s.node, s.tenant, s.upserted.value))
      <==> NoneOlderInFlight(run[k + 1], s.node, s.tenant, s.upserted.value)
  {
    var w := run[k + 1];
    var s := run[k].writes[write];
    var u := s.upserted.value;
    RunGood(catalog, run, k);
    RunGood(catalog, run, k + 1);
    assert WriteGood(catalog, run[k].history, s);
    if NoneOlderInFlight(w, s.node, s.tenant, u) {
      forall path | IsPath(catalog, path) && path[0] == w
        ensures OnlyNewer(w.answers, Last(path).answers, s.node, s.tenant, u)
      {
        ReadsOwnWrites(catalog, path, 0, |path| - 1, s.node, s.tenant, u);
      }
    } else {
      var id :| id in w.loads && OlderInFlight(w, id, s.node, s.tenant, u);
      var path := OlderLoadResurfaces(catalog, w, id, 0, s.node, s.tenant, u);
      assert Last(path).answers[|w.answers|].sight.version < u;
    }
  }

  // Otherwise the old value comes back: the load in flight replies, after any
  // delay, and refills the cache; the next query on the node, asked up to the
  // end of the time to live, is answered from it.
  lemma OlderLoadResurfaces(
      catalog: Catalog, w: World, id: nat, delay: nat, node: Node, tenant: Tenant, u: nat)
      returns (path: seq<World>)
    requires Good(catalog, w) && OlderInFlight(w, id, node, tenant, u)
    ensures IsPath(catalog, path) && path[0] == w
    ensures Last(path).history == w.history && Last(path).writes == w.writes
    ensures var sight := w.loads[id].sight.value;
      var features := Effective(catalog, w.history[sight.version].table, tenant);
      var storedAt := w.now + delay;
      && sight.version < u
      && Last(path).answers == w.answers + [
           Answer(node, tenant, features, storedAt, sight, storedAt),
           Answer(node, tenant, features, storedAt + CACHE_TTL_MS - 1, sight, storedAt)]
  {
    var sight := w.loads[id].sight.value;
    assert Saw(w.history, w.now, sight);
    var late := w.(now := w.now + delay);
    var features := Effective(catalog, w.history[sight.version].table, tenant);
    var replied := late.(
      caches := late.caches[(node, tenant) := Held(NewEntry(features, late.now), sight, late.now)],
      loads := late.loads - {id},
      answers := late.answers + [Answer(node, tenant, features, late.now, sight, late.now)]);
    PathAppend(catalog, [w], Tick(delay), late);
    PathAppend(catalog, [w] + [late], Reply(id), replied);
    var start := [w] + [late] + [replied];
    PathGood(catalog, start, 2);
    var rest := AskLate(catalog, replied, node, tenant);
    PathJoin(catalog, start, rest);
    path := start + rest[1..];
  }

  // An answer from the version a write made carries the value it wrote, both
  // while the write is pending and at any time after it.
  lemma OwnVersionHasOwnValue(catalog: Catalog, run: seq<World>, k: nat, j: nat, write: nat, i: nat)
    requires IsRun(catalog, run) && k <= j < |run|
    requires write in run[k].writes && run[k].writes[write].upserted.Some?
    requires i < |run[j].answers| && run[j].answers[i].tenant == run[k].writes[write].tenant
    requires run[j].answers[i].sight.version == run[k].writes[write].upserted.value
    ensures var s := run[k].writes[write];
      s.key in run[j].answers[i].features && run[j].answers[i].features[s.key] == s.enabled
  {
    RunGood(catalog, run, k);
    assert WriteGood(catalog, run[k].history, run[k].writes[write]);
    RunGood(catalog, run, j);
    assert AnswerGood(catalog, run[j].history, run[j].now, run[j].answers[i]);
    HistoryGrows(catalog, run, k, j);
  }

  // A clean invalidation gives the node back what it wrote: from then on every
  // answer for the tenant carries the value, until a later version changes it.
  lemma ReadsBackOwnValue(catalog: Catalog, run: seq<World>, k: nat, j: nat, write: nat, i: nat)
    requires IsRun(catalog, run) && k < j < |run| && Next(catalog, run[k], FinishSet(write), run[k + 1])
    requires var s := run[k].writes[write]; NoneOlderInFlight(run[k + 1], s.node, s.tenant, s.upserted.value)
    requires |run[k + 1].answers| <= i < |run[j].answers|
    requires var s := run[k].writes[write]; run[j].answers[i].node == s.node && run[j].answers[i].tenant == s.tenant
    ensures var s := run[k].writes[write];
      var a := run[j].answers[i];
      && s.upserted.value <= a.sight.version < |run[j].history|
      && s.key in a.features
      && (a.features[s.key] == s.enabled || ChangedBetween(catalog, run[j].history, s, a.sight.version))
  {
    var s := run[k].writes[write];
    var a := run[j].answers[i];
    RunGood(catalog, run, k);
    assert WriteGood(catalog, run[k].history, s);
    ReadsOwnWrites(catalog, run, k + 1, j, s.node, s.tenant, s.upserted.value);
    RunGood(catalog, run, j);
    assert AnswerGood(catalog, run[j].history, run[j].now, a);
    HistoryGrows(catalog, run, k, j);
    WrittenValueKept(catalog, run[j].history, s, a.sight.version);
  }

  // Some version after the one the write made, up to v, has another value
  // than the version before it.
  ghost predicate ChangedBetween(catalog: Catalog, h: History, s: Write, v: nat) {
    s.key in catalog && s.upserted.Some? &&
    exists c :: s.upserted.value < c <= v && c < |h| && ChangedAt(catalog, h, s, c)
  }

  ghost predicate ChangedAt(catalog: Catalog, h: History, s: Write, c: nat)
    requires 0 < c < |h| && s.key in catalog
  {
    Effective(catalog, h[c].table, s.tenant)[s.key] != Effective(catalog, h[c - 1].table, s.tenant)[s.key]
  }

  lemma {:induction false} WrittenValueKept(catalog: Catalog, h: History, s: Write, v: nat)
    requires s.key in catalog && s.upserted.Some? && s.upserted.value <= v < |h|
    requires Effective(catalog, h[s.upserted.value].table, s.tenant)[s.key] == s.enabled
    ensures Effective(catalog, h[v].table, s.tenant)[s.key] == s.enabled || ChangedBetween(catalog, h, s, v)
  {
    if s.upserted.value < v {
      WrittenValueKept(catalog, h, s, v - 1);
      assert ChangedAt(catalog, h, s, v) || !ChangedAt(catalog, h, s, v);
    }
  }

  // A write changes the one feature of the one tenant, and nothing else changes
  // the table.
  lemma OnlyWrittenChanges(catalog: Catalog, w: World, a: Action, w': World, tenant: Tenant, key: FeatureKey)
    requires Next(catalog, w, a, w') && key in catalog && |w.history| > 0 && |w'.history| > 0
    ensures var before, after := w.history[|w.history| - 1].table, w'.history[|w'.history| - 1].table;
      Effective(catalog, after, tenant)[key] ==
        if a.Upsert? && w.writes[a.write].tenant == tenant && w.writes[a.write].key == key
        then w.writes[a.write].enabled else Effective(catalog, before, tenant)[key]
  {
    if a.Upsert? {
      assert w'.history[|w.history|] == w'.history[|w'.history| - 1];
    } else {
      assert w'.history == w.history;
    }
  }

  // ---------- Runs that go wrong ----------

  // A load of an uncached tenant that has read the table.
  lemma LoadReads(catalog: Catalog, w: World, node: Node, tenant: Tenant) returns (path: seq<World>)
    requires Initial(w)
    ensures IsPath(catalog, path) && path[0] == w && |path| == 3
    ensures Last(path) == w.(loads := map[0 := Load(node, tenant, Some(Sight(0, w.now)))])
  {
    var asked := w.(loads := map[0 := Load(node, tenant, None)]);
    var read := w.(loads := map[0 := Load(node, tenant, Some(Sight(0, w.now)))]);
    assert asked.loads[0 := read.loads[0]] == read.loads;
    PathAppend(catalog, [w], Ask(0, node, tenant), asked);
    PathAppend(catalog, [w] + [asked], Read(0), read);
    path := [w] + [asked] + [read];
  }

  ghost function Upserted(w: World, write: Write): World
    requires |w.history| > 0
  {
    var table := w.history[|w.history| - 1].table;
    w.(history := w.history + [Version(w.now, table[(write.tenant, write.key) := write.enabled])])
  }

  // setEnabled from its checks to its end.
  lemma WriteFinishes(catalog: Catalog, w: World, write: Write) returns (path: seq<World>)
    requires |w.history| > 0 && w.writes == map[] && w.caches == map[]
    requires write.upserted == Some(|w.history|)
    requires write.key in catalog && (catalog[write.key].irreversible ==> write.enabled)
    ensures IsPath(catalog, path) && path[0] == w && |path| == 4
    ensures path[2].writes == map[0 := write] && Next(catalog, path[2], FinishSet(0), path[3])
    ensures Last(path) == Upserted(w, write)
  {
    var begun := w.(writes := map[0 := write.(upserted := None)]);
    var upserted := Upserted(w, write).(writes := map[0 := write]);
    var finished := Upserted(w, write);
    assert begun.writes[0 := write] == upserted.writes;
    assert upserted.writes - {0} == map[] && upserted.caches - {(write.node, write.tenant)} == map[];
    var input := SetInput(write.enabled, true);
    PathAppend(catalog, [w], BeginSet(0, write.node, write.tenant, write.key, input), begun);
    PathAppend(catalog, [w] + [begun], Upsert(0), upserted);
    PathAppend(catalog, [w] + [begun] + [upserted], FinishSet(0), finished);
    path := [w] + [begun] + [upserted] + [finished];
  }

  // A write that is made and finished while a load that has read is still out.
  lemma WriteDuringLoad(catalog: Catalog, w: World, asker: Node, write: Write) returns (path: seq<World>)
    requires Initial(w) && write.upserted == Some(1)
    requires write.key in catalog && (catalog[write.key].irreversible ==> write.enabled)
    ensures IsRun(catalog, path) && path[0] == w && |path| == 6
    ensures path[4].writes == map[0 := write] && Next(catalog, path[4], FinishSet(0), path[5])
    ensures path[5] == Upserted(w, write).(loads := map[0 := Load(asker, write.tenant, Some(Sight(0, w.now)))])
  {
    var start := LoadReads(catalog, w, asker, write.tenant);
    var rest := WriteFinishes(catalog, Last(start), write);
    PathJoin(catalog, start, rest);
    path := start + rest[1..];
    assert path[4] == rest[2] && path[5] == rest[3] && path[0] == start[0];
  }

  // From any initial world, for any two nodes, the same or not, and any delay
  // of the load's reply, a query asked after a write has finished gets the
  // value from before it, the time to live and the delay after the write.
  lemma OverdueAnswer(
      catalog: Catalog, w: World, asker: Node, writer: Node, tenant: Tenant, key: FeatureKey, delay: nat)
      returns (run: seq<World>)
    requires Initial(w) && key in catalog
    requires catalog[key].irreversible ==> !Effective(catalog, w.history[0].table, tenant)[key]
    ensures IsRun(catalog, run) && run[0] == w
    ensures var enabled := !Effective(catalog, w.history[0].table, tenant)[key];
      && |run| > 5 && 0 in run[4].writes && Next(catalog, run[4], FinishSet(0), run[5])
      && run[4].writes[0] == Write(writer, tenant, key, enabled, Some(1))
      && |Last(run).history| == 2 && Last(run).answers != [] && run[5].answers == []
      && var table := Last(run).history[1];
      var a := Last(run).answers[|Last(run).answers| - 1];
      && Effective(catalog, table.table, tenant)[key] == enabled
      && a.node == asker && a.tenant == tenant
      && a.answeredAt - table.since == 29_999 + delay == a.answeredAt - a.sight.readAt
      && key in a.features && a.features[key] == !enabled
  {
    var enabled := !Effective(catalog, w.history[0].table, tenant)[key];
    var start := WriteDuringLoad(catalog, w, asker, Write(writer, tenant, key, enabled, Some(1)));
    RunGood(catalog, start, 5);
    assert OlderInFlight(Last(start), 0, asker, tenant, 1);
    var rest := OlderLoadResurfaces(catalog, Last(start), 0, delay, asker, tenant, 1);
    PathJoin(catalog, start, rest);
    run := start + rest[1..];
  }

  // A load that has filled an empty cache.
  lemma LoadFills(catalog: Catalog, w: World, node: Node, tenant: Tenant) returns (path: seq<World>)
    requires Initial(w)
    ensures IsPath(catalog, path) && path[0] == w
    ensures var features := Effective(catalog, w.history[0].table, tenant);
      Last(path) == w.(
        caches := map[(node, tenant) := Held(NewEntry(features, w.now), Sight(0, w.now), w.now)],
        answers := [Answer(node, tenant, features, w.now, Sight(0, w.now), w.now)])
  {
    var start := LoadReads(catalog, w, node, tenant);
    var features := Effective(catalog, w.history[0].table, tenant);
    var filled := w.(
      caches := map[(node, tenant) := Held(NewEntry(features, w.now), Sight(0, w.now), w.now)],
      answers := [Answer(node, tenant, features, w.now, Sight(0, w.now), w.now)]);
    assert Last(start).loads - {0} == filled.loads;
    PathAppend(catalog, start, Reply(0), filled);
    path := start + [filled];
  }

  // setEnabled from its checks to an audit row that cannot be written: the
  // table has changed, the caches have not.
  lemma WriteFails(catalog: Catalog, w: World, write: Write) returns (path: seq<World>)
    requires |w.history| > 0 && w.writes == map[]
    requires write.upserted == Some(|w.history|)
    requires write.key in catalog && (catalog[write.key].irreversible ==> write.enabled)
    ensures IsPath(catalog, path) && path[0] == w && Last(path) == Upserted(w, write)
    ensures |path| == 4 && path[2].writes == map[0 := write] && Next(catalog, path[2], SetFails(0), path[3])
  {
    var begun := w.(writes := map[0 := write.(upserted := None)]);
    var upserted := Upserted(w, write).(writes := map[0 := write]);
    var failed := Upserted(w, write);
    assert begun.writes[0 := write] == upserted.writes && upserted.writes - {0} == map[];
    PathAppend(catalog, [w], BeginSet(0, write.node, write.tenant, write.key, SetInput(write.enabled, true)), begun);
    PathAppend(catalog, [w] + [begun], Upsert(0), upserted);
    PathAppend(catalog, [w] + [begun] + [upserted], SetFails(0), failed);
    path := [w] + [begun] + [upserted] + [failed];
  }

  // When the audit row fails the invalidation is skipped: on the writing node
  // itself, with no load in flight, the old value is answered to the end of the
  // time to live.
  lemma FailedAuditLeavesStale(catalog: Catalog, w: World, node: Node, tenant: Tenant, key: FeatureKey)
      returns (run: seq<World>)
    requires Initial(w) && key in catalog
    requires catalog[key].irreversible ==> !Effective(catalog, w.history[0].table, tenant)[key]
    ensures IsRun(catalog, run) && run[0] == w && Last(run).loads == map[] && Last(run).writes == map[]
    ensures var enabled := !Effective(catalog, w.history[0].table, tenant)[key];
      && |Last(run).history| == 2 && Last(run).answers != []
      && var table := Last(run).history[1];
      var a := Last(run).answers[|Last(run).answers| - 1];
      && Effective(catalog, table.table, tenant)[key] == enabled
      && a.node == node && a.tenant == tenant && a.answeredAt - table.since == 29_999
      && key in a.features && a.features[key] == !enabled
  {
    var enabled := !Effective(catalog, w.history[0].table, tenant)[key];
    var filled := LoadFills(catalog, w, node, tenant);
    var failed := WriteFails(catalog, Last(filled), Write(node, tenant, key, enabled, Some(1)));
    PathJoin(catalog, filled, failed);
    var rest := AskLate(catalog, Last(failed), node, tenant);
    PathJoin(catalog, filled + failed[1..], rest);
    run := filled + failed[1..] + rest[1..];
  }
}
