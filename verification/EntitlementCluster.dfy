// Any number of nodes answering from their own caches while entitlements
// change, under every interleaving of queries, replies and writes.
module EntitlementCluster {
  import opened Results
  import opened Entitlements

  type Node = nat

  // The table from time `since` on.
  datatype Version = Version(since: int, table: Table)

  // Which version a database read saw, and when.
  datatype Sight = Sight(version: nat, readAt: int)

  datatype Held = Held(entry: CacheEntry, sight: Sight, storedAt: int)

  // A loadMap call that missed the cache, before and after the database reads.
  datatype Load = Load(node: Node, tenant: Tenant, sight: Option<Sight>)

  // A setEnabled call past its checks, before and after its upsert.
  datatype Write = Write(node: Node, tenant: Tenant, key: FeatureKey, enabled: bool, upserted: Option<nat>)

  // A map handed to a caller of isEnabled.
  datatype Answer = Answer(
    node: Node, tenant: Tenant, features: FeatureMap, answeredAt: int, sight: Sight, storedAt: int)

  datatype World = World(
    now: int,
    history: seq<Version>,
    caches: map<(Node, Tenant), Held>,
    loads: map<nat, Load>,
    writes: map<nat, Write>,
    answers: seq<Answer>)

  datatype Action =
    | Tick(elapsed: nat)
    | Ask(load: nat, node: Node, tenant: Tenant)
    | Read(load: nat)
    | Reply(load: nat)
    | LoadFails(load: nat)
    | BeginSet(write: nat, node: Node, tenant: Tenant, key: FeatureKey, input: SetInput)
    | Upsert(write: nat)
    | FinishSet(write: nat)
    | SetFails(write: nat)
    | Restart(node: Node)

  ghost function CachedAt(w: World, node: Node, tenant: Tenant): Option<CacheEntry> {
    if (node, tenant) in w.caches then Some(w.caches[(node, tenant)].entry) else None
  }

  ghost predicate Initial(w: World) {
    && |w.history| == 1 && w.history[0].since <= w.now
    && w.caches == map[] && w.loads == map[] && w.writes == map[] && w.answers == []
  }

  ghost predicate Next(catalog: Catalog, w: World, a: Action, w': World) {
    match a
    case Tick(elapsed) => w' == w.(now := w.now + elapsed)
    case Ask(load, node, tenant) =>
      var hit := Hit(CachedAt(w, node, tenant), w.now);
      if hit.Some? then
        var held := w.caches[(node, tenant)];
        w' == w.(answers := w.answers + [Answer(node, tenant, hit.value, w.now, held.sight, held.storedAt)])
      else
        load !in w.loads && w' == w.(loads := w.loads[load := Load(node, tenant, None)])
    case Read(load) =>
      && load in w.loads && w.loads[load].sight == None && |w.history| > 0
      && w' == w.(loads := w.loads[load := w.loads[load].(sight := Some(Sight(|w.history| - 1, w.now)))])
    case Reply(load) =>
      && load in w.loads && w.loads[load].sight.Some?
      && w.loads[load].sight.value.version < |w.history|
      && var l := w.loads[load];
         var features := Effective(catalog, w.history[l.sight.value.version].table, l.tenant);
         w' == w.(
           caches := w.caches[(l.node, l.tenant) := Held(NewEntry(features, w.now), l.sight.value, w.now)],
           loads := w.loads - {load},
           answers := w.answers + [Answer(l.node, l.tenant, features, w.now, l.sight.value, w.now)])
    case LoadFails(load) => w' == w.(loads := w.loads - {load})
    case BeginSet(write, node, tenant, key, input) =>
      && write !in w.writes && CheckSet(catalog, key, input).Success?
      && w' == w.(writes := w.writes[write := Write(node, tenant, key, input.enabled, None)])
    case Upsert(write) =>
      && write in w.writes && w.writes[write].upserted == None && |w.history| > 0
      && var s := w.writes[write];
         var table := w.history[|w.history| - 1].table;
         w' == w.(
           history := w.history + [Version(w.now, table[(s.tenant, s.key) := s.enabled])],
           writes := w.writes[write := s.(upserted := Some(|w.history|))])
    case FinishSet(write) =>
      && write in w.writes && w.writes[write].upserted.Some?
      && var s := w.writes[write];
         w' == w.(caches := w.caches - {(s.node, s.tenant)}, writes := w.writes - {write})
    case SetFails(write) => w' == w.(writes := w.writes - {write})
    case Restart(node) =>
      w' == w.(
        caches := map slot | slot in w.caches && slot.0 != node :: w.caches[slot],
        loads := map load | load in w.loads && w.loads[load].node != node :: w.loads[load],
        writes := map write | write in w.writes && w.writes[write].node != node :: w.writes[write])
  }

  // ---------- What every reachable world satisfies ----------

  type History = seq<Version>

  // The version was in force when it was read.
  ghost predicate Saw(h: History, now: int, s: Sight) {
    && s.version < |h|
    && h[s.version].since <= s.readAt <= now
    && (s.version + 1 < |h| ==> s.readAt <= h[s.version + 1].since)
  }

  ghost predicate Stays(catalog: Catalog, key: FeatureKey, tenant: Tenant, before: Table, after: Table) {
    key in catalog && catalog[key].irreversible && Effective(catalog, before, tenant)[key] ==>
      Effective(catalog, after, tenant)[key]
  }

  ghost predicate HistoryGood(catalog: Catalog, h: History, now: int) {
    && |h| > 0
    && (forall v, u :: 0 <= v <= u < |h| ==> h[v].since <= h[u].since <= now)
    && (forall v, u, tenant, key :: 0 <= v <= u < |h| ==> Stays(catalog, key, tenant, h[v].table, h[u].table))
  }

  ghost predicate HeldGood(catalog: Catalog, h: History, now: int, tenant: Tenant, held: Held) {
    && Saw(h, now, held.sight) && held.sight.readAt <= held.storedAt <= now
    && held.entry == NewEntry(Effective(catalog, h[held.sight.version].table, tenant), held.storedAt)
  }

  ghost predicate AnswerGood(catalog: Catalog, h: History, now: int, a: Answer) {
    && Saw(h, now, a.sight) && a.sight.readAt <= a.storedAt <= a.answeredAt <= now
    && a.features == Effective(catalog, h[a.sight.version].table, a.tenant)
    && a.answeredAt < a.storedAt + CACHE_TTL_MS
  }

  // A write that has reached the table made the version it remembers.
  ghost predicate WriteGood(catalog: Catalog, h: History, s: Write) {
    && s.key in catalog && (catalog[s.key].irreversible ==> s.enabled)
    && (s.upserted.Some? ==>
          s.upserted.value < |h| && Effective(catalog, h[s.upserted.value].table, s.tenant)[s.key] == s.enabled)
  }

  ghost predicate CachesGood(catalog: Catalog, h: History, now: int, caches: map<(Node, Tenant), Held>) {
    forall slot <- caches :: HeldGood(catalog, h, now, slot.1, caches[slot])
  }

  ghost predicate LoadsGood(h: History, now: int, loads: map<nat, Load>) {
    forall id <- loads :: loads[id].sight.Some? ==> Saw(h, now, loads[id].sight.value)
  }

  ghost predicate WritesGood(catalog: Catalog, h: History, writes: map<nat, Write>) {
    forall id <- writes :: WriteGood(catalog, h, writes[id])
  }

  ghost predicate AnswersGood(catalog: Catalog, h: History, now: int, answers: seq<Answer>) {
    forall i :: 0 <= i < |answers| ==> AnswerGood(catalog, h, now, answers[i])
  }

  ghost predicate Good(catalog: Catalog, w: World) {
    && HistoryGood(catalog, w.history, w.now)
    && CachesGood(catalog, w.history, w.now, w.caches)
    && LoadsGood(w.history, w.now, w.loads)
    && WritesGood(catalog, w.history, w.writes)
    && AnswersGood(catalog, w.history, w.now, w.answers)
  }

  lemma InitialGood(catalog: Catalog, w: World)
    requires Initial(w)
    ensures Good(catalog, w)
  {
  }

  // Later versions are only ever appended, not before the present.
  ghost predicate Extends(h: History, now: int, h': History, now': int) {
    && h <= h' && now <= now'
    && forall v :: |h| <= v < |h'| ==> now <= h'[v].since <= now'
  }

  lemma NextExtends(catalog: Catalog, w: World, a: Action, w': World)
    requires Next(catalog, w, a, w')
    ensures Extends(w.history, w.now, w'.history, w'.now)
  {
  }

  lemma SawLater(h: History, now: int, h': History, now': int, s: Sight)
    requires Extends(h, now, h', now') && Saw(h, now, s)
    ensures Saw(h', now', s)
  {
  }

  lemma NextHistory(catalog: Catalog, w: World, a: Action, w': World)
    requires Good(catalog, w) && Next(catalog, w, a, w')
    ensures HistoryGood(catalog, w'.history, w'.now)
  {
    if a.Upsert? {
      var last := w.history[|w.history| - 1].table;
      var next := w'.history[|w.history|].table;
      forall v, tenant, key | 0 <= v < |w.history|
        ensures Stays(catalog, key, tenant, w.history[v].table, next)
      {
        assert WriteGood(catalog, w.history, w.writes[a.write]);
        assert Stays(catalog, key, tenant, w.history[v].table, last);
      }
    }
  }

  lemma NextCaches(catalog: Catalog, w: World, a: Action, w': World)
    requires Good(catalog, w) && Next(catalog, w, a, w')
    ensures CachesGood(catalog, w'.history, w'.now, w'.caches)
  {
    NextExtends(catalog, w, a, w');
    forall slot <- w'.caches ensures HeldGood(catalog, w'.history, w'.now, slot.1, w'.caches[slot]) {
      SawLater(w.history, w.now, w'.history, w'.now, w'.caches[slot].sight);
    }
  }

  lemma NextLoads(catalog: Catalog, w: World, a: Action, w': World)
    requires Good(catalog, w) && Next(catalog, w, a, w')
    ensures LoadsGood(w'.history, w'.now, w'.loads)
  {
    NextExtends(catalog, w, a, w');
    forall id <- w'.loads | w'.loads[id].sight.Some? ensures Saw(w'.history, w'.now, w'.loads[id].sight.value) {
      if id in w.loads && w'.loads[id] == w.loads[id] {
        SawLater(w.history, w.now, w'.history, w'.now, w.loads[id].sight.value);
      }
    }
  }

  // A step answers at most one query, the last in the list.
  lemma OneMoreAnswer(catalog: Catalog, w: World, a: Action, w': World)
    requires Next(catalog, w, a, w')
    ensures w.answers <= w'.answers && |w'.answers| <= |w.answers| + 1
    ensures |w'.answers| > |w.answers| ==> a.Ask? || a.Reply?
  {
  }

  lemma NewAnswerGood(catalog: Catalog, w: World, a: Action, w': World)
    requires CachesGood(catalog, w.history, w.now, w.caches) && LoadsGood(w.history, w.now, w.loads)
    requires Next(catalog, w, a, w') && |w'.answers| > |w.answers|
    ensures AnswerGood(catalog, w'.history, w'.now, w'.answers[|w.answers|])
  {
    OneMoreAnswer(catalog, w, a, w');
    if a.Ask? {
      assert HeldGood(catalog, w.history, w.now, a.tenant, w.caches[(a.node, a.tenant)]);
    } else {
      assert Saw(w.history, w.now, w.loads[a.load].sight.value);
    }
  }

  lemma NextAnswers(catalog: Catalog, w: World, a: Action, w': World)
    requires Good(catalog, w) && Next(catalog, w, a, w')
    ensures AnswersGood(catalog, w'.history, w'.now, w'.answers)
  {
    NextExtends(catalog, w, a, w');
    OneMoreAnswer(catalog, w, a, w');
    if |w'.answers| > |w.answers| {
      NewAnswerGood(catalog, w, a, w');
    }
    forall i | 0 <= i < |w.answers| ensures AnswerGood(catalog, w'.history, w'.now, w'.answers[i]) {
      AnswerKept(catalog, w.history, w.now, w'.history, w'.now, w.answers[i]);
    }
  }

  lemma AnswerKept(catalog: Catalog, h: History, now: int, h': History, now': int, a: Answer)
    requires Extends(h, now, h', now') && AnswerGood(catalog, h, now, a)
    ensures AnswerGood(catalog, h', now', a)
  {
    SawLater(h, now, h', now', a.sight);
  }

  lemma NextWrites(catalog: Catalog, w: World, a: Action, w': World)
    requires Good(catalog, w) && Next(catalog, w, a, w')
    ensures WritesGood(catalog, w'.history, w'.writes)
  {
    forall id <- w'.writes ensures WriteGood(catalog, w'.history, w'.writes[id]) {
      assert id in w.writes ==> WriteGood(catalog, w.history, w.writes[id]);
    }
  }

  lemma NextGood(catalog: Catalog, w: World, a: Action, w': World)
    requires Good(catalog, w) && Next(catalog, w, a, w')
    ensures Good(catalog, w')
  {
    NextHistory(catalog, w, a, w');
    NextCaches(catalog, w, a, w');
    NextLoads(catalog, w, a, w');
    NextWrites(catalog, w, a, w');
    NextAnswers(catalog, w, a, w');
  }

  ghost predicate Steps(catalog: Catalog, w: World, w': World) {
    exists a :: Next(catalog, w, a, w')
  }

  ghost predicate IsPath(catalog: Catalog, path: seq<World>) {
    |path| > 0 && forall k: nat :: k + 1 < |path| ==> StepsAt(catalog, path, k)
  }

  ghost predicate StepsAt(catalog: Catalog, path: seq<World>, k: nat)
    requires k + 1 < |path|
  {
    Steps(catalog, path[k], path[k + 1])
  }

  ghost predicate IsRun(catalog: Catalog, run: seq<World>) {
    IsPath(catalog, run) && Initial(run[0])
  }

  ghost function Last(path: seq<World>): World
    requires |path| > 0
  {
    path[|path| - 1]
  }

  lemma PathAppend(catalog: Catalog, path: seq<World>, a: Action, w': World)
    requires IsPath(catalog, path) && Next(catalog, Last(path), a, w')
    ensures IsPath(catalog, path + [w']) && Last(path + [w']) == w'
  {
    assert Steps(catalog, Last(path), w');
    forall k: nat | k + 1 < |path| + 1 ensures StepsAt(catalog, path + [w'], k) {
      assert k + 1 < |path| ==> StepsAt(catalog, path, k);
    }
  }

  lemma PathJoin(catalog: Catalog, x: seq<World>, y: seq<World>)
    requires IsPath(catalog, x) && IsPath(catalog, y) && Last(x) == y[0]
    ensures IsPath(catalog, x + y[1..]) && Last(x + y[1..]) == Last(y)
  {
    forall k: nat | k + 1 < |x| + |y| - 1 ensures StepsAt(catalog, x + y[1..], k) {
      if k + 1 < |x| {
        assert StepsAt(catalog, x, k);
      } else {
        assert StepsAt(catalog, y, k + 1 - |x|);
      }
    }
  }

  lemma StepsGood(catalog: Catalog, w: World, w': World)
    requires Good(catalog, w) && Steps(catalog, w, w')
    ensures Good(catalog, w')
  {
    var a :| Next(catalog, w, a, w');
    NextGood(catalog, w, a, w');
  }

  lemma {:induction false} PathGood(catalog: Catalog, path: seq<World>, k: nat)
    requires IsPath(catalog, path) && Good(catalog, path[0]) && k < |path|
    ensures Good(catalog, path[k])
  {
    if k > 0 {
      PathGood(catalog, path, k - 1);
      assert StepsAt(catalog, path, k - 1);
      StepsGood(catalog, path[k - 1], path[k]);
    }
  }

  lemma RunGood(catalog: Catalog, run: seq<World>, k: nat)
    requires IsRun(catalog, run) && k < |run|
    ensures Good(catalog, run[k])
  {
    InitialGood(catalog, run[0]);
    PathGood(catalog, run, k);
  }

  // No version ever changes or goes away.
  lemma {:induction false} HistoryGrows(catalog: Catalog, path: seq<World>, k: nat, j: nat)
    requires IsPath(catalog, path) && k <= j < |path|
    ensures path[k].history <= path[j].history
    decreases j - k
  {
    if k < j {
      HistoryGrows(catalog, path, k, j - 1);
      assert StepsAt(catalog, path, j - 1);
      StepsExtend(catalog, path[j - 1], path[j]);
    }
  }

  lemma StepsExtend(catalog: Catalog, w: World, w': World)
    requires Steps(catalog, w, w')
    ensures w.history <= w'.history
  {
    var a :| Next(catalog, w, a, w');
    NextExtends(catalog, w, a, w');
  }
}
