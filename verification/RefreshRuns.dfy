// The 401 interceptor under every interleaving of requests, responses, refresh
// replies, logins and logouts, against a server that issues fresh tokens.
module RefreshRuns {
  import opened Results
  import opened ApiClients

  datatype Promise =
    | Posting(token: Token)                             // the refresh request is out
    | Settled(result: Option<Token>)                    // tryRefresh returned, finally has not run
    | Resolved(result: Option<Token>, at: nat)          // what the waiters see

  datatype Phase = InFlight | Awaiting(promise: nat) | Closed

  // `first` is the token of the first attempt; `early` says that its 401 came
  // before the reply of the refresh it waits for.
  datatype Request = Request(
    phase: Phase, sends: nat, retried: bool, first: Option<Token>, last: Option<Token>,
    seenAt: nat, early: bool, via: Option<nat>)

  datatype World = World(
    now: nat,
    client: Client,
    promises: seq<Promise>,
    requests: map<nat, Request>,
    posted: seq<Token>,
    issued: set<Token>)

  datatype Action =
    | Send(id: nat)
    | Completes(id: nat)
    | Unauthorized(id: nat)
    | RefreshReplies(promise: nat, reply: Option<Tokens>)
    | RunFinally(promise: nat)
    | Wakes(id: nat)
    | Login(tokens: Tokens)
    | Logout

  ghost predicate Initial(w: World) {
    && !w.client.isRefreshing && w.client.refreshPromise == None
    && w.promises == [] && w.requests == map[] && w.posted == []
    && InStore(w.client.store) <= w.issued
  }

  ghost function InStore(s: Store): set<Token> {
    (if s.accessToken.Some? then {s.accessToken.value} else {})
    + (if s.refreshToken.Some? then {s.refreshToken.value} else {})
  }

  ghost predicate FreshTokens(w: World, t: Tokens) {
    t.access !in w.issued && t.refresh !in w.issued
  }

  ghost predicate Next(w: World, a: Action, w': World) {
    w'.now == w.now + 1 &&
    match a
    case Send(id) =>
      && id !in w.requests
      && var token := w.client.store.accessToken;
         w' == w.(now := w.now + 1,
                  requests := w.requests[id := Request(InFlight, 1, false, token, token, 0, false, None)])
    case Completes(id) =>
      && id in w.requests && w.requests[id].phase == InFlight
      && w' == w.(now := w.now + 1, requests := w.requests[id := w.requests[id].(phase := Closed)])
    case Unauthorized(id) =>
      && id in w.requests && w.requests[id].phase == InFlight
      && var r := w.requests[id];
         var (client, reaction) := AfterUnauthorized(w.client, r.retried, |w.promises|);
         (match reaction
          case RejectError =>
            w' == w.(now := w.now + 1, requests := w.requests[id := r.(phase := Closed)])
          case AwaitPromise(p) =>
            && p < |w.promises|
            && w' == w.(now := w.now + 1,
                        requests := w.requests[id := r.(phase := Awaiting(p), retried := true, seenAt := w.now,
                                                        early := w.promises[p].Posting?)])
          case StartRefresh(p, post) =>
            w' == w.(now := w.now + 1,
                     client := client,
                     promises := w.promises + [if post.Some? then Posting(post.value) else Settled(None)],
                     posted := if post.Some? then w.posted + [post.value] else w.posted,
                     requests := w.requests[id := r.(phase := Awaiting(p), retried := true, seenAt := w.now,
                                                     early := true)]))
    case RefreshReplies(p, reply) =>
      && p < |w.promises| && w.promises[p].Posting?
      && (reply.Some? ==> FreshTokens(w, reply.value))
      && var (client, newAccess) := AfterRefreshReply(w.client, reply);
         w' == w.(now := w.now + 1,
                  client := client,
                  promises := w.promises[p := Settled(newAccess)],
                  issued := if reply.Some? then w.issued + {reply.value.access, reply.value.refresh} else w.issued)
    case RunFinally(p) =>
      && p < |w.promises| && w.promises[p].Settled?
      && w' == w.(now := w.now + 1,
                  client := AfterFinally(w.client),
                  promises := w.promises[p := Resolved(w.promises[p].result, w.now)])
    case Wakes(id) =>
      && id in w.requests && w.requests[id].phase.Awaiting?
      && var r := w.requests[id];
         var p := r.phase.promise;
      && p < |w.promises| && w.promises[p].Resolved?
      && var next := AfterAwait(w.client, w.promises[p].result);
         w' == w.(now := w.now + 1, requests := w.requests[id :=
           if next.Retry?
           then r.(phase := InFlight, sends := r.sends + 1, last := Some(next.authorization), via := Some(p))
           else r.(phase := Closed)])
    case Login(t) =>
      && FreshTokens(w, t)
      && w' == w.(now := w.now + 1,
                  client := w.client.(store := Store(Some(t.access), Some(t.refresh))),
                  issued := w.issued + {t.access, t.refresh})
    case Logout =>
      w' == w.(now := w.now + 1, client := w.client.(store := Store(None, None)))
  }

  ghost predicate Steps(w: World, w': World) {
    exists a :: Next(w, a, w')
  }

  ghost predicate IsRun(run: seq<World>) {
    && |run| > 0 && Initial(run[0])
    && forall k :: 0 <= k < |run| - 1 ==> Steps(run[k], run[k + 1])
  }

  // ---------- Invariants ----------

  // Only the newest promise can be unresolved, and the flag says whether it is.
  ghost predicate SingleFlight(w: World) {
    var n := |w.promises|;
    && (forall p :: 0 <= p < n - 1 ==> w.promises[p].Resolved?)
    && w.client.refreshPromise == (if n == 0 then None else Some(n - 1))
    && (w.client.isRefreshing <==> n > 0 && !w.promises[n - 1].Resolved?)
    && (forall p :: 0 <= p < n && w.promises[p].Resolved? ==> w.promises[p].at < w.now)
  }

  // A refresh token that has been posted is in the store only while its
  // refresh is out.
  ghost predicate PostedOnce(w: World) {
    && (forall i, j :: 0 <= i < j < |w.posted| ==> w.posted[i] != w.posted[j])
    && (forall t <- w.posted :: t in w.issued)
    && InStore(w.client.store) <= w.issued
    && (w.client.store.refreshToken.Some? && w.client.store.refreshToken.value in w.posted ==>
          |w.promises| > 0 && w.promises[|w.promises| - 1] == Posting(w.client.store.refreshToken.value))
  }

  ghost predicate RequestGood(w: World, r: Request) {
    && 1 <= r.sends <= 2
    && (r.sends == 2 ==> r.retried) && (r.sends == 2 <==> r.via.Some?)
    && (r.phase.InFlight? && r.sends == 1 ==> !r.retried)
    && (r.first.Some? ==> r.first.value in w.issued)
    && (r.phase.Awaiting? ==>
          && r.sends == 1 && r.retried && r.phase.promise < |w.promises| && r.seenAt < w.now
          && AwaitGood(w, r, w.promises[r.phase.promise]))
    && (r.via.Some? ==>
          && r.via.value < |w.promises| && w.promises[r.via.value].Resolved?
          && w.promises[r.via.value].result.Some? && r.seenAt < w.promises[r.via.value].at
          && (r.early && r.first.Some? ==> r.last != r.first))
  }

  // What a waiting request may rely on.
  ghost predicate AwaitGood(w: World, r: Request, p: Promise) {
    && (p.Resolved? ==> r.seenAt < p.at)
    && (r.early && r.first.Some? && !p.Posting? && p.result.Some? ==>
          p.result != r.first && w.client.store.accessToken != r.first)
  }

  ghost predicate Good(w: World) {
    && SingleFlight(w) && PostedOnce(w)
    && forall id <- w.requests :: RequestGood(w, w.requests[id])
  }

  lemma NextSingleFlight(w: World, a: Action, w': World)
    requires Good(w) && Next(w, a, w')
    ensures SingleFlight(w')
  {
  }

  lemma NextPostedOnce(w: World, a: Action, w': World)
    requires Good(w) && Next(w, a, w')
    ensures PostedOnce(w')
  {
  }

  lemma NextRequests(w: World, a: Action, w': World, id: nat)
    requires Good(w) && Next(w, a, w') && id in w'.requests
    ensures RequestGood(w', w'.requests[id])
  {
    if id in w.requests && w'.requests[id] == w.requests[id] {
      OtherRequest(w, a, w', w.requests[id]);
    } else if id in w.requests {
      ChangedRequest(w, a, w', id);
    }
  }

  // A request the step does not touch keeps what it may rely on.
  lemma OtherRequest(w: World, a: Action, w': World, r: Request)
    requires Good(w) && Next(w, a, w') && RequestGood(w, r)
    ensures RequestGood(w', r)
  {
  }

  lemma ChangedRequest(w: World, a: Action, w': World, id: nat)
    requires Good(w) && Next(w, a, w') && id in w.requests && id in w'.requests
    requires w'.requests[id] != w.requests[id]
    ensures RequestGood(w', w'.requests[id])
  {
    assert RequestGood(w, w.requests[id]);
  }

  lemma {:induction false} RunGood(run: seq<World>, k: nat)
    requires IsRun(run) && k < |run|
    ensures Good(run[k])
  {
    if k > 0 {
      RunGood(run, k - 1);
      assert Steps(run[k - 1], run[k]);
      var a :| Next(run[k - 1], a, run[k]);
      NextSingleFlight(run[k - 1], a, run[k]);
      NextPostedOnce(run[k - 1], a, run[k]);
      forall id <- run[k].requests ensures RequestGood(run[k], run[k].requests[id]) {
        NextRequests(run[k - 1], a, run[k], id);
      }
    }
  }

  // ---------- Results over whole runs ----------

  ghost predicate Unfinished(w: World, p: nat) {
    p < |w.promises| && !w.promises[p].Resolved?
  }

  // At most one refresh is under way, and the flag is up exactly while it is.
  lemma AtMostOneRefresh(run: seq<World>, k: nat)
    requires IsRun(run) && k < |run|
    ensures forall p, q :: Unfinished(run[k], p) && Unfinished(run[k], q) ==> p == q
    ensures run[k].client.isRefreshing <==> exists p :: Unfinished(run[k], p)
  {
    RunGood(run, k);
    if run[k].client.isRefreshing {
      assert Unfinished(run[k], |run[k].promises| - 1);
    }
  }

  lemma NoTokenPostedTwice(run: seq<World>, k: nat, i: nat, j: nat)
    requires IsRun(run) && k < |run| && i < j < |run[k].posted|
    ensures run[k].posted[i] != run[k].posted[j]
  {
    RunGood(run, k);
  }

  // Each request is sent at most twice, the second time only with the outcome
  // of a refresh that ended after its 401 was seen.
  lemma RetriesFollowRefresh(run: seq<World>, k: nat, id: nat)
    requires IsRun(run) && k < |run| && id in run[k].requests
    ensures var r := run[k].requests[id];
      && 1 <= r.sends <= 2
      && (r.sends == 2 ==>
            && r.via.Some? && r.via.value < |run[k].promises|
            && var p := run[k].promises[r.via.value];
            p.Resolved? && p.result.Some? && r.seenAt < p.at)
  {
    RunGood(run, k);
    assert RequestGood(run[k], run[k].requests[id]);
  }

  // A request whose 401 came before that refresh was answered is never sent
  // again with the token that was rejected.
  lemma RejectedTokenNotResent(run: seq<World>, k: nat, id: nat)
    requires IsRun(run) && k < |run| && id in run[k].requests
    ensures var r := run[k].requests[id];
      r.sends == 2 && r.early && r.first.Some? ==> r.last != r.first
  {
    RunGood(run, k);
    assert RequestGood(run[k], run[k].requests[id]);
  }

  // ---------- What a 401 and a resolved refresh lead to ----------

  // A first 401 with no refresh under way posts exactly the store's refresh
  // token, and with one under way posts nothing; either way the request waits
  // for the newest refresh. A second 401 ends the request.
  lemma UnauthorizedLeadsTo(run: seq<World>, k: nat, id: nat)
    requires IsRun(run) && k + 1 < |run| && Next(run[k], Unauthorized(id), run[k + 1])
    ensures var w, w', r, r' := run[k], run[k + 1], run[k].requests[id], run[k + 1].requests[id];
      if r.sends == 2 then r' == r.(phase := Closed) && w'.posted == w.posted && w'.promises == w.promises
      else
        && w'.promises != [] && r'.phase == Awaiting(|w'.promises| - 1) && r'.sends == 1
        && if exists p :: Unfinished(w, p) then w'.posted == w.posted && w'.promises == w.promises
           else match w.client.store.refreshToken
             case Some(token) => w'.posted == w.posted + [token] && w'.promises == w.promises + [Posting(token)]
             case None => w'.posted == w.posted && w'.promises == w.promises + [Settled(None)]
  {
    RunGood(run, k);
    assert RequestGood(run[k], run[k].requests[id]);
    AtMostOneRefresh(run, k);
  }

  // A waiting request whose refresh has given a token is sent once more, with
  // the store's access token if it still has one; without a token it ends.
  lemma WakesLeadsTo(run: seq<World>, k: nat, id: nat)
    requires IsRun(run) && k + 1 < |run| && Next(run[k], Wakes(id), run[k + 1])
    ensures var w, r, r' := run[k], run[k].requests[id], run[k + 1].requests[id];
      && r.phase.promise < |w.promises| && w.promises[r.phase.promise].Resolved?
      && match w.promises[r.phase.promise].result
         case Some(token) =>
           && r'.phase == InFlight && r'.sends == 2
           && r'.last == if w.client.store.accessToken.Some? then w.client.store.accessToken else Some(token)
         case None => r'.phase == Closed && r'.sends == 1
  {
    RunGood(run, k);
    assert RequestGood(run[k], run[k].requests[id]);
  }

  // One request through an expired access token, with nothing in between: from
  // any reachable world where no refresh is under way, it goes out with the
  // store's access token, its 401 posts the store's refresh token, and the
  // reply's access token is the one it goes out with again.
  lemma RetrySucceeds(run: seq<World>, id: nat, access: Token, refresh: Token, t: Tokens) returns (longer: seq<World>)
    requires IsRun(run) && id !in Last(run).requests && !Last(run).client.isRefreshing
    requires Last(run).client.store == Store(Some(access), Some(refresh)) && FreshTokens(Last(run), t)
    ensures IsRun(longer) && |longer| == |run| + 5 && longer[..|run|] == run
    ensures var w := Last(longer);
      && id in w.requests && w.requests[id].phase == InFlight && w.requests[id].sends == 2
      && w.requests[id].first == Some(access) && w.requests[id].last == Some(t.access)
      && w.posted == Last(run).posted + [refresh]
      && w.client.store == Store(Some(t.access), Some(t.refresh)) && !w.client.isRefreshing
  {
    var w := Last(run);
    RunGood(run, |run| - 1);
    var p := |w.promises|;
    var w1, w2 := Sent(w, id), Asked(Sent(w, id), id, refresh);
    var w3, w4 := Replied(w2, p, t), Ran(Replied(w2, p, t), p, t);
    RefreshSteps(w, id, access, refresh, t);
    RunAppend(run, Send(id), w1);
    RunAppend(run + [w1], Unauthorized(id), w2);
    RunAppend(run + [w1] + [w2], RefreshReplies(p, Some(t)), w3);
    RunAppend(run + [w1] + [w2] + [w3], RunFinally(p), w4);
    RunAppend(run + [w1] + [w2] + [w3] + [w4], Wakes(id), Woken(w4, id, p, t));
    longer := run + [w1] + [w2] + [w3] + [w4] + [Woken(w4, id, p, t)];
  }

  ghost function Last(run: seq<World>): World
    requires |run| > 0
  {
    run[|run| - 1]
  }

  lemma RunAppend(run: seq<World>, a: Action, w': World)
    requires IsRun(run) && Next(Last(run), a, w')
    ensures IsRun(run + [w']) && Last(run + [w']) == w'
  {
    assert Steps(Last(run), w');
  }

  // The five worlds of the retry.
  ghost function Sent(w: World, id: nat): World {
    var token := w.client.store.accessToken;
    w.(now := w.now + 1, requests := w.requests[id := Request(InFlight, 1, false, token, token, 0, false, None)])
  }

  ghost function Asked(w: World, id: nat, refresh: Token): World
    requires id in w.requests
  {
    var p := |w.promises|;
    w.(now := w.now + 1,
       client := Client(true, Some(p), w.client.store),
       promises := w.promises + [Posting(refresh)],
       posted := w.posted + [refresh],
       requests := w.requests[id := w.requests[id].(
         phase := Awaiting(p), retried := true, seenAt := w.now, early := true)])
  }

  ghost function Replied(w: World, p: nat, t: Tokens): World
    requires p < |w.promises|
  {
    w.(now := w.now + 1,
       client := w.client.(store := Store(Some(t.access), Some(t.refresh))),
       promises := w.promises[p := Settled(Some(t.access))],
       issued := w.issued + {t.access, t.refresh})
  }

  ghost function Ran(w: World, p: nat, t: Tokens): World
    requires p < |w.promises|
  {
    w.(now := w.now + 1,
       client := w.client.(isRefreshing := false),
       promises := w.promises[p := Resolved(Some(t.access), w.now)])
  }

  ghost function Woken(w: World, id: nat, p: nat, t: Tokens): World
    requires id in w.requests
  {
    var r := w.requests[id];
    w.(now := w.now + 1, requests := w.requests[id :=
      r.(phase := InFlight, sends := r.sends + 1, last := Some(t.access), via := Some(p))])
  }

  lemma RefreshSteps(w: World, id: nat, access: Token, refresh: Token, t: Tokens)
    requires id !in w.requests && !w.client.isRefreshing
    requires w.client.store == Store(Some(access), Some(refresh)) && FreshTokens(w, t)
    ensures var p := |w.promises|;
      var w1, w2 := Sent(w, id), Asked(Sent(w, id), id, refresh);
      var w3, w4 := Replied(w2, p, t), Ran(Replied(w2, p, t), p, t);
      && Next(w, Send(id), w1) && Next(w1, Unauthorized(id), w2)
      && Next(w2, RefreshReplies(p, Some(t)), w3) && Next(w3, RunFinally(p), w4)
      && Next(w4, Wakes(id), Woken(w4, id, p, t))
  {
  }
}
