// The web client's 401 interceptor: one shared token refresh, one retry per
// request.
module ApiClients {
  import opened Results

  type Token = nat

  // The part of the auth store the interceptors use.
  datatype Store = Store(accessToken: Option<Token>, refreshToken: Option<Token>)

  // Promises are numbered in the order tryRefresh makes them.
  datatype Client = Client(isRefreshing: bool, refreshPromise: Option<nat>, store: Store)

  datatype Tokens = Tokens(access: Token, refresh: Token)

  // What the response interceptor does with a 401 before its await. Awaiting
  // a promise that is null rejects as well.
  datatype Reaction =
    | RejectError
    | AwaitPromise(promise: nat)                        // a refresh is under way
    | StartRefresh(promise: nat, post: Option<Token>)   // tryRefresh: post this token, or give null at once

  // What it does after its await.
  datatype Continuation = Retry(authorization: Token) | GiveUp

  function AfterUnauthorized(c: Client, retried: bool, made: nat): (Client, Reaction) {
    if retried then (c, RejectError)
    else if !c.isRefreshing then
      (Client(true, Some(made), c.store), StartRefresh(made, c.store.refreshToken))
    else if c.refreshPromise.Some? then (c, AwaitPromise(c.refreshPromise.value))
    else (c, RejectError)
  }

  // The reply to a posted refresh, or None for an error or a malformed reply:
  // the value tryRefresh returns and the store it leaves.
  function AfterRefreshReply(c: Client, reply: Option<Tokens>): (Client, Option<Token>) {
    match reply
    case Some(t) => (c.(store := Store(Some(t.access), Some(t.refresh))), Some(t.access))
    case None => (c.(store := Store(None, None)), None)
  }

  function AfterFinally(c: Client): Client {
    c.(isRefreshing := false)
  }

  // A retry passes the request interceptor, which prefers the store's token.
  function AfterAwait(c: Client, newAccess: Option<Token>): Continuation {
    if newAccess.None? then GiveUp
    else if c.store.accessToken.Some? then Retry(c.store.accessToken.value)
    else Retry(newAccess.value)
  }

  class ApiClient {
    var isRefreshing: bool
    var refreshPromise: Option<nat>
    var store: Store

    constructor (store: Store)
      ensures State() == Client(false, None, store)
    {
      isRefreshing, refreshPromise, this.store := false, None, store;
    }

    function State(): Client
      reads this
    {
      Client(isRefreshing, refreshPromise, store)
    }

    method OnUnauthorized(retried: bool, made: nat) returns (reaction: Reaction)
      modifies this
      ensures (State(), reaction) == AfterUnauthorized(old(State()), retried, made)
      ensures reaction.StartRefresh? <==> !retried && !old(isRefreshing)
      ensures reaction.StartRefresh? ==>
        reaction == StartRefresh(made, store.refreshToken) && isRefreshing && refreshPromise == Some(made)
      ensures reaction.AwaitPromise? <==> !retried && old(isRefreshing) && old(refreshPromise).Some?
      ensures reaction.AwaitPromise? ==> State() == old(State()) && refreshPromise == Some(reaction.promise)
      ensures store == old(store)
    {
      if retried {
        return RejectError;
      }
      if !isRefreshing {
        isRefreshing := true;
        refreshPromise := Some(made);
        return StartRefresh(made, store.refreshToken);
      }
      if refreshPromise.None? {
        return RejectError;
      }
      return AwaitPromise(refreshPromise.value);
    }

    method OnRefreshReply(reply: Option<Tokens>) returns (newAccess: Option<Token>)
      modifies this
      ensures (State(), newAccess) == AfterRefreshReply(old(State()), reply)
      ensures newAccess == store.accessToken
      ensures reply.Some? ==> store == Store(Some(reply.value.access), Some(reply.value.refresh))
      ensures reply.None? ==> store == Store(None, None)
      ensures isRefreshing == old(isRefreshing) && refreshPromise == old(refreshPromise)
    {
      if reply.Some? {
        store := Store(Some(reply.value.access), Some(reply.value.refresh));
        return Some(reply.value.access);
      }
      store := Store(None, None);
      return None;
    }

    method Finally()
      modifies this
      ensures State() == AfterFinally(old(State()))
      ensures !isRefreshing && refreshPromise == old(refreshPromise) && store == old(store)
    {
      isRefreshing := false;
    }

    method Resume(newAccess: Option<Token>) returns (next: Continuation)
      ensures next == AfterAwait(State(), newAccess)
      ensures next.Retry? <==> newAccess.Some?
      ensures next.Retry? ==>
        Some(next.authorization) == if store.accessToken.Some? then store.accessToken else newAccess
    {
      if newAccess.None? {
        return GiveUp;
      }
      next := Retry(newAccess.value);
      if store.accessToken.Some? {
        next := Retry(store.accessToken.value);
      }
    }
  }
}
