/** The shared HTTP client of the web app (frontend/src/api/apiConfig.js):
    every request carries the stored access token, and a request the server
    answers with 401 is retried once after exchanging the refresh token for a
    new access token. When that exchange fails the tokens are dropped and a
    `tokenExpired` event tells the session layer to log the user out. */
module ApiClient {
  import opened Common
  import opened TokenStorage

  const LoginUrl: string := "/auth/login/"

  /** A request as it passes through the interceptors: its URL relative to the
      API base, its Authorization header, and the `_retry` mark. */
  datatype Request = Request(url: string, authorization: Option<string>, retry: bool)

  /** The REST API's answer to one request; `NoResponse` is a failure of the
      network (no response object on the error). */
  datatype Reply = Answered(status: int) | NoResponse

  /** The answer to `POST /auth/refresh_token/`: its status and the `access`
      and `refresh` fields of its body. */
  datatype RefreshReply =
    | RefreshAnswered(status: int, access: Option<string>, refresh: Option<string>)
    | RefreshNoResponse

  /** What a rejected call carries. */
  datatype ApiError =
    | HttpError(status: int, config: Request)  // the server's error response, unchanged
    | NetworkError(config: Request)
    | NoRefreshToken                           // 'No refresh token available'
    | RefreshFailed(reply: RefreshReply)       // the refresh exchange itself failed
    | NoAccessInRefresh                        // 'Failed to refresh token'

  datatype Outcome = Resolved(status: int, config: Request) | Rejected(error: ApiError)

  /** axios resolves a response with a 2xx status and rejects every other. */
  predicate Succeeded(status: int) {
    200 <= status < 300
  }

  function Bearer(token: string): string {
    "Bearer " + token
  }

  /** The request interceptor: the stored access token, when there is a
      non-empty one, becomes the Authorization header; otherwise the request
      goes out as it came. */
  function Authorize(req: Request, items: map<string, string>): (r: Request)
    ensures r.url == req.url && r.retry == req.retry
    ensures Truthy(Lookup(items, AccessKey)) ==> r.authorization == Some(Bearer(items[AccessKey]))
    ensures !Truthy(Lookup(items, AccessKey)) ==> r == req
  {
    var token := Lookup(items, AccessKey);
    if Truthy(token) then req.(authorization := Some(Bearer(token.value))) else req
  }

  /** The response interceptor's test: a 401 answer to a request that has not
      been retried yet and is not the login call starts a refresh. */
  predicate ShouldRefresh(reply: Reply, config: Request) {
    reply.Answered? && reply.status == 401 && !config.retry && config.url != LoginUrl
  }

  /** The outcome of one request when no refresh takes place. */
  function Settle(reply: Reply, config: Request): (o: Outcome)
    ensures o.Resolved? <==> reply.Answered? && Succeeded(reply.status)
    ensures o.Resolved? ==> o == Resolved(reply.status, config)
    ensures reply.Answered? && !Succeeded(reply.status) ==> o == Rejected(HttpError(reply.status, config))
    ensures reply.NoResponse? ==> o == Rejected(NetworkError(config))
  {
    match reply
    case Answered(status) =>
      if Succeeded(status) then Resolved(status, config) else Rejected(HttpError(status, config))
    case NoResponse => Rejected(NetworkError(config))
  }

  /** The refresh exchange yields a new access token: there is a refresh token
      to send, and the server answers 2xx with a non-empty `access`. */
  predicate RefreshGrants(items: map<string, string>, reply: RefreshReply) {
    Truthy(Lookup(items, RefreshKey))
    && reply.RefreshAnswered? && Succeeded(reply.status) && Truthy(reply.access)
  }

  /** Why a refresh exchange that does not grant a token fails: no refresh
      token to send, an answer without `access`, or the exchange's own
      error. */
  function RefreshError(items: map<string, string>, reply: RefreshReply): (e: ApiError)
    requires !RefreshGrants(items, reply)
    ensures e.NoRefreshToken? <==> !Truthy(Lookup(items, RefreshKey))
    ensures e.RefreshFailed? ==> e.reply == reply && !(reply.RefreshAnswered? && Succeeded(reply.status))
    ensures !e.HttpError? && !e.NetworkError?
  {
    if !Truthy(Lookup(items, RefreshKey)) then NoRefreshToken
    else if reply.RefreshAnswered? && Succeeded(reply.status) then NoAccessInRefresh
    else RefreshFailed(reply)
  }

  /** The refresh tokens posted by one exchange: the stored one, if any. */
  function RefreshPosted(items: map<string, string>): (posts: seq<string>)
    ensures |posts| <= 1
    ensures posts != [] <==> Truthy(Lookup(items, RefreshKey))
  {
    if Truthy(Lookup(items, RefreshKey)) then [items[RefreshKey]] else []
  }

  /** A 401 on a retried request or on the login call is never refreshed. */
  lemma NoRefreshForLoginOrRetry(reply: Reply, config: Request)
    requires config.url == LoginUrl || config.retry
    ensures !ShouldRefresh(reply, config)
  {
  }

  /** Only a 401 answer can start a refresh. */
  lemma RefreshOnlyOn401(reply: Reply, config: Request)
    requires ShouldRefresh(reply, config)
    ensures Settle(reply, config) == Rejected(HttpError(401, config))
  {
  }

  /** A call resolves: at once on a 2xx answer, or, on a 401, after a
      granted refresh when the retry is answered 2xx. */
  predicate Resolves(items: map<string, string>, first: Reply, second: Reply, refreshReply: RefreshReply) {
    (first.Answered? && Succeeded(first.status))
    || (first == Answered(401) && RefreshGrants(items, refreshReply) && second.Answered? && Succeeded(second.status))
  }

  /** The three cases of `Client.Send` read off for a request to any URL but
      the login call that has not been retried yet, in terms of the server's
      answers: `out` and `after` are the outcome and the storage Send leaves.
      The call resolves exactly when `Resolves`; only a 401 touches the
      tokens, replacing them when the refresh is granted and removing them,
      with the refresh error as the outcome, when it is refused. */
  lemma SendOutcome(req: Request, items: map<string, string>, first: Reply, second: Reply,
                    refreshReply: RefreshReply, out: Outcome, after: map<string, string>)
    requires req.url != LoginUrl && !req.retry
    requires var cfg := Authorize(req, items);
      (!ShouldRefresh(first, cfg) ==> out == Settle(first, cfg) && after == items)
      && (ShouldRefresh(first, cfg) && RefreshGrants(items, refreshReply) ==>
            out == Settle(second, Request(req.url, Some(Bearer(refreshReply.access.value)), true))
            && after == AfterSet(items, refreshReply.access.value, Stored(refreshReply.refresh)))
      && (ShouldRefresh(first, cfg) && !RefreshGrants(items, refreshReply) ==>
            out == Rejected(RefreshError(items, refreshReply)) && after == AfterRemove(items))
    ensures ShouldRefresh(first, Authorize(req, items)) <==> first == Answered(401)
    ensures out.Resolved? <==> Resolves(items, first, second, refreshReply)
    ensures first != Answered(401) ==> out == Settle(first, Authorize(req, items)) && after == items
    ensures first == Answered(401) && RefreshGrants(items, refreshReply) ==>
      after == AfterSet(items, refreshReply.access.value, Stored(refreshReply.refresh))
    ensures first == Answered(401) && !RefreshGrants(items, refreshReply) ==>
      out == Rejected(RefreshError(items, refreshReply)) && after == AfterRemove(items)
    // removing the tokens afterwards leaves them removed, whatever Send did
    ensures AfterRemove(after) == AfterRemove(items)
  {
    if RefreshGrants(items, refreshReply) {
      LastWriteWins(items, refreshReply.access.value, Stored(refreshReply.refresh), "", "");
    }
    RemoveIdempotent(items);
  }

  class Client {
    const storage: Storage
    /** The requests that reached the REST API, as they were sent. */
    var sent: seq<Request>
    /** The refresh tokens posted to `/auth/refresh_token/`. */
    var refreshPosts: seq<string>
    /** The `tokenExpired` events dispatched on the window. */
    var expiredEvents: nat

    constructor (storage: Storage)
      ensures this.storage == storage
      ensures sent == [] && refreshPosts == [] && expiredEvents == 0
    {
      this.storage := storage;
      sent := [];
      refreshPosts := [];
      expiredEvents := 0;
    }

    /** `refreshAccessToken`: with no refresh token it fails at once and leaves
        the storage alone; otherwise it posts the refresh token, stores the new
        pair on success, and removes both tokens on any failure. */
    method RefreshAccessToken(reply: RefreshReply) returns (result: Result<string, ApiError>)
      modifies this`refreshPosts, storage
      ensures !Truthy(Lookup(old(storage.items), RefreshKey)) ==>
        result == Err(NoRefreshToken) && storage.items == old(storage.items) && refreshPosts == old(refreshPosts)
      ensures Truthy(Lookup(old(storage.items), RefreshKey)) ==>
        refreshPosts == old(refreshPosts) + [old(storage.items)[RefreshKey]]
      ensures result.Ok? <==> RefreshGrants(old(storage.items), reply)
      ensures result.Ok? ==>
        result.value == reply.access.value
        && storage.items == AfterSet(old(storage.items), result.value, Stored(reply.refresh))
      ensures result.Err? ==> result.error == RefreshError(old(storage.items), reply)
      ensures result.Err? && Truthy(Lookup(old(storage.items), RefreshKey)) ==>
        storage.items == AfterRemove(old(storage.items))
    {
      var refreshToken := GetRefreshToken(storage);
      if !Truthy(refreshToken) {
        return Err(NoRefreshToken);
      }
      refreshPosts := refreshPosts + [refreshToken.value];
      if reply.RefreshAnswered? && Succeeded(reply.status) {
        if Truthy(reply.access) {
          SetToken(storage, reply.access.value, Stored(reply.refresh));
          return Ok(reply.access.value);
        }
        RemoveToken(storage);
        return Err(NoAccessInRefresh);
      }
      RemoveToken(storage);
      return Err(RefreshFailed(reply));
    }

    /** One call through the client. `first` is the server's answer to the
        request and `second` its answer to the retry, if there is one;
        `refreshReply` is the answer to the refresh exchange. */
    method Send(req: Request, first: Reply, second: Reply, refreshReply: RefreshReply) returns (out: Outcome)
      modifies this, storage
      decreases if req.retry then 0 else 1
      // the request always goes out once, with the interceptor's header
      ensures |sent| > |old(sent)|
      ensures sent[..|old(sent)| + 1] == old(sent) + [Authorize(req, old(storage.items))]
      // no refresh: the answer, or the error, is passed on unchanged
      ensures !ShouldRefresh(first, Authorize(req, old(storage.items))) ==>
        out == Settle(first, Authorize(req, old(storage.items)))
        && sent == old(sent) + [Authorize(req, old(storage.items))]
        && storage.items == old(storage.items)
        && refreshPosts == old(refreshPosts) && expiredEvents == old(expiredEvents)
      // refresh granted: one retry with the new token, whose answer is final
      ensures ShouldRefresh(first, Authorize(req, old(storage.items))) && RefreshGrants(old(storage.items), refreshReply) ==>
        var retried := Request(req.url, Some(Bearer(refreshReply.access.value)), true);
        sent == old(sent) + [Authorize(req, old(storage.items)), retried]
        && out == Settle(second, retried)
        && storage.items == AfterSet(old(storage.items), refreshReply.access.value, Stored(refreshReply.refresh))
        && refreshPosts == old(refreshPosts) + [old(storage.items)[RefreshKey]]
        && expiredEvents == old(expiredEvents)
      // refresh refused: no retry, both tokens gone, one tokenExpired event,
      // and the call fails with the refresh error rather than the 401
      ensures ShouldRefresh(first, Authorize(req, old(storage.items))) && !RefreshGrants(old(storage.items), refreshReply) ==>
        sent == old(sent) + [Authorize(req, old(storage.items))]
        && out == Rejected(RefreshError(old(storage.items), refreshReply))
        && storage.items == AfterRemove(old(storage.items))
        && refreshPosts == old(refreshPosts) + RefreshPosted(old(storage.items))
        && expiredEvents == old(expiredEvents) + 1
      // and so, in every case:
      ensures |sent| <= |old(sent)| + 2
      ensures |refreshPosts| <= |old(refreshPosts)| + 1
      ensures expiredEvents <= old(expiredEvents) + 1
      ensures req.url == LoginUrl ==> refreshPosts == old(refreshPosts) && expiredEvents == old(expiredEvents)
    {
      var config := Authorize(req, storage.items);
      sent := sent + [config];
      if !ShouldRefresh(first, config) {
        return Settle(first, config);
      }
      var marked := config.(retry := true);
      var token := RefreshAccessToken(refreshReply);
      if token.Ok? {
        var retried := marked.(authorization := Some(Bearer(token.value)));
        out := Send(retried, second, second, refreshReply);
        assert Authorize(retried, storage.items) == retried;
      } else {
        RemoveToken(storage);
        expiredEvents := expiredEvents + 1;
        out := Rejected(token.error);
      }
    }
  }
}
