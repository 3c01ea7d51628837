/** The login, logout and registration calls of the web app
    (frontend/src/hooks/data/useAuth.js). Each `useAuth()` call has its own
    socket holder, distinct from the one of the user provider. */
module Auth {
  import opened Common
  import opened TokenStorage
  import opened ApiClient
  import opened PushChannel
  import opened Session

  const HomePath: string := "/"

  /** The body of a successful `POST /auth/login/`. */
  datatype LoginData = LoginData(access: string, refresh: string, user: User)

  /** The body of a successful `POST /auth/register/`: the fields of the
      created account, as the server echoes them. */
  datatype Registered = Registered(fields: seq<(string, string)>)

  /** `login`: `answer` is the outcome of `POST /auth/login/`; the client
      never refreshes the login call (`ApiClient.NoRefreshForLoginOrRetry`),
      so that outcome is the server's answer as it settles. On success the
      tokens are stored, the user is signed in, a regular user's socket is
      started and the app goes home; on failure both tokens are removed and
      the error is rethrown. */
  method Login(ctx: UserProvider, sockets: SocketHolder, answer: Result<LoginData, ApiError>, wsBase: string)
    returns (r: Result<(), ApiError>)
    requires sockets.Valid()
    modifies ctx`user, ctx`navigations, ctx.storage, sockets
    ensures sockets.Valid()
    ensures r.Ok? <==> answer.Ok?
    ensures answer.Ok? ==>
      ctx.storage.items == AfterSet(old(ctx.storage.items), answer.value.access, answer.value.refresh)
      && ctx.user == Some(answer.value.user)
      && ctx.navigations == old(ctx.navigations) + [HomePath]
      && (answer.value.user.userType == Regular ==> sockets.current.Some?)
      && (answer.value.user.userType != Regular ==> unchanged(sockets))
    ensures answer.Err? ==>
      r == Err(answer.error)
      && ctx.storage.items == AfterRemove(old(ctx.storage.items))
      && ctx.user == old(ctx.user) && ctx.navigations == old(ctx.navigations) && unchanged(sockets)
  {
    match answer {
      case Ok(data) =>
        SetToken(ctx.storage, data.access, data.refresh);
        ctx.user := Some(data.user);
        if data.user.userType == Regular {
          sockets.Start(ctx.storage, wsBase);
        }
        ctx.navigations := ctx.navigations + [HomePath];
        r := Ok(());
      case Err(e) =>
        RemoveToken(ctx.storage);
        r := Err(e);
    }
  }

  /** `logout` runs the same steps as the provider's `tokenExpired` handler:
      when a refresh token is stored it is posted to `/auth/logout/` through
      the shared client, then the tokens are removed and the user signed out.
      A rejected call is rethrown first, so the user stays and the tokens are
      as the client left them: kept after any failure but a 401, removed
      (with `tokenExpired` dispatched) when the 401's refresh is refused, and
      replaced when it is granted and the retry fails. The app goes to the
      login page in every case. The socket is not closed. */
  method Logout(ctx: UserProvider, client: Client, first: Reply, second: Reply, refreshReply: RefreshReply)
    returns (r: Result<(), ApiError>)
    requires client.storage == ctx.storage
    modifies ctx`user, ctx`navigations, ctx`logoutPosts, ctx.storage, client
    ensures ctx.navigations == old(ctx.navigations) + [LoginPath]
    ensures Truthy(Lookup(old(ctx.storage.items), RefreshKey)) ==>
      ctx.logoutPosts == old(ctx.logoutPosts) + [old(ctx.storage.items)[RefreshKey]]
      && |client.sent| > |old(client.sent)|
      && client.sent[|old(client.sent)|] == Authorize(LogoutRequest, old(ctx.storage.items))
    ensures !Truthy(Lookup(old(ctx.storage.items), RefreshKey)) ==> ctx.logoutPosts == old(ctx.logoutPosts) && unchanged(client)
    ensures r.Err? <==> Truthy(Lookup(old(ctx.storage.items), RefreshKey)) && !Resolves(old(ctx.storage.items), first, second, refreshReply)
    ensures r.Ok? ==> ctx.user == None && ctx.storage.items == AfterRemove(old(ctx.storage.items))
    ensures r.Err? ==> ctx.user == old(ctx.user)
    ensures r.Err? && first != Answered(401) ==>
      r == Err(Settle(first, Authorize(LogoutRequest, old(ctx.storage.items))).error)
      && ctx.storage.items == old(ctx.storage.items)
    ensures Truthy(Lookup(old(ctx.storage.items), RefreshKey)) && first == Answered(401)
            && !RefreshGrants(old(ctx.storage.items), refreshReply) ==>
      r == Err(RefreshError(old(ctx.storage.items), refreshReply))
      && ctx.storage.items == AfterRemove(old(ctx.storage.items))
      && client.expiredEvents == old(client.expiredEvents) + 1
    ensures r.Err? && first == Answered(401) && RefreshGrants(old(ctx.storage.items), refreshReply) ==>
      ctx.storage.items == AfterSet(old(ctx.storage.items), refreshReply.access.value, Stored(refreshReply.refresh))
  {
    r := ctx.HandleTokenExpiration(client, first, second, refreshReply);
  }

  /** `POST /auth/register/`. */
  const RegisterRequest: Request := Request("/auth/register/", None, false)

  /** `register`: sends the form through the shared client and gives back
      the account a successful answer carries (`body`), or the error. It
      signs nobody in; the client alone touches the tokens, and only on a
      401, which a stale stored access token draws. */
  method Register(client: Client, first: Reply, second: Reply, refreshReply: RefreshReply, body: Registered)
    returns (r: Result<Registered, ApiError>)
    modifies client, client.storage
    ensures |client.sent| > |old(client.sent)|
      && client.sent[|old(client.sent)|] == Authorize(RegisterRequest, old(client.storage.items))
    ensures r.Ok? <==> Resolves(old(client.storage.items), first, second, refreshReply)
    ensures r.Ok? ==> r.value == body
    ensures first != Answered(401) ==>
      client.storage.items == old(client.storage.items)
      && (r.Err? ==> r.error == Settle(first, Authorize(RegisterRequest, old(client.storage.items))).error)
    ensures first == Answered(401) && RefreshGrants(old(client.storage.items), refreshReply) ==>
      client.storage.items == AfterSet(old(client.storage.items), refreshReply.access.value, Stored(refreshReply.refresh))
    ensures first == Answered(401) && !RefreshGrants(old(client.storage.items), refreshReply) ==>
      r == Err(RefreshError(old(client.storage.items), refreshReply))
      && client.storage.items == AfterRemove(old(client.storage.items))
      && client.expiredEvents == old(client.expiredEvents) + 1
  {
    ghost var items := client.storage.items;
    var out := client.Send(RegisterRequest, first, second, refreshReply);
    assert RegisterRequest.url != LoginUrl by {
      assert RegisterRequest.url[6] == 'r' && LoginUrl[6] == 'l';
    }
    SendOutcome(RegisterRequest, items, first, second, refreshReply, out, client.storage.items);
    if out.Resolved? {
      r := Ok(body);
    } else {
      r := Err(out.error);
    }
  }
}
