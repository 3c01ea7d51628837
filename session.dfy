/** The signed-in user of the web app (frontend/src/contexts/UserContext.jsx):
    who is signed in, whether that is still being determined, how the session
    is restored from a stored token on start-up, and the forced logout that
    follows a failed token refresh. */
module Session {
  import opened Common
  import opened TokenStorage
  import opened ApiClient
  import opened PushChannel

  datatype BuildingRef = BuildingRef(id: nat, name: string)

  /** The user object of `/users/me/` and of the login answer; `buildings`
      may be absent from it. */
  datatype User = User(id: nat, username: string, userType: string, buildings: Option<seq<BuildingRef>>)

  const Regular: string := "regular"
  const Admin: string := "admin"
  const LoginPath: string := "/login"

  /** `hasRole(role)`: a user is signed in and has exactly that role. */
  function HasRole(user: Option<User>, role: string): (b: bool)
    ensures b ==> user.Some?
    ensures user.Some? ==> (b <==> user.value.userType == role)
  {
    match user
    case Some(u) => u.userType == role
    case None => false
  }

  /** No signed-in user has two roles. */
  lemma OneRoleAtATime(user: Option<User>, r1: string, r2: string)
    requires HasRole(user, r1) && HasRole(user, r2)
    ensures r1 == r2
  {
  }

  /** `GET /users/me/` as the provider issues it. */
  const MeRequest: Request := Request("/users/me/", None, false)

  /** `POST /auth/logout/` as the provider and `logout` issue it. */
  const LogoutRequest: Request := Request("/auth/logout/", None, false)

  /** The `UserProvider`: its state, the browser storage it reads, the socket
      holder of its own `useWebSocket()` call, the paths it navigated to and
      the refresh tokens it posted to `/auth/logout/`. */
  class UserProvider {
    const storage: Storage
    const sockets: SocketHolder
    var user: Option<User>
    var loading: bool
    var navigations: seq<string>
    var logoutPosts: seq<string>

    constructor (storage: Storage, sockets: SocketHolder)
      ensures this.storage == storage && this.sockets == sockets
      ensures user == None && loading && navigations == [] && logoutPosts == []
    {
      this.storage := storage;
      this.sockets := sockets;
      user := None;
      loading := true;
      navigations := [];
      logoutPosts := [];
    }

    /** `fetchUserInfo`, run once on mount. Without an access token it only
        ends the loading state. Otherwise it calls `GET /users/me/` through
        the shared client, which may refresh the tokens on the way (`first`,
        `second` and `refreshReply` are the server's answers, `body` the user
        a successful answer carries). When the call resolves that user is
        signed in (and a regular user's socket is started); when it is
        rejected the tokens are removed and no user is signed in. Loading
        ends in every case. */
    method FetchUserInfo(client: Client, first: Reply, second: Reply, refreshReply: RefreshReply,
                         body: User, wsBase: string)
      requires sockets.Valid() && client.storage == storage
      modifies this`user, this`loading, storage, sockets, client
      ensures !loading && sockets.Valid()
      ensures !Truthy(Lookup(old(storage.items), AccessKey)) ==>
        user == old(user) && storage.items == old(storage.items) && unchanged(sockets) && unchanged(client)
      ensures Truthy(Lookup(old(storage.items), AccessKey)) ==>
        |client.sent| > |old(client.sent)|
        && client.sent[|old(client.sent)|] == Authorize(MeRequest, old(storage.items))
      // signed in exactly when the call resolves, as the user it returned
      ensures Truthy(Lookup(old(storage.items), AccessKey)) ==>
        (user.Some? <==> Resolves(old(storage.items), first, second, refreshReply))
      ensures Truthy(Lookup(old(storage.items), AccessKey)) && user.Some? ==>
        user == Some(body)
        && (body.userType == Regular ==> sockets.current.Some?)
        && (body.userType != Regular ==> unchanged(sockets))
      // a valid access token: the stored tokens stay as they are
      ensures Truthy(Lookup(old(storage.items), AccessKey)) && first.Answered? && Succeeded(first.status) ==>
        storage.items == old(storage.items)
      // an expired access token and a valid refresh token: the new pair is
      // stored and the session is restored without a login
      ensures Truthy(Lookup(old(storage.items), AccessKey)) && first == Answered(401)
              && RefreshGrants(old(storage.items), refreshReply) && second.Answered? && Succeeded(second.status) ==>
        user == Some(body)
        && storage.items == AfterSet(old(storage.items), refreshReply.access.value, Stored(refreshReply.refresh))
      // otherwise both tokens are gone
      ensures Truthy(Lookup(old(storage.items), AccessKey)) && user.None? ==>
        storage.items == AfterRemove(old(storage.items)) && unchanged(sockets)
    {
      var accessToken := GetAccessToken(storage);
      if !Truthy(accessToken) {
        loading := false;
        return;
      }
      ghost var items := storage.items;
      var out := client.Send(MeRequest, first, second, refreshReply);
      assert MeRequest.url != LoginUrl by {
        assert MeRequest.url[1] == 'u' && LoginUrl[1] == 'a';
      }
      SendOutcome(MeRequest, items, first, second, refreshReply, out, storage.items);
      SignIn(out, body, wsBase);
      loading := false;
    }

    /** The rest of `fetchUserInfo` once the call has settled. */
    method SignIn(out: Outcome, body: User, wsBase: string)
      requires sockets.Valid()
      modifies this`user, storage, sockets
      ensures sockets.Valid()
      ensures out.Resolved? ==>
        user == Some(body) && storage.items == old(storage.items)
        && (body.userType == Regular ==> sockets.current.Some?)
        && (body.userType != Regular ==> unchanged(sockets))
      ensures out.Rejected? ==> user == None && storage.items == AfterRemove(old(storage.items)) && unchanged(sockets)
    {
      if out.Resolved? {
        user := Some(body);
        if body.userType == Regular {
          sockets.Start(storage, wsBase);
        }
      } else {
        RemoveToken(storage);
        user := None;
      }
    }

    /** The `tokenExpired` handler. When a refresh token is stored it posts
        it to `/auth/logout/` through the shared client (`first`, `second`
        and `refreshReply` are the server's answers), then removes the tokens
        and signs the user out. A rejected call is rethrown before that, so
        the user stays, and the tokens are left as the client left them: kept
        after any failure but a 401, removed when the 401's refresh is refused
        (the client has then dispatched `tokenExpired` again), replaced when
        it is granted and the retry fails. Either way the app navigates to
        the login page. */
    method HandleTokenExpiration(client: Client, first: Reply, second: Reply, refreshReply: RefreshReply)
      returns (r: Result<(), ApiError>)
      requires client.storage == storage
      modifies this`user, this`navigations, this`logoutPosts, storage, client
      ensures navigations == old(navigations) + [LoginPath]
      ensures Truthy(Lookup(old(storage.items), RefreshKey)) ==>
        logoutPosts == old(logoutPosts) + [old(storage.items)[RefreshKey]]
        && |client.sent| > |old(client.sent)|
        && client.sent[|old(client.sent)|] == Authorize(LogoutRequest, old(storage.items))
      ensures !Truthy(Lookup(old(storage.items), RefreshKey)) ==> logoutPosts == old(logoutPosts) && unchanged(client)
      ensures r.Err? <==> Truthy(Lookup(old(storage.items), RefreshKey)) && !Resolves(old(storage.items), first, second, refreshReply)
      ensures r.Ok? ==> user == None && storage.items == AfterRemove(old(storage.items))
      ensures r.Err? ==> user == old(user)
      ensures r.Err? && first != Answered(401) ==>
        r == Err(Settle(first, Authorize(LogoutRequest, old(storage.items))).error)
        && storage.items == old(storage.items)
      ensures Truthy(Lookup(old(storage.items), RefreshKey)) && first == Answered(401)
              && !RefreshGrants(old(storage.items), refreshReply) ==>
        r == Err(RefreshError(old(storage.items), refreshReply))
        && storage.items == AfterRemove(old(storage.items))
        && client.expiredEvents == old(client.expiredEvents) + 1
      ensures r.Err? && first == Answered(401) && RefreshGrants(old(storage.items), refreshReply) ==>
        storage.items == AfterSet(old(storage.items), refreshReply.access.value, Stored(refreshReply.refresh))
    {
      var refreshToken := GetRefreshToken(storage);
      if Truthy(refreshToken) {
        logoutPosts := logoutPosts + [refreshToken.value];
        ghost var items := storage.items;
        var out := client.Send(LogoutRequest, first, second, refreshReply);
        assert LogoutRequest.url != LoginUrl by {
          assert LogoutRequest.url[9] == 'o' && LoginUrl[9] == 'i';
        }
        SendOutcome(LogoutRequest, items, first, second, refreshReply, out, storage.items);
        if out.Rejected? {
          navigations := navigations + [LoginPath];
          return Err(out.error);
        }
      }
      RemoveToken(storage);
      user := None;
      navigations := navigations + [LoginPath];
      r := Ok(());
    }
  }

  /** The client dispatches `tokenExpired` only after removing both tokens,
      so the handler that answers it never reaches the logout endpoint: the
      forced logout is local. */
  lemma ForcedLogoutIsLocal(items: map<string, string>)
    ensures !Truthy(Lookup(AfterRemove(items), RefreshKey))
  {
  }
}
