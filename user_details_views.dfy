/** The user API (backend/requestAPI/api/views/user_details_views.py): who
    may call which action, the search over users, deleting users in bulk
    with everything that hangs off them, and replacing a user's buildings. */
module UserDetailsViews {
  import opened Common
  import opened Db
  import Text
  import Serializers

  // ---------------------------------------------------------------------
  // `get_permissions`

  /** The actions that need an administrator, as written: every other
      action, including `update`, `bulk_delete` and `assign_buildings`, is
      open to any signed-in user. */
  function PermissionAsWritten(action: string): (p: Permission)
    ensures p == IsAdminUser <==> action in {"list", "create", "destroy", "superusers", "users_not_assigned_to_building"}
    ensures p != IsAdminUser ==> p == IsAuthenticated
  {
    if action in {"list", "create", "destroy", "superusers", "users_not_assigned_to_building"} then IsAdminUser
    else IsAuthenticated
  }

  /** A regular user may delete any users and reassign anyone's buildings
      as written, although "only admins can crud, regular users can only
      read" is the stated rule. */
  lemma RegularUserMayDeleteAsWritten(u: User)
    requires !u.isStaff
    ensures Grants(PermissionAsWritten("bulk_delete"), Some(u))
    ensures Grants(PermissionAsWritten("assign_buildings"), Some(u))
    ensures !Grants(PermissionAsWritten("destroy"), Some(u))
  {
  }

  /** The actions that read: the signed-in user's own profile (which it may
      also edit) and a single user. */
  const ReadActions: set<string> := {"me", "retrieve"}

  /** The permission as the stated rule has it: only reads are open to any
      signed-in user; every action that writes, and the lists, need an
      administrator. */
  function Permission(action: string): (p: Permission)
    ensures p == IsAuthenticated <==> action in ReadActions
    ensures p != IsAuthenticated ==> p == IsAdminUser
  {
    if action in ReadActions then IsAuthenticated else IsAdminUser
  }

  /** The corrected rule keeps every restriction of the written one and
      closes the writes it left open. */
  lemma PermissionNoLooserThanWritten(action: string, requester: Option<User>)
    requires Grants(Permission(action), requester)
    ensures Grants(PermissionAsWritten(action), requester)
    ensures action !in ReadActions ==> requester.Some? && requester.value.isStaff
  {
  }

  // ---------------------------------------------------------------------
  // `get_queryset`

  /** `field__icontains=query`. */
  predicate IContains(field: string, query: string) {
    Text.Contains(Text.ToLower(field), Text.ToLower(query))
  }

  predicate MatchesQuery(u: User, query: string) {
    IContains(u.username, query) || IContains(u.firstName, query)
    || IContains(u.lastName, query) || IContains(u.email, query)
  }

  /** The users listed for a `query` parameter: those whose username, first
      name, last name or email contains it, ignoring case; every user when
      the parameter is absent or empty. The table order is kept. */
  function Search(users: seq<User>, query: Option<string>): (r: seq<User>)
    ensures !Serializers.Truthy(query) ==> r == users
    ensures Serializers.Truthy(query) ==> forall u :: u in r <==> u in users && MatchesQuery(u, query.value)
    ensures IsSubsequence(r, users)
  {
    if !Serializers.Truthy(query) then
      SubsequenceRefl(users);
      users
    else
      var p := (u: User) => MatchesQuery(u, query.value);
      FilterIsSubsequence(users, p);
      assert forall u :: u in users && p(u) ==> u in Filter(users, p) by {
        forall u | u in users && p(u) ensures u in Filter(users, p) {
          var i :| 0 <= i < |users| && users[i] == u;
        }
      }
      Filter(users, p)
  }

  /** The search ignores case: a query and its lower-case form list the
      same users. */
  lemma SearchIgnoresCase(users: seq<User>, query: string)
    requires query != ""
    ensures Search(users, Some(query)) == Search(users, Some(Text.ToLower(query)))
  {
    ToLowerIdempotent(query);
    FilterSamePredicate(users, (u: User) => MatchesQuery(u, query), (u: User) => MatchesQuery(u, Text.ToLower(query)));
  }

  lemma ToLowerIdempotent(s: string)
    ensures Text.ToLower(Text.ToLower(s)) == Text.ToLower(s)
  {
  }

  // ---------------------------------------------------------------------
  // `bulk_delete`

  /** The keys of some users. */
  function IdSet(us: seq<User>): (r: set<nat>)
    ensures forall x :: x in r <==> exists k :: 0 <= k < |us| && us[k].id == x
  {
    set k | 0 <= k < |us| :: us[k].id
  }

  lemma IdSetAppend(us: seq<User>, u: User)
    ensures IdSet(us + [u]) == IdSet(us) + {u.id}
  {
    var t := us + [u];
    assert forall k :: 0 <= k < |us| ==> t[k] == us[k];
    assert t[|us|] == u;
  }

  predicate Asked(u: User, ids: seq<nat>) {
    u.id in ids
  }

  /** `User.objects.filter(id__in=user_ids)`, in table order. */
  function Targets(users: seq<User>, ids: seq<nat>): (r: seq<User>)
    ensures forall u :: u in r <==> u in users && u.id in ids
  {
    var p := (u: User) => Asked(u, ids);
    assert forall u :: u in users && p(u) ==> u in Filter(users, p) by {
      forall u | u in users && p(u) ensures u in Filter(users, p) {
        var i :| 0 <= i < |users| && users[i] == u;
      }
    }
    Filter(users, p)
  }

  /** The keys of the users that are deleted: the ids asked for that name
      a user. */
  function Gone(users: seq<User>, ids: seq<nat>): (g: set<nat>)
    ensures forall x :: x in g <==> x in ids && x in UserIds(users)
  {
    var m := Targets(users, ids);
    assert forall x :: x in IdSet(m) <==> x in ids && x in UserIds(users) by {
      forall x ensures x in IdSet(m) <==> x in ids && x in UserIds(users) {
        if x in IdSet(m) {
          var k :| 0 <= k < |m| && m[k].id == x;
          assert m[k] in users;
          var j :| 0 <= j < |users| && users[j] == m[k];
          assert UserIds(users)[j] == x;
        }
        if x in ids && x in UserIds(users) {
          var j :| 0 <= j < |users| && UserIds(users)[j] == x;
          assert users[j] in m;
          var k :| 0 <= k < |m| && m[k] == users[j];
        }
      }
    }
    IdSet(m)
  }

  /** `BlacklistedToken.objects.get_or_create(token=token)` for every token
      of the users in `owners`. */
  function BlacklistOwned(tokens: seq<Token>, owners: set<nat>): (t: seq<Token>)
    ensures |t| == |tokens|
    ensures forall i :: 0 <= i < |tokens| ==>
      t[i] == (if tokens[i].user.Some? && tokens[i].user.value in owners then tokens[i].(blacklisted := true) else tokens[i])
  {
    seq(|tokens|, i requires 0 <= i < |tokens| =>
      if tokens[i].user.Some? && tokens[i].user.value in owners then tokens[i].(blacklisted := true) else tokens[i])
  }

  /** `user.buildings.clear()` for every user in `gone`. */
  function ClearMemberships(bs: seq<Building>, gone: set<nat>): (t: seq<Building>)
    ensures |t| == |bs|
    ensures forall i :: 0 <= i < |bs| ==> t[i] == bs[i].(users := bs[i].users - gone)
  {
    seq(|bs|, i requires 0 <= i < |bs| => bs[i].(users := bs[i].users - gone))
  }

  /** The first loop of `bulk_delete`: each user's tokens are blacklisted
      and its buildings cleared, one user at a time. */
  method ReleaseUsers(db: Database, targets: seq<User>)
    requires db.Valid()
    modifies db`tokens, db`buildings
    ensures db.tokens == BlacklistOwned(old(db.tokens), IdSet(targets))
    ensures db.buildings == ClearMemberships(old(db.buildings), IdSet(targets))
    ensures db.Valid()
  {
    var i := 0;
    assert IdSet(targets[..0]) == {};
    ClearNothing(db.buildings);
    BlacklistNothing(db.tokens);
    while i < |targets|
      invariant 0 <= i <= |targets|
      invariant db.tokens == BlacklistOwned(old(db.tokens), IdSet(targets[..i]))
      invariant db.buildings == ClearMemberships(old(db.buildings), IdSet(targets[..i]))
      invariant BuildingIds(db.buildings) == BuildingIds(old(db.buildings))
      invariant db.Valid()
    {
      var u := targets[i];
      assert targets[..i + 1] == targets[..i] + [u];
      IdSetAppend(targets[..i], u);
      BlacklistTwice(old(db.tokens), IdSet(targets[..i]), u.id);
      ClearTwice(old(db.buildings), IdSet(targets[..i]), u.id);
      db.tokens := BlacklistOwned(db.tokens, {u.id});
      db.buildings := ClearMemberships(db.buildings, {u.id});
      assert BuildingIds(db.buildings) == BuildingIds(old(db.buildings));
      i := i + 1;
    }
    assert targets[..i] == targets;
  }

  lemma ClearNothing(bs: seq<Building>)
    ensures ClearMemberships(bs, {}) == bs
  {
    forall i | 0 <= i < |bs| ensures ClearMemberships(bs, {})[i] == bs[i] {
      assert bs[i].users - {} == bs[i].users;
    }
  }

  lemma BlacklistNothing(tokens: seq<Token>)
    ensures BlacklistOwned(tokens, {}) == tokens
  {
  }

  lemma ClearTwice(bs: seq<Building>, a: set<nat>, x: nat)
    ensures ClearMemberships(ClearMemberships(bs, a), {x}) == ClearMemberships(bs, a + {x})
  {
    forall i | 0 <= i < |bs|
      ensures ClearMemberships(ClearMemberships(bs, a), {x})[i] == ClearMemberships(bs, a + {x})[i]
    {
      assert bs[i].users - a - {x} == bs[i].users - (a + {x});
    }
  }

  lemma BlacklistTwice(tokens: seq<Token>, a: set<nat>, x: nat)
    ensures BlacklistOwned(BlacklistOwned(tokens, a), {x}) == BlacklistOwned(tokens, a + {x})
  {
  }

  predicate UserKept(u: User, gone: set<nat>) {
    u.id !in gone
  }

  predicate RequestKept(r: ServiceRequest, gone: set<nat>) {
    r.createdBy !in gone
  }

  /** The requests the cascade deletes: those the deleted users created. */
  function DeletedRequests(rs: seq<ServiceRequest>, gone: set<nat>): set<nat> {
    set r | r in rs && r.createdBy in gone :: r.id
  }

  /** An update survives unless its author, the user it is associated to,
      or its request is deleted. */
  predicate UpdateKept(u: Update, gone: set<nat>, goneRequests: set<nat>) {
    u.createdBy !in gone && (u.associatedTo.None? || u.associatedTo.value !in gone)
    && u.serviceRequest !in goneRequests
  }

  /** `OutstandingToken.user` is `SET_NULL`: a deleted user's tokens stay,
      without an owner. */
  function Orphan(tokens: seq<Token>, gone: set<nat>): (t: seq<Token>)
    ensures |t| == |tokens|
    ensures forall i :: 0 <= i < |tokens| ==>
      t[i] == (if tokens[i].user.Some? && tokens[i].user.value in gone then tokens[i].(user := None) else tokens[i])
  {
    seq(|tokens|, i requires 0 <= i < |tokens| =>
      if tokens[i].user.Some? && tokens[i].user.value in gone then tokens[i].(user := None) else tokens[i])
  }

  /** The tables after `users.delete()` and its cascade, and the filters
      that give them. */
  function KeptUser(gone: set<nat>): User -> bool {
    (u: User) => UserKept(u, gone)
  }

  function KeptRequest(gone: set<nat>): ServiceRequest -> bool {
    (r: ServiceRequest) => RequestKept(r, gone)
  }

  function KeptUpdate(gone: set<nat>, goneRequests: set<nat>): Update -> bool {
    (u: Update) => UpdateKept(u, gone, goneRequests)
  }

  function UsersAfter(users: seq<User>, gone: set<nat>): seq<User> {
    Filter(users, KeptUser(gone))
  }

  function RequestsAfter(rs: seq<ServiceRequest>, gone: set<nat>): seq<ServiceRequest> {
    Filter(rs, KeptRequest(gone))
  }

  function UpdatesAfter(us: seq<Update>, rs: seq<ServiceRequest>, gone: set<nat>): seq<Update> {
    Filter(us, KeptUpdate(gone, DeletedRequests(rs, gone)))
  }

  /** `users.delete()`: the users go, and with them the requests they
      created and the updates they wrote, were notified of, or that belong
      to a deleted request; their tokens lose their owner. */
  method DeleteUsers(db: Database, gone: set<nat>)
    requires db.Valid()
    modifies db`users, db`requests, db`updates, db`tokens
    ensures db.users == UsersAfter(old(db.users), gone)
    ensures db.requests == RequestsAfter(old(db.requests), gone)
    ensures db.updates == UpdatesAfter(old(db.updates), old(db.requests), gone)
    ensures db.tokens == Orphan(old(db.tokens), gone)
    ensures db.Valid()
  {
    var users := UsersAfter(db.users, gone);
    var requests := RequestsAfter(db.requests, gone);
    var updates := UpdatesAfter(db.updates, db.requests, gone);
    var tokens := Orphan(db.tokens, gone);
    DeleteKeepsTablesValid(db.users, db.buildings, db.requests, db.updates, db.nextRequestId, db.nextUpdateId, gone);
    StoreTables(db, users, requests, updates, tokens);
  }

  /** Writes the tables the cascade leaves behind. */
  method StoreTables(db: Database, users: seq<User>, requests: seq<ServiceRequest>, updates: seq<Update>,
                     tokens: seq<Token>)
    requires TablesValid(users, db.buildings, requests, updates, db.nextRequestId, db.nextUpdateId)
    modifies db`users, db`requests, db`updates, db`tokens
    ensures db.users == users && db.requests == requests && db.updates == updates && db.tokens == tokens
    ensures db.Valid()
  {
    db.users, db.requests, db.updates, db.tokens := users, requests, updates, tokens;
  }

  /** The cascade leaves every key unique and below its sequence. */
  lemma DeleteKeepsTablesValid(users: seq<User>, bs: seq<Building>, rs: seq<ServiceRequest>, us: seq<Update>,
                               nextRequestId: nat, nextUpdateId: nat, gone: set<nat>)
    requires TablesValid(users, bs, rs, us, nextRequestId, nextUpdateId)
    ensures TablesValid(UsersAfter(users, gone), bs, RequestsAfter(rs, gone), UpdatesAfter(us, rs, gone),
                        nextRequestId, nextUpdateId)
  {
    UsersAfterValid(users, gone);
    RequestsAfterValid(rs, gone, nextRequestId);
    UpdatesAfterValid(us, rs, gone, nextUpdateId);
  }

  function UserKey(u: User): nat { u.id }
  function RequestKey(r: ServiceRequest): nat { r.id }
  function UpdateKey(u: Update): nat { u.id }

  lemma UsersAfterValid(users: seq<User>, gone: set<nat>)
    requires NoDuplicates(UserIds(users))
    ensures NoDuplicates(UserIds(UsersAfter(users, gone)))
  {
    DistinctKeys(users, UserIds(users), UserKey);
    FilterKeepsKeysDistinct(users, KeptUser(gone), UserKey);
    var f := UsersAfter(users, gone);
    DistinctIds(f, UserIds(f), UserKey);
  }

  lemma RequestsAfterValid(rs: seq<ServiceRequest>, gone: set<nat>, next: nat)
    requires NoDuplicates(RequestIds(rs)) && AllBelow(RequestIds(rs), next)
    ensures NoDuplicates(RequestIds(RequestsAfter(rs, gone)))
    ensures AllBelow(RequestIds(RequestsAfter(rs, gone)), next)
  {
    DistinctKeys(rs, RequestIds(rs), RequestKey);
    FilterKeepsKeysDistinct(rs, KeptRequest(gone), RequestKey);
    var f := RequestsAfter(rs, gone);
    DistinctIds(f, RequestIds(f), RequestKey);
  }

  lemma UpdatesAfterValid(us: seq<Update>, rs: seq<ServiceRequest>, gone: set<nat>, next: nat)
    requires NoDuplicates(UpdateIds(us)) && AllBelow(UpdateIds(us), next)
    ensures NoDuplicates(UpdateIds(UpdatesAfter(us, rs, gone)))
    ensures AllBelow(UpdateIds(UpdatesAfter(us, rs, gone)), next)
  {
    DistinctKeys(us, UpdateIds(us), UpdateKey);
    FilterKeepsKeysDistinct(us, KeptUpdate(gone, DeletedRequests(rs, gone)), UpdateKey);
    var f := UpdatesAfter(us, rs, gone);
    DistinctIds(f, UpdateIds(f), UpdateKey);
  }

  /** The tables hold nothing that refers to a deleted user or a deleted
      request. */
  lemma NothingLeftOfDeleted(users: seq<User>, rs: seq<ServiceRequest>, us: seq<Update>,
                             tokens: seq<Token>, bs: seq<Building>, gone: set<nat>)
    ensures forall u :: u in UsersAfter(users, gone) ==> u.id !in gone
    ensures forall r :: r in RequestsAfter(rs, gone) ==> r.createdBy !in gone
    ensures forall u :: u in UpdatesAfter(us, rs, gone) ==>
      u.createdBy !in gone && (u.associatedTo.Some? ==> u.associatedTo.value !in gone)
      && forall r :: r in rs && r.id == u.serviceRequest ==> r.createdBy !in gone
    ensures forall i :: 0 <= i < |tokens| ==> Orphan(tokens, gone)[i].user.Some? ==> Orphan(tokens, gone)[i].user.value !in gone
    ensures forall i :: 0 <= i < |bs| ==> ClearMemberships(bs, gone)[i].users !! gone
  {
    forall u | u in UpdatesAfter(us, rs, gone)
      ensures forall r :: r in rs && r.id == u.serviceRequest ==> r.createdBy !in gone
    {
      forall r | r in rs && r.id == u.serviceRequest
        ensures r.createdBy !in gone
      {
        assert r.createdBy in gone ==> r.id in DeletedRequests(rs, gone);
      }
    }
  }

  /** The number `users.delete()` reports, as the view prints it: Django
      counts every row the cascade deletes, so the requests and updates of
      the deleted users are added to the users. */
  function DeletedCountAsWritten(users: seq<User>, rs: seq<ServiceRequest>, us: seq<Update>, gone: set<nat>): nat {
    (|users| - |UsersAfter(users, gone)|) + (|rs| - |RequestsAfter(rs, gone)|)
    + (|us| - |UpdatesAfter(us, rs, gone)|)
  }

  /** The number of users deleted, as the message means it. */
  function DeletedCount(users: seq<User>, gone: set<nat>): (n: nat)
    ensures n == Count(users, GoneUser(gone))
  {
    FilterComplement(users, GoneUser(gone), KeptUser(gone));
    |users| - |UsersAfter(users, gone)|
  }

  /** The users deleted, as a filter. */
  function GoneUser(gone: set<nat>): User -> bool {
    (u: User) => u.id in gone
  }

  /** Deleting one user with one request that has one comment reports
      three users deleted as written. */
  lemma CascadeCountedAsWritten()
    ensures var u := User(1, "tenant", "t@example.com", "", "", "", false, false);
      var r := ServiceRequest(1, None, "open", "medium", 0, 0, 1, 1, 1, None);
      var c := Update(1, None, Some("leaking"), 0, 1, Some(1), 1, "message", false);
      DeletedCountAsWritten([u], [r], [c], {1}) == 3 && DeletedCount([u], {1}) == 1
  {
    var u := User(1, "tenant", "t@example.com", "", "", "", false, false);
    var r := ServiceRequest(1, None, "open", "medium", 0, 0, 1, 1, 1, None);
    var c := Update(1, None, Some("leaking"), 0, 1, Some(1), 1, "message", false);
    assert UsersAfter([u], {1}) == [];
    assert RequestsAfter([r], {1}) == [];
    assert UpdatesAfter([c], [r], {1}) == [];
  }

  /** With distinct keys each deleted user is one of the ids asked for, so
      the count is the number of distinct ids that name a user. */
  lemma DeletedCountIsDistinctIds(users: seq<User>, ids: seq<nat>)
    requires NoDuplicates(UserIds(users))
    ensures DeletedCount(users, Gone(users, ids)) == |Gone(users, ids)|
  {
    var gone := Gone(users, ids);
    var f := Filter(users, GoneUser(gone));
    DistinctKeys(users, UserIds(users), UserKey);
    FilterKeepsKeysDistinct(users, GoneUser(gone), UserKey);
    assert forall i, j :: 0 <= i < j < |f| ==> f[i].id != f[j].id by {
      forall i, j | 0 <= i < j < |f| ensures f[i].id != f[j].id {
        assert UserKey(f[i]) != UserKey(f[j]);
      }
    }
    GoneKeys(users, ids);
    IdSetCard(f);
  }

  /** The keys of the deleted users are exactly the ids that name a user. */
  lemma GoneKeys(users: seq<User>, ids: seq<nat>)
    ensures IdSet(Filter(users, GoneUser(Gone(users, ids)))) == Gone(users, ids)
  {
    var gone := Gone(users, ids);
    var f := Filter(users, GoneUser(gone));
    forall x ensures x in IdSet(f) <==> x in gone {
      if x in gone {
        var j :| 0 <= j < |UserIds(users)| && UserIds(users)[j] == x;
        assert GoneUser(gone)(users[j]);
        assert users[j] in f;
        var k :| 0 <= k < |f| && f[k] == users[j];
      }
    }
  }

  /** Users with distinct keys have as many keys as there are users. */
  lemma {:induction false} IdSetCard(us: seq<User>)
    requires forall i, j :: 0 <= i < j < |us| ==> us[i].id != us[j].id
    ensures |IdSet(us)| == |us|
  {
    if us != [] {
      var init := us[..|us| - 1];
      var last := us[|us| - 1];
      assert us == init + [last];
      IdSetAppend(init, last);
      IdSetCard(init);
      assert last.id !in IdSet(init);
    }
  }

  function DeletedMessage(n: nat): string {
    Text.NatToString(n) + " user(s) deleted successfully."
  }

  /** `bulk_delete`: with no ids a 400, with no user among them a 404;
      otherwise the users named are released and deleted, and the message
      gives how many. */
  method BulkDelete(db: Database, requester: Option<User>, ids: seq<nat>) returns (r: Result<string, Failure>)
    requires db.Valid()
    modifies db`users, db`buildings, db`requests, db`updates, db`tokens
    ensures !Grants(Permission("bulk_delete"), requester) ==> r == Err(Denied(requester))
    ensures Grants(Permission("bulk_delete"), requester) && ids == [] ==>
      r == Err(Refused(400, "No user IDs provided."))
    ensures Grants(Permission("bulk_delete"), requester) && ids != [] && Gone(old(db.users), ids) == {} ==>
      r == Err(Refused(404, "No users found for the provided IDs."))
    ensures r.Err? ==> (db.users == old(db.users) && db.buildings == old(db.buildings) && db.requests == old(db.requests)
                        && db.updates == old(db.updates) && db.tokens == old(db.tokens))
    ensures r.Ok? ==> var gone := Gone(old(db.users), ids);
      gone != {}
      && db.users == UsersAfter(old(db.users), gone)
      && db.requests == RequestsAfter(old(db.requests), gone)
      && db.updates == UpdatesAfter(old(db.updates), old(db.requests), gone)
      && db.tokens == Orphan(BlacklistOwned(old(db.tokens), gone), gone)
      && db.buildings == ClearMemberships(old(db.buildings), gone)
      && r.value == DeletedMessage(|gone|)
    ensures db.Valid()
  {
    if !Grants(Permission("bulk_delete"), requester) {
      return Err(Denied(requester));
    }
    if ids == [] {
      return Err(Refused(400, "No user IDs provided."));
    }
    var targets := Targets(db.users, ids);
    var gone := Gone(db.users, ids);
    assert gone == IdSet(targets);
    if targets == [] {
      return Err(Refused(404, "No users found for the provided IDs."));
    }
    assert targets[0] in db.users;
    assert targets[0].id in gone;
    ReleaseUsers(db, targets);
    var users0 := db.users;
    DeleteUsers(db, gone);
    DeletedCountIsDistinctIds(users0, ids);
    r := Ok(DeletedMessage(DeletedCount(users0, gone)));
  }

  // ---------------------------------------------------------------------
  // `assign_buildings`

  /** `assign_buildings`: the user is looked up first (404), then the ids
      are checked: none given is a 400, an id that names no building is a
      400; otherwise the user's buildings become exactly those named. */
  method AssignBuildings(db: Database, requester: Option<User>, userId: nat, buildingIds: seq<nat>)
    returns (r: Result<string, Failure>)
    requires db.Valid()
    modifies db`buildings
    ensures !Grants(Permission("assign_buildings"), requester) ==> r == Err(Denied(requester))
    ensures Grants(Permission("assign_buildings"), requester) && FindUser(db.users, userId).None? ==> r == Err(NotFound)
    ensures Grants(Permission("assign_buildings"), requester) && FindUser(db.users, userId).Some? ==>
      (buildingIds == [] ==> r == Err(Refused(400, "No building IDs provided.")))
      && (buildingIds != [] ==>
            (r.Ok? <==> forall x :: x in buildingIds ==> x in BuildingIds(db.buildings))
            && (r.Err? ==> r == Err(Refused(400, "One or more buildings do not exist."))))
    ensures r.Err? ==> db.buildings == old(db.buildings)
    ensures r.Ok? ==> r.value == "Buildings assigned to user successfully."
    ensures r.Ok? ==> db.buildings == WithUserBuildings(old(db.buildings), userId, Elements(buildingIds))
    ensures r.Ok? ==> forall i :: 0 <= i < |db.buildings| ==> (userId in db.buildings[i].users <==> db.buildings[i].id in buildingIds)
    ensures db.Valid()
  {
    if !Grants(Permission("assign_buildings"), requester) {
      return Err(Denied(requester));
    }
    if FindUser(db.users, userId).None? {
      return Err(NotFound);
    }
    if buildingIds == [] {
      return Err(Refused(400, "No building IDs provided."));
    }
    AllFoundIff(BuildingIds(db.buildings), buildingIds);
    if !AllFound(BuildingIds(db.buildings), buildingIds) {
      return Err(Refused(400, "One or more buildings do not exist."));
    }
    db.buildings := WithUserBuildings(db.buildings, userId, Elements(buildingIds));
    assert BuildingIds(db.buildings) == BuildingIds(old(db.buildings));
    r := Ok("Buildings assigned to user successfully.");
  }

  // ---------------------------------------------------------------------
  // `superusers` and `users_not_assigned_to_building`

  /** `superusers`: every superuser, for an administrator. */
  function Superusers(requester: Option<User>, users: seq<User>): (r: Result<seq<User>, Failure>)
    ensures r.Ok? <==> Grants(IsAdminUser, requester)
    ensures r.Err? ==> r.error == Denied(requester)
    ensures r.Ok? ==> forall u :: u in r.value <==> u in users && u.isSuperuser
  {
    if !Grants(Permission("superusers"), requester) then Err(Denied(requester))
    else
      var p := (u: User) => u.isSuperuser;
      assert forall u :: u in users && p(u) ==> u in Filter(users, p) by {
        forall u | u in users && p(u) ensures u in Filter(users, p) {
          var i :| 0 <= i < |users| && users[i] == u;
        }
      }
      Ok(Filter(users, p))
  }

  /** `users_not_assigned_to_building`: without a building id a 400, for
      an unknown building a 404; otherwise the users who are not staff and
      not in that building. `buildingId` is `None` when the parameter is
      absent or empty. */
  function UsersNotAssigned(requester: Option<User>, users: seq<User>, buildings: seq<Building>,
                            buildingId: Option<nat>): (r: Result<seq<User>, Failure>)
    ensures !Grants(IsAdminUser, requester) ==> r == Err(Denied(requester))
    ensures Grants(IsAdminUser, requester) && buildingId.None? ==> r == Err(Refused(400, "Building ID is required."))
    ensures Grants(IsAdminUser, requester) && buildingId.Some? && FindBuilding(buildings, buildingId.value).None? ==>
      r == Err(Refused(404, "Building not found."))
    ensures r.Ok? ==> buildingId.Some? && FindBuilding(buildings, buildingId.value).Some?
    ensures r.Ok? ==> forall u :: u in r.value <==>
      (u in users && !u.isStaff && u.id !in FindBuilding(buildings, buildingId.value).value.users)
  {
    if !Grants(Permission("users_not_assigned_to_building"), requester) then Err(Denied(requester))
    else if buildingId.None? then Err(Refused(400, "Building ID is required."))
    else match FindBuilding(buildings, buildingId.value)
      case None => Err(Refused(404, "Building not found."))
      case Some(b) =>
        var p := (u: User) => !u.isStaff && u.id !in b.users;
        assert forall u :: u in users && p(u) ==> u in Filter(users, p) by {
          forall u | u in users && p(u) ensures u in Filter(users, p) {
            var i :| 0 <= i < |users| && users[i] == u;
          }
        }
        Ok(Filter(users, p))
  }
}
