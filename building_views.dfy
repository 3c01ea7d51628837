/** The building API (backend/requestAPI/api/views/building_views.py): who
    may call which action, which buildings a user sees, and replacing the
    users of a building. */
module BuildingViews {
  import opened Common
  import opened Db
  import Serializers

  /** `get_permissions`: listing, reading and searching need a signed-in
      user, the list shown on the registration form is open to anyone, and
      every other action needs staff. */
  function PermissionFor(action: string): (p: Permission)
    ensures p == AllowAny <==> action == "registration_list"
    ensures p == IsAuthenticated <==> action in {"list", "retrieve", "search"}
    ensures p == IsAdminUser <==> action !in {"list", "retrieve", "search", "registration_list"}
  {
    if action in {"list", "retrieve", "search"} then IsAuthenticated
    else if action == "registration_list" then AllowAny
    else IsAdminUser
  }

  /** Only staff may change a building, its users, or read who is in it. */
  lemma WritesNeedStaff(action: string, requester: Option<User>)
    requires action in {"create", "update", "partial_update", "destroy", "update_users", "users", "available_users"}
    requires Grants(PermissionFor(action), requester)
    ensures requester.Some? && requester.value.isStaff
  {
  }

  predicate Member(b: Building, userId: nat) {
    userId in b.users
  }

  /** `get_queryset`: a superuser or a staff member sees every building,
      anyone else the buildings that list them. The table order is kept
      (the list's own `-name` ordering is applied after). */
  function Queryset(user: User, bs: seq<Building>): (r: seq<Building>)
    ensures user.isSuperuser || user.isStaff ==> r == bs
    ensures forall b :: b in r <==> b in bs && (user.isSuperuser || user.isStaff || user.id in b.users)
  {
    if user.isSuperuser || user.isStaff then bs
    else
      var p := (b: Building) => Member(b, user.id);
      assert forall b :: b in bs && p(b) ==> b in Filter(bs, p) by {
        forall b | b in bs && p(b) ensures b in Filter(bs, p) {
          var i :| 0 <= i < |bs| && bs[i] == b;
        }
      }
      Filter(bs, p)
  }

  /** A regular user never sees a building that does not list them, and
      sees every one that does. */
  lemma RegularUserSeesOwnBuildings(user: User, bs: seq<Building>, b: Building)
    requires !user.isSuperuser && !user.isStaff && b in bs
    ensures b in Queryset(user, bs) <==> user.id in b.users
  {
  }

  /** `get_object()` for the detail actions: the building with that key
      among those the requester sees, or a 404. */
  function GetObject(user: User, bs: seq<Building>, id: nat): (r: Result<Building, Failure>)
    ensures r.Ok? ==> r.value in bs && r.value.id == id && (user.isSuperuser || user.isStaff || user.id in r.value.users)
    ensures r.Err? ==> r.error == NotFound
    ensures (user.isSuperuser || user.isStaff) ==> (r.Ok? <==> FindBuilding(bs, id).Some?)
    // a building with that key that the requester sees is always found
    ensures (exists b :: b in bs && b.id == id && (user.isSuperuser || user.isStaff || user.id in b.users)) ==> r.Ok?
  {
    match FindBuilding(Queryset(user, bs), id)
    case None => Err(NotFound)
    case Some(b) => Ok(b)
  }

  /** A superuser without the staff flag is an administrator to the web
      app (its `user_type` is "admin") and sees every building, but is
      refused every action behind `IsAdminUser`, which checks the staff
      flag only. */
  lemma SuperuserWithoutStaffRefused(u: User, bs: seq<Building>)
    requires u.isSuperuser && !u.isStaff
    ensures Serializers.UserType(u) == "admin"
    ensures Queryset(u, bs) == bs
    ensures !Grants(PermissionFor("update_users"), Some(u))
    ensures Denied(Some(u)) == Refused(403, "You do not have permission to perform this action.")
  {
  }

  /** `update_users`: the building is looked up among those the requester
      sees (404), an id that names no user is a 400, and otherwise the
      building's users become exactly those named; an empty list empties
      the building. */
  method UpdateUsers(db: Database, requester: Option<User>, buildingId: nat, userIds: seq<nat>)
    returns (r: Result<string, Failure>)
    requires db.Valid()
    modifies db`buildings
    ensures !Grants(PermissionFor("update_users"), requester) ==> r == Err(Denied(requester))
    ensures Grants(PermissionFor("update_users"), requester) && FindBuilding(old(db.buildings), buildingId).None? ==>
      r == Err(NotFound)
    ensures Grants(PermissionFor("update_users"), requester) && FindBuilding(old(db.buildings), buildingId).Some? ==>
      ((r.Ok? <==> forall x :: x in userIds ==> x in UserIds(db.users))
       && (r.Err? ==> r == Err(Refused(400, "One or more user IDs are invalid."))))
    ensures r.Err? ==> db.buildings == old(db.buildings)
    ensures r.Ok? ==> r.value == "Building users updated successfully."
    ensures r.Ok? ==> db.buildings == WithBuildingUsers(old(db.buildings), buildingId, Elements(userIds))
    ensures r.Ok? ==> forall i :: 0 <= i < |db.buildings| && db.buildings[i].id == buildingId ==>
      forall x :: x in db.buildings[i].users <==> x in userIds
    ensures db.Valid()
  {
    if !Grants(PermissionFor("update_users"), requester) {
      return Err(Denied(requester));
    }
    var found := GetObject(requester.value, db.buildings, buildingId);
    if found.Err? {
      return Err(found.error);
    }
    AllFoundIff(UserIds(db.users), userIds);
    if !AllFound(UserIds(db.users), userIds) {
      return Err(Refused(400, "One or more user IDs are invalid."));
    }
    var after := WithBuildingUsers(db.buildings, buildingId, Elements(userIds));
    UsersSetExactly(db.buildings, buildingId, userIds);
    db.buildings := after;
    r := Ok("Building users updated successfully.");
  }

  /** Setting a building's users keeps every building's key, and the
      building then holds exactly the users named. */
  lemma UsersSetExactly(bs: seq<Building>, id: nat, userIds: seq<nat>)
    ensures BuildingIds(WithBuildingUsers(bs, id, Elements(userIds))) == BuildingIds(bs)
    ensures var t := WithBuildingUsers(bs, id, Elements(userIds));
      forall i :: 0 <= i < |t| && t[i].id == id ==> forall x :: x in t[i].users <==> x in userIds
  {
    var t := WithBuildingUsers(bs, id, Elements(userIds));
    assert forall i :: 0 <= i < |t| ==> t[i].id == bs[i].id;
  }

  /** `available_users`: the users who are not superusers and not in the
      building, for staff, after the building is found. */
  function AvailableUsers(requester: Option<User>, bs: seq<Building>, users: seq<User>, buildingId: nat)
    : (r: Result<seq<User>, Failure>)
    ensures !Grants(IsAdminUser, requester) ==> r == Err(Denied(requester))
    ensures Grants(IsAdminUser, requester) ==> (r.Err? <==> FindBuilding(bs, buildingId).None?)
    ensures r.Err? && Grants(IsAdminUser, requester) ==> r.error == NotFound
    ensures r.Ok? ==> FindBuilding(bs, buildingId).Some?
    ensures r.Ok? ==> forall u :: u in r.value <==>
      (u in users && !u.isSuperuser && u.id !in FindBuilding(bs, buildingId).value.users)
  {
    if !Grants(PermissionFor("available_users"), requester) then Err(Denied(requester))
    else match GetObject(requester.value, bs, buildingId)
      case Err(e) => Err(e)
      case Ok(b) =>
        assert forall u :: u in users && Offerable(b)(u) ==> u in Filter(users, Offerable(b)) by {
          forall u | u in users && Offerable(b)(u) ensures u in Filter(users, Offerable(b)) {
            var i :| 0 <= i < |users| && users[i] == u;
          }
        }
        Ok(Filter(users, Offerable(b)))
  }

  /** The users who may still be added to building `b`. */
  function Offerable(b: Building): User -> bool {
    (u: User) => !u.isSuperuser && u.id !in b.users
  }

  /** The users `available_users` offers are the ones `update_users` may
      add: once the building keeps its users and gains every user offered,
      nobody is left to offer. */
  lemma AddingAvailableLeavesNone(requester: User, bs: seq<Building>, users: seq<User>, buildingId: nat,
                                  b: Building, avail: seq<User>, added: set<nat>)
    requires requester.isStaff
    requires FindBuilding(bs, buildingId) == Some(b)
    requires AvailableUsers(Some(requester), bs, users, buildingId) == Ok(avail)
    requires b.users <= added && forall u :: u in avail ==> u.id in added
    ensures AvailableUsers(Some(requester), WithBuildingUsers(bs, buildingId, added), users, buildingId) == Ok([])
  {
    var after := WithBuildingUsers(bs, buildingId, added);
    FindAfterSet(bs, buildingId, added, b);
    OfferedCovered(requester, bs, users, buildingId, b, avail, added);
    NothingLeft(requester, after, users, buildingId, added);
  }

  lemma OfferedCovered(requester: User, bs: seq<Building>, users: seq<User>, buildingId: nat,
                       b: Building, avail: seq<User>, added: set<nat>)
    requires FindBuilding(bs, buildingId) == Some(b)
    requires AvailableUsers(Some(requester), bs, users, buildingId) == Ok(avail)
    requires b.users <= added && forall u :: u in avail ==> u.id in added
    ensures forall u :: u in users && !u.isSuperuser ==> u.id in added
  {
    forall u | u in users && !u.isSuperuser ensures u.id in added {
      if u.id !in b.users {
        assert u in avail;
      }
    }
  }

  lemma NothingLeft(requester: User, bs: seq<Building>, users: seq<User>, buildingId: nat, added: set<nat>)
    requires requester.isStaff
    requires FindBuilding(bs, buildingId).Some? && FindBuilding(bs, buildingId).value.users == added
    requires forall u :: u in users && !u.isSuperuser ==> u.id in added
    ensures AvailableUsers(Some(requester), bs, users, buildingId) == Ok([])
  {
    var b := FindBuilding(bs, buildingId).value;
    assert forall i :: 0 <= i < |users| ==> !Offerable(b)(users[i]);
    assert Count(users, Offerable(b)) == 0;
  }

  /** After the building's users are set, looking the building up finds it
      with its new users. */
  lemma FindAfterSet(bs: seq<Building>, id: nat, members: set<nat>, b: Building)
    requires FindBuilding(bs, id) == Some(b)
    ensures FindBuilding(WithBuildingUsers(bs, id, members), id) == Some(b.(users := members))
  {
    if bs[0].id != id {
      assert WithBuildingUsers(bs, id, members)[1..] == WithBuildingUsers(bs[1..], id, members);
      FindAfterSet(bs[1..], id, members, b);
    }
  }
}
