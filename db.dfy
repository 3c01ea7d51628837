/** The server's data (backend/requestAPI/models.py and Django's `User`):
    the rows of each table, as the views read and write them, and the
    WebSocket pushes the server sends (backend/requestAPI/utils.py).
    Times are whole seconds since the epoch, in UTC (the server's time zone). */
module Db {
  import opened Common

  const Day: int := 86400

  /** `django.contrib.auth.models.User`; `password` stands for the stored
      hash. */
  datatype User = User(id: nat, username: string, email: string, firstName: string, lastName: string,
                       password: string, isStaff: bool, isSuperuser: bool)

  /** `Building`; latitude and longitude in millionths of a degree (a
      `DecimalField` with six decimal places); `users` is the many-to-many
      relation with `User`. */
  datatype Building = Building(id: nat, name: Option<string>, addressLine1: string, addressLine2: Option<string>,
                               city: string, postcode: string, country: string,
                               latitude: int, longitude: int, users: set<nat>)

  datatype ServiceRequest = ServiceRequest(id: nat, customerNotes: Option<string>, status: string, priority: string,
                                           createdDate: int, updatedDate: int, createdBy: nat, serviceType: nat,
                                           building: nat, sla: Option<int>)

  /** `Update`: a comment or an event on a request; the ones associated to a
      user are that user's notifications. */
  datatype Update = Update(id: nat, title: Option<string>, message: Option<string>, createdDate: int,
                           createdBy: nat, associatedTo: Option<nat>, serviceRequest: nat, kind: string,
                           isRead: bool)

  /** A refresh token the token blacklist app has issued. */
  datatype Token = Token(id: nat, user: Option<nat>, blacklisted: bool)

  /** The `notification` object of a push. */
  datatype Payload = Payload(id: nat, title: Option<string>, message: Option<string>, serviceRequestId: nat, kind: string)

  /** A message sent to the channel group of one user. */
  datatype Push = Push(userId: nat, notification: Payload)

  /** A response with an error status: one the view writes itself, the 404
      of a lookup that finds no row, or the server error of an exception the
      view does not catch. */
  datatype Failure = Refused(status: int, message: string) | NotFound | ServerError

  /** The permission classes of Django REST framework the views use. */
  datatype Permission = AllowAny | IsAuthenticated | IsAdminUser

  /** Whether a permission class lets the requester (`None` for an
      anonymous one) through; `IsAdminUser` checks `is_staff`. */
  predicate Grants(p: Permission, requester: Option<User>) {
    match p
    case AllowAny => true
    case IsAuthenticated => requester.Some?
    case IsAdminUser => requester.Some? && requester.value.isStaff
  }

  /** DRF's refusal of a request a permission class does not let through:
      401 without credentials, 403 with them. */
  function Denied(requester: Option<User>): Failure {
    if requester.None? then Refused(401, "Authentication credentials were not provided.")
    else Refused(403, "You do not have permission to perform this action.")
  }

  function UserIds(s: seq<User>): (ids: seq<nat>)
    ensures |ids| == |s| && forall i :: 0 <= i < |s| ==> ids[i] == s[i].id
  {
    seq(|s|, i requires 0 <= i < |s| => s[i].id)
  }

  function BuildingIds(s: seq<Building>): (ids: seq<nat>)
    ensures |ids| == |s| && forall i :: 0 <= i < |s| ==> ids[i] == s[i].id
  {
    seq(|s|, i requires 0 <= i < |s| => s[i].id)
  }

  function RequestIds(s: seq<ServiceRequest>): (ids: seq<nat>)
    ensures |ids| == |s| && forall i :: 0 <= i < |s| ==> ids[i] == s[i].id
  {
    seq(|s|, i requires 0 <= i < |s| => s[i].id)
  }

  function UpdateIds(s: seq<Update>): (ids: seq<nat>)
    ensures |ids| == |s| && forall i :: 0 <= i < |s| ==> ids[i] == s[i].id
  {
    seq(|s|, i requires 0 <= i < |s| => s[i].id)
  }

  /** The row with primary key `id` (`objects.get(pk=id)`), if any. */
  function FindUser(s: seq<User>, id: nat): (r: Option<User>)
    ensures r.Some? ==> r.value in s && r.value.id == id
    ensures r.None? <==> forall i :: 0 <= i < |s| ==> s[i].id != id
  {
    if s == [] then None else if s[0].id == id then Some(s[0]) else FindUser(s[1..], id)
  }

  function FindBuilding(s: seq<Building>, id: nat): (r: Option<Building>)
    ensures r.Some? ==> r.value in s && r.value.id == id
    ensures r.None? <==> forall i :: 0 <= i < |s| ==> s[i].id != id
  {
    if s == [] then None else if s[0].id == id then Some(s[0]) else FindBuilding(s[1..], id)
  }

  function FindRequest(s: seq<ServiceRequest>, id: nat): (r: Option<ServiceRequest>)
    ensures r.Some? ==> r.value in s && r.value.id == id
    ensures r.None? <==> forall i :: 0 <= i < |s| ==> s[i].id != id
  {
    if s == [] then None else if s[0].id == id then Some(s[0]) else FindRequest(s[1..], id)
  }

  function FindUpdate(s: seq<Update>, id: nat): (r: Option<Update>)
    ensures r.Some? ==> r.value in s && r.value.id == id
    ensures r.None? <==> forall i :: 0 <= i < |s| ==> s[i].id != id
  {
    if s == [] then None else if s[0].id == id then Some(s[0]) else FindUpdate(s[1..], id)
  }

  function ReplaceUser(s: seq<User>, u: User): (t: seq<User>)
    ensures |t| == |s|
    ensures forall i :: 0 <= i < |s| ==> t[i] == (if s[i].id == u.id then u else s[i])
  {
    seq(|s|, i requires 0 <= i < |s| => if s[i].id == u.id then u else s[i])
  }

  /** The table with the row whose key is `r.id` written over by `r`. */
  function ReplaceRequest(s: seq<ServiceRequest>, r: ServiceRequest): (t: seq<ServiceRequest>)
    ensures |t| == |s|
    ensures forall i :: 0 <= i < |s| ==> t[i] == (if s[i].id == r.id then r else s[i])
  {
    seq(|s|, i requires 0 <= i < |s| => if s[i].id == r.id then r else s[i])
  }

  function ReplaceUpdate(s: seq<Update>, u: Update): (t: seq<Update>)
    ensures |t| == |s|
    ensures forall i :: 0 <= i < |s| ==> t[i] == (if s[i].id == u.id then u else s[i])
  {
    seq(|s|, i requires 0 <= i < |s| => if s[i].id == u.id then u else s[i])
  }

  /** `user.buildings.set(buildings)`: afterwards the user belongs to exactly
      the buildings whose id is in `ids`; no other membership changes. */
  function WithUserBuildings(bs: seq<Building>, userId: nat, ids: set<nat>): (t: seq<Building>)
    ensures |t| == |bs|
    ensures forall i :: 0 <= i < |bs| ==>
      t[i] == bs[i].(users := if bs[i].id in ids then bs[i].users + {userId} else bs[i].users - {userId})
    ensures forall i :: 0 <= i < |bs| ==> (userId in t[i].users <==> bs[i].id in ids)
    ensures forall i, v :: 0 <= i < |bs| && v != userId ==> (v in t[i].users <==> v in bs[i].users)
  {
    seq(|bs|, i requires 0 <= i < |bs| =>
      bs[i].(users := if bs[i].id in ids then bs[i].users + {userId} else bs[i].users - {userId}))
  }

  /** `building.users.set(users)` for the building with key `id`. */
  function WithBuildingUsers(bs: seq<Building>, id: nat, members: set<nat>): (t: seq<Building>)
    ensures |t| == |bs|
    ensures forall i :: 0 <= i < |bs| ==> t[i] == (if bs[i].id == id then bs[i].(users := members) else bs[i])
  {
    seq(|bs|, i requires 0 <= i < |bs| => if bs[i].id == id then bs[i].(users := members) else bs[i])
  }

  // ---------------------------------------------------------------------
  // `Model.objects.filter(id__in=ids).count()` against the ids asked for

  /** The stored keys that are among `ids`, in table order
      (`filter(id__in=ids)`). */
  function Matched(existing: seq<nat>, ids: seq<nat>): (m: seq<nat>)
    ensures forall i :: 0 <= i < |m| ==> m[i] in ids && m[i] in existing
    ensures forall x :: x in existing && x in ids ==> x in m
    ensures NoDuplicates(existing) ==> NoDuplicates(m)
  {
    var p := (x: nat) => x in ids;
    FilterIsSubsequence(existing, p);
    if NoDuplicates(existing) then
      SubsequenceDistinct(Filter(existing, p), existing);
      Filter(existing, p)
    else Filter(existing, p)
  }

  /** The number of stored rows whose key is among `ids`. */
  function MatchedCount(existing: seq<nat>, ids: seq<nat>): nat {
    |Matched(existing, ids)|
  }

  /** The check `filter(id__in=ids).count() != len(ids)` of
      backend/requestAPI/api/views/user_details_views.py:77 and
      backend/requestAPI/api/views/building_views.py:60, as written: it
      counts the ids asked for with their repetitions, the rows found
      without. */
  predicate AllFoundAsWritten(existing: seq<nat>, ids: seq<nat>) {
    MatchedCount(existing, ids) == |ids|
  }

  /** The check as evidently intended: every id asked for names a row,
      compared against the distinct ids (`len(set(ids))`). */
  predicate AllFound(existing: seq<nat>, ids: seq<nat>) {
    MatchedCount(existing, ids) == |Elements(ids)|
  }

  /** An id asked for twice is refused as written, although its row
      exists. */
  lemma DuplicateIdRejectedAsWritten(existing: seq<nat>, x: nat)
    requires NoDuplicates(existing) && x in existing
    ensures forall y :: y in [x, x] ==> y in existing
    ensures !AllFoundAsWritten(existing, [x, x])
    ensures AllFound(existing, [x, x])
  {
    AllFoundIff(existing, [x, x]);
    assert Elements([x, x]) == {x};
  }

  /** With distinct stored keys, the corrected check holds exactly when
      every id asked for exists. */
  lemma AllFoundIff(existing: seq<nat>, ids: seq<nat>)
    requires NoDuplicates(existing)
    ensures AllFound(existing, ids) <==> forall x :: x in ids ==> x in existing
  {
    var m := Matched(existing, ids);
    DistinctElements(m);
    var found := Elements(m);
    var asked := Elements(ids);
    assert found <= asked;
    assert |found| == MatchedCount(existing, ids);
    if forall x :: x in ids ==> x in existing {
      assert asked <= found;
      assert found == asked;
    }
    if AllFound(existing, ids) {
      SubsetSameSize(found, asked);
      assert forall x :: x in m ==> x in existing;
    }
  }

  /** The set of the elements of `s`. */
  function Elements(s: seq<nat>): (r: set<nat>)
    ensures forall x :: x in r <==> x in s
  {
    if s == [] then {} else {s[0]} + Elements(s[1..])
  }

  /** A sequence without repetitions has as many elements as its set. */
  lemma {:induction false} DistinctElements(s: seq<nat>)
    requires NoDuplicates(s)
    ensures |Elements(s)| == |s|
  {
    if s != [] {
      var t := s[1..];
      assert NoDuplicates(t) by {
        assert forall i :: 0 <= i < |t| ==> t[i] == s[i + 1];
      }
      DistinctElements(t);
      assert forall i :: 0 <= i < |t| ==> t[i] != s[0];
      assert s[0] !in Elements(t);
    }
  }

  lemma {:induction false} SubsetCard(a: set<nat>, b: set<nat>)
    requires a <= b
    ensures |a| <= |b|
    decreases |a|
  {
    if a != {} {
      var x :| x in a;
      SubsetCard(a - {x}, b - {x});
    }
  }

  lemma SubsetSameSize(a: set<nat>, b: set<nat>)
    requires a <= b && |a| == |b|
    ensures a == b
  {
    if a != b {
      var y :| y in b && y !in a;
      SubsetCard(a, b - {y});
    }
  }

  // ---------------------------------------------------------------------
  // The database as the views change it

  /** Writing a user over its own row keeps every key of the table. */
  lemma ReplaceUserKeepsKeys(s: seq<User>, u: User)
    ensures UserIds(ReplaceUser(s, u)) == UserIds(s)
  {
  }

  /** Moving a user in or out of buildings keeps every building's key. */
  lemma UserBuildingsKeepKeys(bs: seq<Building>, userId: nat, ids: set<nat>)
    ensures BuildingIds(WithUserBuildings(bs, userId, ids)) == BuildingIds(bs)
  {
  }

  /** Keys are unique in every table, and the sequences are ahead of
      every key they have handed out. */
  predicate TablesValid(users: seq<User>, buildings: seq<Building>, requests: seq<ServiceRequest>,
                        updates: seq<Update>, nextRequestId: nat, nextUpdateId: nat)
  {
    NoDuplicates(UserIds(users)) && NoDuplicates(BuildingIds(buildings))
    && NoDuplicates(RequestIds(requests)) && NoDuplicates(UpdateIds(updates))
    && AllBelow(RequestIds(requests), nextRequestId) && AllBelow(UpdateIds(updates), nextUpdateId)
  }

  /** Every key is below `next`. */
  predicate AllBelow(ids: seq<nat>, next: nat) {
    forall i :: 0 <= i < |ids| ==> ids[i] < next
  }

  class Database {
    var users: seq<User>
    var buildings: seq<Building>
    var requests: seq<ServiceRequest>
    var updates: seq<Update>
    var tokens: seq<Token>
    /** Every push sent by `send_notification_to_user`, in order. */
    var pushes: seq<Push>
    /** The next keys the database's sequences hand out. */
    var nextRequestId: nat
    var nextUpdateId: nat

    constructor ()
      ensures users == [] && buildings == [] && requests == [] && updates == [] && tokens == []
      ensures pushes == [] && nextRequestId == 1 && nextUpdateId == 1
      ensures Valid()
    {
      users, buildings, requests, updates, tokens := [], [], [], [], [];
      pushes := [];
      nextRequestId, nextUpdateId := 1, 1;
    }

    /** The tables as they stand satisfy `TablesValid`. */
    ghost predicate Valid()
      reads this
    {
      TablesValid(users, buildings, requests, updates, nextRequestId, nextUpdateId)
    }
  }

  /** `send_notification_to_user`: one push to the group of `userId`. */
  method SendNotification(db: Database, userId: nat, notification: Payload)
    modifies db`pushes
    ensures db.pushes == old(db.pushes) + [Push(userId, notification)]
  {
    db.pushes := db.pushes + [Push(userId, notification)];
  }

  /** `Update.objects.create(...)`: the row gets the next key. */
  method CreateUpdate(db: Database, u: Update) returns (stored: Update)
    requires db.Valid()
    modifies db`updates, db`nextUpdateId
    ensures stored == u.(id := old(db.nextUpdateId))
    ensures db.updates == old(db.updates) + [stored]
    ensures db.nextUpdateId == old(db.nextUpdateId) + 1
    ensures db.Valid()
  {
    stored := u.(id := db.nextUpdateId);
    assert forall i :: 0 <= i < |db.updates| ==> UpdateIds(db.updates)[i] != stored.id;
    db.updates := db.updates + [stored];
    db.nextUpdateId := db.nextUpdateId + 1;
    assert UpdateIds(db.updates) == UpdateIds(old(db.updates)) + [stored.id];
  }
}
