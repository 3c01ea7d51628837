/** The service request API
    (backend/requestAPI/api/views/service_request_views.py): which requests
    a user sees and in what order, who may read one, and the updates that
    creating a request and changing its status add. */
module RequestViews {
  import opened Common
  import opened Db
  import Models
  import Text
  import UpdateViews

  predicate HasSla(r: ServiceRequest) {
    r.sla.Some?
  }

  function SlaKey(r: ServiceRequest): int {
    if r.sla.Some? then r.sla.value else 0
  }

  function CreatedKey(r: ServiceRequest): int {
    r.createdDate
  }

  /** Ascending SLA dates, with the requests that have none after all the
      others. */
  predicate SlaOrdered(r: seq<ServiceRequest>) {
    forall i, j :: 0 <= i < j < |r| && r[j].sla.Some? ==> r[i].sla.Some? && r[i].sla.value <= r[j].sla.value
  }

  /** `order_by('service_level_agreement_date')` on PostgreSQL: ascending,
      requests without a date last. */
  function BySla(rs: seq<ServiceRequest>): (r: seq<ServiceRequest>)
    ensures multiset(r) == multiset(rs)
    ensures SlaOrdered(r)
  {
    var undatedP := (x: ServiceRequest) => !HasSla(x);
    var dated := Filter(rs, HasSla);
    var undated := Filter(rs, undatedP);
    var sorted := SortAsc(dated, SlaKey);
    AllDated(dated, sorted);
    DatedThenUndated(sorted, undated);
    FilterSplit(rs, HasSla, undatedP);
    sorted + undated
  }

  lemma AllDated(dated: seq<ServiceRequest>, sorted: seq<ServiceRequest>)
    requires forall i :: 0 <= i < |dated| ==> HasSla(dated[i])
    requires multiset(sorted) == multiset(dated)
    ensures forall i :: 0 <= i < |sorted| ==> HasSla(sorted[i])
  {
    forall i | 0 <= i < |sorted|
      ensures HasSla(sorted[i])
    {
      assert sorted[i] in multiset(sorted);
      assert sorted[i] in dated;
    }
  }

  /** Dated requests in ascending order followed by undated ones are in SLA
      order. */
  lemma DatedThenUndated(sorted: seq<ServiceRequest>, undated: seq<ServiceRequest>)
    requires forall i :: 0 <= i < |sorted| ==> HasSla(sorted[i])
    requires SortedBy(sorted, SlaKey)
    requires forall i :: 0 <= i < |undated| ==> !HasSla(undated[i])
    ensures SlaOrdered(sorted + undated)
  {
    var r := sorted + undated;
    forall i, j | 0 <= i < j < |r| && r[j].sla.Some?
      ensures r[i].sla.Some? && r[i].sla.value <= r[j].sla.value
    {
      if j < |sorted| {
        assert r[i] == sorted[i] && r[j] == sorted[j];
        assert SlaKey(sorted[i]) <= SlaKey(sorted[j]);
      }
    }
  }

  predicate CreatedBy(r: ServiceRequest, userId: nat) {
    r.createdBy == userId
  }

  /** Newest first. */
  predicate NewestFirst(r: seq<ServiceRequest>) {
    forall i, j :: 0 <= i < j < |r| ==> r[i].createdDate >= r[j].createdDate
  }

  /** `filter(created_by=user).order_by('-created_date')`. */
  function Own(userId: nat, rs: seq<ServiceRequest>): (r: seq<ServiceRequest>)
    ensures forall x :: x in r <==> x in rs && x.createdBy == userId
    ensures NewestFirst(r)
  {
    var mine := Filter(rs, (x: ServiceRequest) => CreatedBy(x, userId));
    var r := SortDesc(mine, CreatedKey);
    SameMembers(r, mine);
    assert forall x :: x in rs && x.createdBy == userId ==> x in mine by {
      forall x | x in rs && x.createdBy == userId ensures x in mine {
        var i :| 0 <= i < |rs| && rs[i] == x;
      }
    }
    r
  }

  /** `filter(id=...)` on a newest-first list: the requests with that key,
      still newest first. */
  function WithId(own: seq<ServiceRequest>, id: nat): (r: seq<ServiceRequest>)
    requires NewestFirst(own)
    ensures forall x :: x in r <==> x in own && x.id == id
    ensures NewestFirst(r)
  {
    var r := Filter(own, (x: ServiceRequest) => x.id == id);
    FilterIsSubsequence(own, (x: ServiceRequest) => x.id == id);
    SortedSubsequence(r, own);
    assert forall x :: x in own && x.id == id ==> x in r by {
      forall x | x in own && x.id == id ensures x in r {
        var i :| 0 <= i < |own| && own[i] == x;
      }
    }
    r
  }

  /** `get_queryset`: every request for a superuser, by SLA date; the
      user's own, newest first, for anyone else, narrowed to one key when
      the `id` parameter is given. */
  function Queryset(user: User, rs: seq<ServiceRequest>, idParam: Option<nat>): (r: seq<ServiceRequest>)
    ensures forall x :: x in r <==> (x in rs && (user.isSuperuser || x.createdBy == user.id)
                                     && (!user.isSuperuser && idParam.Some? ==> x.id == idParam.value))
  {
    if user.isSuperuser then
      var sorted := BySla(rs);
      SameMembers(sorted, rs);
      sorted
    else if idParam.Some? then WithId(Own(user.id, rs), idParam.value)
    else Own(user.id, rs)
  }

  /** A superuser sees every request once, ordered by SLA date with the
      undated ones last. */
  lemma SuperuserSeesAllBySla(user: User, rs: seq<ServiceRequest>, idParam: Option<nat>)
    requires user.isSuperuser
    ensures var r := Queryset(user, rs, idParam);
      multiset(r) == multiset(rs) && SlaOrdered(r)
  {
  }

  /** Anyone else sees exactly their own requests (with the key asked
      for, when one is), newest first. */
  lemma OthersSeeOwnNewestFirst(user: User, rs: seq<ServiceRequest>, idParam: Option<nat>)
    requires !user.isSuperuser
    ensures var r := Queryset(user, rs, idParam);
      (forall x :: x in r <==> (x in rs && x.createdBy == user.id && (idParam.Some? ==> x.id == idParam.value)))
      && NewestFirst(r)
  {
  }

  /** Dropping elements keeps a newest-first order. */
  lemma {:induction false} SortedSubsequence(s: seq<ServiceRequest>, t: seq<ServiceRequest>)
    requires IsSubsequence(s, t)
    requires NewestFirst(t)
    ensures NewestFirst(s)
    decreases |t|
  {
    if s != [] && t != [] {
      if s[0] == t[0] {
        SortedSubsequence(s[1..], t[1..]);
        SubsequenceMembers(s[1..], t[1..]);
        assert forall k :: 1 <= k < |s| ==> s[k] in t[1..];
        assert forall k :: 1 <= k < |s| ==> s[k] == s[1..][k - 1];
      } else {
        SortedSubsequence(s, t[1..]);
      }
    }
  }

  const RetrieveForbidden: string := "You do not have permission to access this service request."

  /** `retrieve`: the request looked up in the user's query set, then the
      creator-or-superuser check. */
  function Retrieve(user: User, rs: seq<ServiceRequest>, id: nat): (r: Result<ServiceRequest, Failure>)
    ensures r.Ok? ==> r.value in rs && r.value.id == id
  {
    var found := FindRequest(Queryset(user, rs, None), id);
    if found.None? then Err(NotFound)
    else if !(user.id == found.value.createdBy || user.isSuperuser) then Err(Refused(403, RetrieveForbidden))
    else Ok(found.value)
  }

  /** A request can be read exactly when it exists and the user created it
      or is a superuser; otherwise the answer is 404: the 403 of the
      explicit check is never given, as the query set has already left out
      other users' requests. */
  lemma RetrieveRule(user: User, rs: seq<ServiceRequest>, id: nat)
    ensures Retrieve(user, rs, id).Ok? <==>
      exists x :: x in rs && x.id == id && (user.isSuperuser || x.createdBy == user.id)
    ensures Retrieve(user, rs, id).Err? ==> Retrieve(user, rs, id) == Err(NotFound)
  {
    var q := Queryset(user, rs, None);
    var found := FindRequest(q, id);
    if exists x :: x in rs && x.id == id && (user.isSuperuser || x.createdBy == user.id) {
      var x :| x in rs && x.id == id && (user.isSuperuser || x.createdBy == user.id);
      assert x in q;
      var i :| 0 <= i < |q| && q[i] == x;
      assert found.Some?;
    }
    if found.Some? {
      assert found.value in q;
    }
  }

  // ---------------------------------------------------------------------
  // Creating a request and changing its status

  function CreatedMessage(id: nat): string {
    "Request " + Text.NatToString(id) + " created"
  }

  /** `perform_create`: the request is saved for the requester, then one
      "Request Created" event is added, associated to nobody. */
  method CreateRequest(db: Database, user: User, serviceType: nat, building: nat, notes: Option<string>,
                       status: Option<string>, priority: Option<string>, now: int)
    returns (stored: ServiceRequest, event: Update)
    requires db.Valid()
    modifies db`requests, db`nextRequestId, db`updates, db`nextUpdateId
    ensures stored == Models.Saved(Models.NewRequest(user.id, serviceType, building, notes, status, priority)
                                     .(id := old(db.nextRequestId)), now, true)
    ensures db.requests == old(db.requests) + [stored]
    ensures event == Update(old(db.nextUpdateId), Some("Request Created"), Some(CreatedMessage(stored.id)), now,
                            user.id, None, stored.id, "event", false)
    ensures db.updates == old(db.updates) + [event]
    // the new request has gained exactly one event
    ensures Count(db.updates, EventFor(stored.id)) == Count(old(db.updates), EventFor(stored.id)) + 1
    ensures db.Valid()
  {
    stored := Models.InsertRequest(db, Models.NewRequest(user.id, serviceType, building, notes, status, priority), now);
    event := CreateUpdate(db, Update(0, Some("Request Created"), Some(CreatedMessage(stored.id)), now,
                                     user.id, None, stored.id, "event", false));
    CountConcat(old(db.updates), [event], EventFor(stored.id));
  }

  /** An event about request `id`. */
  function EventFor(id: nat): Update -> bool {
    (u: Update) => u.kind == "event" && u.serviceRequest == id
  }

  function StatusTitle(id: nat): string {
    "Request " + Text.NatToString(id) + " Status Update"
  }

  function StatusMessage(id: nat, lbl: string): string {
    "Request " + Text.NatToString(id) + " has been moved to " + lbl
  }

  /** The event a status change adds, associated to the creator. */
  function StatusEvent(key: nat, user: User, request: ServiceRequest, lbl: string, now: int): Update {
    Update(key, Some(StatusTitle(request.id)), Some(StatusMessage(request.id, lbl)), now, user.id,
           Some(request.createdBy), request.id, "event", false)
  }

  /** The comment a status change adds when it carries one. */
  function StatusComment(key: nat, user: User, request: ServiceRequest, comment: string, now: int): Update {
    Update(key, Some(UpdateViews.CommentTitle(request.id)), Some(comment), now, user.id,
           Some(request.createdBy), request.id, "message", false)
  }

  /** DRF's message for a value outside a field's choices. */
  function NotAChoice(value: string): string {
    "\"" + value + "\" is not a valid choice."
  }

  /** The updates a valid status change adds, from the key `key` on: the
      event, then the comment when a non-empty one was sent. */
  function StatusChangeUpdates(key: nat, user: User, saved: ServiceRequest, lbl: string, comment: Option<string>,
                               now: int): (us: seq<Update>)
    ensures 1 <= |us| <= 2 && us[0] == StatusEvent(key, user, saved, lbl, now)
    ensures |us| == 2 <==> UpdateViews.Truthy(comment)
    ensures forall i :: 0 <= i < |us| ==> us[i].associatedTo == Some(saved.createdBy) && us[i].serviceRequest == saved.id
  {
    [StatusEvent(key, user, saved, lbl, now)]
    + (if UpdateViews.Truthy(comment) then [StatusComment(key + 1, user, saved, comment.value, now)] else [])
  }

  /** What follows the save of a valid status change: the event, its push
      to the creator, and the comment. */
  method RecordStatusChange(db: Database, user: User, saved: ServiceRequest, lbl: string, comment: Option<string>,
                            now: int)
    requires db.Valid()
    modifies db`updates, db`nextUpdateId, db`pushes
    ensures db.updates == old(db.updates) + StatusChangeUpdates(old(db.nextUpdateId), user, saved, lbl, comment, now)
    ensures db.pushes == old(db.pushes)
      + [Push(saved.createdBy, UpdateViews.PayloadOf(StatusEvent(old(db.nextUpdateId), user, saved, lbl, now)))]
    ensures db.Valid()
  {
    var event := CreateUpdate(db, StatusEvent(0, user, saved, lbl, now));
    SendNotification(db, saved.createdBy, UpdateViews.PayloadOf(event));
    if UpdateViews.Truthy(comment) {
      var note := CreateUpdate(db, StatusComment(0, user, saved, comment.value, now));
    }
  }

  /** `update_status`: the request must be in the user's query set; a
      status outside the choices is refused by the serializer; otherwise
      the request is saved, and then a missing status is refused, while a
      valid one adds an event associated to the creator, pushes it to them,
      and adds the comment when a non-empty one was sent. Fields other than
      `status` are left out. */
  method UpdateStatus(db: Database, user: User, id: nat, status: Option<string>, comment: Option<string>, now: int)
    returns (r: Result<ServiceRequest, Failure>)
    requires db.Valid()
    modifies db`requests, db`updates, db`nextUpdateId, db`pushes
    ensures var found := FindRequest(Queryset(user, old(db.requests), None), id);
      found.None? ==> r == Err(NotFound) && unchanged(db)
    ensures var found := FindRequest(Queryset(user, old(db.requests), None), id);
      found.Some? && status.Some? && !Models.IsStatus(status.value) ==>
        r == Err(Refused(400, NotAChoice(status.value))) && unchanged(db)
    ensures var found := FindRequest(Queryset(user, old(db.requests), None), id);
      found.Some? && status.None? ==>
        r == Err(Refused(400, "Invalid status value."))
        && db.requests == ReplaceRequest(old(db.requests), Models.Saved(found.value, now, false))
        && db.updates == old(db.updates) && db.pushes == old(db.pushes)
    ensures var found := FindRequest(Queryset(user, old(db.requests), None), id);
      found.Some? && status.Some? && Models.IsStatus(status.value) ==>
        var saved := Models.Saved(found.value.(status := status.value), now, false);
        var lbl := Models.Label(Models.StatusChoices, status.value).value;
        r == Ok(saved)
        && db.requests == ReplaceRequest(old(db.requests), saved)
        && db.updates == old(db.updates) + StatusChangeUpdates(old(db.nextUpdateId), user, saved, lbl, comment, now)
        && db.pushes == old(db.pushes)
           + [Push(saved.createdBy, UpdateViews.PayloadOf(StatusEvent(old(db.nextUpdateId), user, saved, lbl, now)))]
    ensures db.Valid()
  {
    var found := FindRequest(Queryset(user, db.requests, None), id);
    if found.None? {
      return Err(NotFound);
    }
    if status.Some? && !Models.IsStatus(status.value) {
      return Err(Refused(400, NotAChoice(status.value)));
    }
    assert found.value in db.requests;
    r := SaveStatus(db, user, found.value, status, comment, now);
  }

  /** The part of `update_status` after the request is found and the
      status, when one was sent, is a choice. */
  method SaveStatus(db: Database, user: User, request: ServiceRequest, status: Option<string>,
                    comment: Option<string>, now: int)
    returns (r: Result<ServiceRequest, Failure>)
    requires db.Valid() && request in db.requests
    requires status.Some? ==> Models.IsStatus(status.value)
    modifies db`requests, db`updates, db`nextUpdateId, db`pushes
    ensures status.None? ==>
      r == Err(Refused(400, "Invalid status value."))
      && db.requests == ReplaceRequest(old(db.requests), Models.Saved(request, now, false))
      && db.updates == old(db.updates) && db.pushes == old(db.pushes)
    ensures status.Some? ==>
      var saved := Models.Saved(request.(status := status.value), now, false);
      var lbl := Models.Label(Models.StatusChoices, status.value).value;
      r == Ok(saved)
      && db.requests == ReplaceRequest(old(db.requests), saved)
      && db.updates == old(db.updates) + StatusChangeUpdates(old(db.nextUpdateId), user, saved, lbl, comment, now)
      && db.pushes == old(db.pushes)
         + [Push(saved.createdBy, UpdateViews.PayloadOf(StatusEvent(old(db.nextUpdateId), user, saved, lbl, now)))]
    ensures db.Valid()
  {
    var saved := Models.SaveRequest(db, request.(status := status.GetOr(request.status)), now);
    if status.None? {
      return Err(Refused(400, "Invalid status value."));
    }
    var lbl := Models.Label(Models.StatusChoices, status.value).value;
    RecordStatusChange(db, user, saved, lbl, comment, now);
    r := Ok(saved);
  }

  /** Only the creator of a request or a superuser can change its status,
      and the creator is the one notified. */
  lemma StatusChangeByCreatorOrSuperuser(user: User, rs: seq<ServiceRequest>, id: nat)
    requires FindRequest(Queryset(user, rs, None), id).Some?
    ensures var x := FindRequest(Queryset(user, rs, None), id).value;
      x in rs && (user.isSuperuser || x.createdBy == user.id)
  {
    if !user.isSuperuser {
      OthersSeeOwnNewestFirst(user, rs, None);
    }
  }
}
