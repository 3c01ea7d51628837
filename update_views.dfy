/** The comments, events and notifications API
    (backend/requestAPI/api/views/update_views.py): which updates a user
    may see, the creation of a comment with its push, the comments posted
    on a request, the notification list, and marking notifications read. */
module UpdateViews {
  import opened Common
  import opened Db
  import Text
  import NotificationStore

  /** The view a query set is asked for: the one action that sees every
      update, or any other. */
  datatype Action = ServiceRequestUpdates | OtherAction

  /** Python's truthiness of an optional string: present and not empty. */
  predicate Truthy(s: Option<string>) {
    s.Some? && s.value != ""
  }

  predicate AssociatedTo(u: Update, userId: nat) {
    u.associatedTo == Some(userId)
  }

  /** `get_queryset`. */
  function Visible(user: User, updates: seq<Update>, action: Action): (r: seq<Update>)
    ensures IsSubsequence(r, updates)
  {
    if action.OtherAction? && !user.isSuperuser && !user.isStaff then
      FilterIsSubsequence(updates, (u: Update) => AssociatedTo(u, user.id));
      Filter(updates, (u: Update) => AssociatedTo(u, user.id))
    else
      FilterAll(updates, (u: Update) => true);
      FilterIsSubsequence(updates, (u: Update) => true);
      updates
  }

  /** Outside `service_request_updates`, a user who is neither staff nor
      superuser sees exactly the updates associated to them; everyone else,
      and that action, sees all. */
  lemma VisibleRule(user: User, updates: seq<Update>, action: Action, u: Update)
    ensures action.OtherAction? && !user.isSuperuser && !user.isStaff ==>
      (u in Visible(user, updates, action) <==> u in updates && AssociatedTo(u, user.id))
    ensures action.ServiceRequestUpdates? || user.isSuperuser || user.isStaff ==>
      Visible(user, updates, action) == updates
  {
  }

  function CommentTitle(requestId: nat): string {
    "A Comment has been added to Request " + Text.NatToString(requestId)
  }

  /** The push sent for an update. */
  function PayloadOf(u: Update): Payload {
    Payload(u.id, u.title, u.message, u.serviceRequest, u.kind)
  }

  /** The user an update posted through `POST /updates/` is associated to:
      the request's creator when a superuser writes it, nobody otherwise. */
  function CreatedRecipient(author: User, creator: nat): (to: Option<nat>)
    ensures to.Some? <==> author.isSuperuser
    ensures to.Some? ==> to.value == creator
  {
    if author.isSuperuser then Some(creator) else None
  }

  /** The type of that update: a superuser's choice (a message by default),
      always a message for anyone else. */
  function CreatedKind(author: User, kind: Option<string>): (k: string)
    ensures !author.isSuperuser ==> k == "message"
    ensures author.isSuperuser ==> k == kind.GetOr("message")
  {
    if author.isSuperuser then kind.GetOr("message") else "message"
  }

  /** `perform_create`: the update gets the comment title, the author, the
      recipient and the type; it is pushed to its recipient when it has one.
      Through `create` the serializer has already answered 400 for a missing
      or unknown `service_request`, so the request is found there; the
      `ServerError` outcome is what `objects.get` raising would give if
      `perform_create` were reached without that validation. */
  method PerformCreate(db: Database, author: User, requestId: Option<nat>, kind: Option<string>,
                       message: Option<string>, isRead: bool, now: int) returns (r: Result<Update, Failure>)
    requires db.Valid()
    modifies db`updates, db`nextUpdateId, db`pushes
    ensures var found := if requestId.Some? then FindRequest(db.requests, requestId.value) else None;
      (found.None? ==> r == Err(ServerError) && db.updates == old(db.updates) && db.pushes == old(db.pushes))
      && (found.Some? ==>
            r == Ok(Update(old(db.nextUpdateId), Some(CommentTitle(found.value.id)), message, now, author.id,
                           CreatedRecipient(author, found.value.createdBy), found.value.id,
                           CreatedKind(author, kind), isRead))
            && db.updates == old(db.updates) + [r.value]
            && db.pushes == old(db.pushes)
                 + (if author.isSuperuser then [Push(found.value.createdBy, PayloadOf(r.value))] else []))
    ensures db.Valid()
  {
    var found := if requestId.Some? then FindRequest(db.requests, requestId.value) else None;
    if found.None? {
      return Err(ServerError);
    }
    var request := found.value;
    var to := CreatedRecipient(author, request.createdBy);
    var draft := Update(0, Some(CommentTitle(request.id)), message, now, author.id, to, request.id,
                        CreatedKind(author, kind), isRead);
    var stored := CreateUpdate(db, draft);
    if to.Some? {
      SendNotification(db, to.value, PayloadOf(stored));
    }
    r := Ok(stored);
  }

  /** `GET service_request_updates`: every update of the request, whoever
      asks. */
  function RequestUpdates(user: User, updates: seq<Update>, requestId: Option<nat>): (r: Result<seq<Update>, Failure>)
    ensures requestId.None? <==> r == Err(Refused(400, "service_request_id is required"))
    ensures r.Ok? ==> forall u :: u in r.value <==> u in updates && u.serviceRequest == requestId.value
  {
    if requestId.None? then Err(Refused(400, "service_request_id is required"))
    else Ok(Filter(Visible(user, updates, ServiceRequestUpdates), (u: Update) => u.serviceRequest == requestId.value))
  }

  /** The recipient of a comment posted on a request, as
      backend/requestAPI/api/views/update_views.py:97 writes its test: it
      compares the author's key with the creator's `User` instance, which
      Python never finds equal, so the creator always receives it. */
  function CommentRecipientAsWritten(author: nat, creator: nat): Option<nat> {
    Some(creator)
  }

  /** The recipient as the test intends it: nobody when the creator
      comments on their own request. */
  function CommentRecipient(author: nat, creator: nat): (to: Option<nat>)
    ensures to.None? <==> author == creator
    ensures to.Some? ==> to.value == creator
  {
    if author == creator then None else Some(creator)
  }

  /** As written, a creator's comment on their own request is associated to
      them, and appears among the updates they see. */
  lemma OwnCommentSelfAssociatedAsWritten(creator: User, u: Update, updates: seq<Update>)
    requires !creator.isStaff && !creator.isSuperuser
    requires u.associatedTo == CommentRecipientAsWritten(creator.id, creator.id) && u in updates
    ensures u in Visible(creator, updates, OtherAction)
    ensures CommentRecipient(creator.id, creator.id).None?
  {
    VisibleRule(creator, updates, OtherAction, u);
  }

  /** `POST service_request_updates`: a message on the request, associated
      to the creator unless the creator wrote it; no push. */
  method PostComment(db: Database, author: User, requestId: Option<nat>, message: string, now: int)
    returns (r: Result<Update, Failure>)
    requires db.Valid()
    modifies db`updates, db`nextUpdateId
    ensures requestId.None? ==> r == Err(Refused(400, "service_request_id is required")) && db.updates == old(db.updates)
    ensures requestId.Some? && FindRequest(db.requests, requestId.value).None? ==>
      r == Err(NotFound) && db.updates == old(db.updates)
    ensures requestId.Some? && FindRequest(db.requests, requestId.value).Some? ==>
      var request := FindRequest(db.requests, requestId.value).value;
      r == Ok(Update(old(db.nextUpdateId), Some(CommentTitle(request.id)), Some(message), now, author.id,
                     CommentRecipient(author.id, request.createdBy), request.id, "message", false))
      && db.updates == old(db.updates) + [r.value]
    ensures db.Valid()
  {
    if requestId.None? {
      return Err(Refused(400, "service_request_id is required"));
    }
    var found := FindRequest(db.requests, requestId.value);
    if found.None? {
      return Err(NotFound);
    }
    var request := found.value;
    var draft := Update(0, Some(CommentTitle(request.id)), Some(message), now, author.id,
                        CommentRecipient(author.id, request.createdBy), request.id, "message", false);
    var stored := CreateUpdate(db, draft);
    r := Ok(stored);
  }

  // ---------------------------------------------------------------------
  // Notifications

  /** An unread update associated to the user that someone else wrote. */
  predicate IsNotification(u: Update, userId: nat) {
    AssociatedTo(u, userId) && !u.isRead && u.createdBy != userId
  }

  function CreatedKey(u: Update): int {
    u.createdDate
  }

  /** `notifications`: the user's unread updates written by others, newest
      first. */
  function NotificationsFor(user: User, updates: seq<Update>): (r: seq<Update>)
    ensures forall i :: 0 <= i < |r| ==> IsNotification(r[i], user.id)
    ensures forall u :: u in r <==> u in updates && IsNotification(u, user.id)
    ensures forall i, j :: 0 <= i < j < |r| ==> r[i].createdDate >= r[j].createdDate
  {
    var m := Mine(user, updates);
    var sorted := SortDesc(m, CreatedKey);
    SameMembers(sorted, m);
    sorted
  }

  /** The notifications in table order. */
  function Mine(user: User, updates: seq<Update>): (r: seq<Update>)
    ensures forall u :: u in r <==> u in updates && IsNotification(u, user.id)
    ensures IsSubsequence(r, updates)
  {
    var v := Visible(user, updates, OtherAction);
    assert forall u :: u in updates && IsNotification(u, user.id) ==> u in v by {
      forall u | u in updates && IsNotification(u, user.id)
        ensures u in v
      {
        VisibleRule(user, updates, OtherAction, u);
      }
    }
    SubsequenceMembers(v, updates);
    FilterIsSubsequence(v, (u: Update) => IsNotification(u, user.id));
    SubsequenceTrans(Filter(v, (u: Update) => IsNotification(u, user.id)), v, updates);
    Filter(v, (u: Update) => IsNotification(u, user.id))
  }

  /** The notification the web app holds for an update. */
  function ClientView(u: Update): NotificationStore.Notification {
    NotificationStore.Notification(u.id, u.title.GetOr(""), u.message.GetOr(""), u.isRead, u.serviceRequest)
  }

  function ClientViews(s: seq<Update>): (r: seq<NotificationStore.Notification>)
    ensures |r| == |s| && forall i :: 0 <= i < |s| ==> r[i] == ClientView(s[i])
  {
    seq(|s|, i requires 0 <= i < |s| => ClientView(s[i]))
  }

  /** The web app's badge counts every notification the server lists. */
  lemma BadgeCountsEveryNotification(user: User, updates: seq<Update>)
    ensures NotificationStore.UnreadCount(Some(ClientViews(NotificationsFor(user, updates))))
            == |NotificationsFor(user, updates)|
  {
    NotificationStore.AllUnreadCounted(ClientViews(NotificationsFor(user, updates)));
  }

  /** The table after `mark_all_read`: the user's updates are read, the
      others untouched. */
  function MarkedAllRead(updates: seq<Update>, userId: nat): (t: seq<Update>)
    ensures |t| == |updates|
    ensures forall i :: 0 <= i < |updates| ==>
      t[i] == (if AssociatedTo(updates[i], userId) then updates[i].(isRead := true) else updates[i])
  {
    seq(|updates|, i requires 0 <= i < |updates| =>
      if AssociatedTo(updates[i], userId) then updates[i].(isRead := true) else updates[i])
  }

  /** After `mark_all_read` the user has no notification left ... */
  lemma NoNotificationAfterMarkAll(user: User, updates: seq<Update>)
    ensures NotificationsFor(user, MarkedAllRead(updates, user.id)) == []
  {
  }

  /** ... and every other user keeps theirs. */
  lemma {:induction false} MarkAllLeavesOthers(user: User, other: User, updates: seq<Update>)
    requires other.id != user.id
    ensures NotificationsFor(other, MarkedAllRead(updates, user.id)) == NotificationsFor(other, updates)
  {
    var t := MarkedAllRead(updates, user.id);
    var p := (u: Update) => IsNotification(u, other.id);
    var q := (u: Update) => AssociatedTo(u, other.id);
    FilterAgree(t, updates, q);
    var vt := Visible(other, t, OtherAction);
    var vu := Visible(other, updates, OtherAction);
    assert vt == vu || (other.isSuperuser || other.isStaff);
    if other.isSuperuser || other.isStaff {
      FilterAgree(t, updates, p);
    }
  }

  /** `mark_all_read`: one `UPDATE` of the user's unread updates. */
  method MarkAllRead(db: Database, user: User)
    requires db.Valid()
    modifies db`updates
    ensures db.updates == MarkedAllRead(old(db.updates), user.id)
    ensures db.Valid()
  {
    db.updates := MarkedAllRead(db.updates, user.id);
    assert UpdateIds(db.updates) == UpdateIds(old(db.updates));
  }

  const MarkReadForbidden: string := "You do not have permission to mark this update as read."

  /** The lookup and the check of `mark_read`: the update must be visible to
      the user (else 404) and associated to them (else 403). */
  function MarkReadTarget(user: User, updates: seq<Update>, id: nat): (r: Result<Update, Failure>)
    ensures r.Ok? ==> r.value in updates && r.value.id == id && AssociatedTo(r.value, user.id)
    ensures r.Ok? || r == Err(NotFound) || r == Err(Refused(403, MarkReadForbidden))
  {
    var found := FindUpdate(Visible(user, updates, OtherAction), id);
    SubsequenceMembers(Visible(user, updates, OtherAction), updates);
    if found.None? then Err(NotFound)
    else if found.value.associatedTo != Some(user.id) then Err(Refused(403, MarkReadForbidden))
    else Ok(found.value)
  }

  /** A user who is neither staff nor superuser never sees the 403: the
      updates of others are not found for them at all. */
  lemma ForbiddenOnlyForStaff(user: User, updates: seq<Update>, id: nat)
    requires !user.isStaff && !user.isSuperuser
    ensures MarkReadTarget(user, updates, id) != Err(Refused(403, MarkReadForbidden))
  {
    var v := Visible(user, updates, OtherAction);
    var found := FindUpdate(v, id);
    if found.Some? {
      VisibleRule(user, updates, OtherAction, found.value);
    }
  }

  /** Their own updates are always found, and marked. */
  lemma OwnUpdateMarkable(user: User, updates: seq<Update>, u: Update)
    requires u in updates && AssociatedTo(u, user.id) && NoDuplicates(UpdateIds(updates))
    ensures MarkReadTarget(user, updates, u.id).Ok?
  {
    var v := Visible(user, updates, OtherAction);
    VisibleRule(user, updates, OtherAction, u);
    var found := FindUpdate(v, u.id);
    SubsequenceMembers(v, updates);
    var i :| 0 <= i < |updates| && updates[i] == u;
    var j :| 0 <= j < |updates| && updates[j] == found.value;
    assert UpdateIds(updates)[i] == UpdateIds(updates)[j];
  }

  /** `mark_read`. */
  method MarkRead(db: Database, user: User, id: nat) returns (r: Result<(), Failure>)
    requires db.Valid()
    modifies db`updates
    ensures var target := MarkReadTarget(user, old(db.updates), id);
      (target.Err? ==> r == Err(target.error) && db.updates == old(db.updates))
      && (target.Ok? ==> r == Ok(()) && db.updates == ReplaceUpdate(old(db.updates), target.value.(isRead := true)))
    ensures db.Valid()
  {
    var target := MarkReadTarget(user, db.updates, id);
    if target.Err? {
      return Err(target.error);
    }
    db.updates := ReplaceUpdate(db.updates, target.value.(isRead := true));
    assert UpdateIds(db.updates) == UpdateIds(old(db.updates));
    r := Ok(());
  }
}
