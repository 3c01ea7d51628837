/** The notification state of the web app
    (frontend/src/hooks/data/useNotifications.js, shown by
    frontend/src/utilities/NotificationCount.jsx): the fetched list, the calls
    that mark notifications read, and the toast that `triggerNotification`
    shows for three seconds. */
module NotificationStore {
  import opened Common
  import opened ApiClient
  import Text

  datatype Notification = Notification(id: nat, title: string, message: string, isRead: bool, serviceRequestId: nat)

  /** The body of `GET /updates/notifications/`: a page with `results`, or
      the plain list. */
  datatype Listing = Paged(results: seq<Notification>) | Plain(items: seq<Notification>)

  /** `response.data.results || response.data`. */
  function Entries(l: Listing): seq<Notification> {
    match l
    case Paged(results) => results
    case Plain(items) => items
  }

  datatype ToastData = ToastData(kind: string, title: string, message: string)

  const HideDelay: nat := 3000

  predicate Unread(n: Notification) {
    !n.isRead
  }

  /** The badge count: the unread entries of the list, or 0 without a list. */
  function UnreadCount(items: Option<seq<Notification>>): (c: nat)
    ensures items.None? ==> c == 0
    ensures items.Some? ==> c == Count(items.value, Unread) && c <= |items.value|
  {
    match items
    case None => 0
    case Some(s) => Count(s, Unread)
  }

  /** The badge is shown exactly when some entry is unread. */
  lemma BadgeIffSomeUnread(items: seq<Notification>)
    ensures UnreadCount(Some(items)) > 0 <==> exists i :: 0 <= i < |items| && !items[i].isRead
  {
  }

  /** The count of a list put together from two parts is the sum of theirs. */
  lemma UnreadCountConcat(s: seq<Notification>, t: seq<Notification>)
    ensures UnreadCount(Some(s + t)) == UnreadCount(Some(s)) + UnreadCount(Some(t))
  {
    CountConcat(s, t, Unread);
  }

  /** Every entry of a list that the server filtered to unread ones counts. */
  lemma {:induction false} AllUnreadCounted(s: seq<Notification>)
    requires forall i :: 0 <= i < |s| ==> !s[i].isRead
    ensures UnreadCount(Some(s)) == |s|
  {
    if s != [] {
      AllUnreadCounted(s[1..]);
    }
  }

  function MarkReadUrl(id: nat): string {
    "updates/" + Text.NatToString(id) + "/mark_read/"
  }

  const MarkAllReadUrl: string := "updates/mark_all_read/"

  class Notifications {
    var items: seq<Notification>
    var show: bool
    var data: ToastData
    /** The number of toasts triggered so far; the shown one is the last. */
    var serial: nat
    /** The hide timers not yet fired, oldest first, each with the number
        of the toast it was set for. All have the same delay, so they fire in
        this order. */
    var pending: seq<nat>
    /** The POST calls made, by URL. */
    var posts: seq<string>

    /** The only pending timer, if any, belongs to the shown toast. */
    ghost predicate Valid()
      reads this
    {
      |pending| <= 1 && (pending != [] ==> pending[0] + 1 == serial)
    }

    constructor ()
      ensures Valid()
      ensures items == [] && !show && data == ToastData("", "", "") && serial == 0 && pending == [] && posts == []
    {
      items := [];
      show := false;
      data := ToastData("", "", "");
      serial := 0;
      pending := [];
      posts := [];
    }

    /** `fetchNotifications`: on success the list becomes the fetched entries
        and is returned; on failure the list stays and `[]` is returned. */
    method Fetch(answer: Result<Listing, ApiError>) returns (r: seq<Notification>)
      modifies this`items
      ensures answer.Ok? ==> items == Entries(answer.value) && r == items
      ensures answer.Err? ==> items == old(items) && r == []
    {
      match answer {
        case Ok(listing) =>
          items := Entries(listing);
          r := items;
        case Err(_) =>
          r := [];
      }
    }

    /** `markAllAsRead`: the post, then a refetch whose outcome is `refetch`.
        Nothing changes locally before the refetch, and a failed post is only
        logged. */
    method MarkAllAsRead(post: Result<(), ApiError>, refetch: Result<Listing, ApiError>)
      modifies this`items, this`posts
      ensures posts == old(posts) + [MarkAllReadUrl]
      ensures post.Ok? && refetch.Ok? ==> items == Entries(refetch.value)
      ensures post.Err? || refetch.Err? ==> items == old(items)
    {
      posts := posts + [MarkAllReadUrl];
      if post.Ok? {
        var _ := Fetch(refetch);
      }
    }

    /** `markNotificationAsRead`: after a successful post (and the refetch)
        it gives the path of the notification's service request; after a
        failed post it gives none. */
    method MarkNotificationAsRead(notificationId: nat, serviceRequestId: nat,
                                  post: Result<(), ApiError>, refetch: Result<Listing, ApiError>)
      returns (path: Option<string>)
      modifies this`items, this`posts
      ensures posts == old(posts) + [MarkReadUrl(notificationId)]
      ensures path.Some? <==> post.Ok?
      ensures post.Ok? ==> path == Some("/requests/" + Text.NatToString(serviceRequestId))
      ensures post.Ok? && refetch.Ok? ==> items == Entries(refetch.value)
      ensures post.Err? || refetch.Err? ==> items == old(items)
    {
      posts := posts + [MarkReadUrl(notificationId)];
      if post.Err? {
        return None;
      }
      var _ := Fetch(refetch);
      path := Some("/requests/" + Text.NatToString(serviceRequestId));
    }

    /** `triggerNotification` as written: it shows the toast and starts a new
        hide timer, leaving every earlier timer running. */
    method TriggerAsWritten(kind: string, title: string, message: string := "")
      modifies this`show, this`data, this`serial, this`pending
      ensures data == ToastData(kind, title, message) && show
      ensures serial == old(serial) + 1 && pending == old(pending) + [old(serial)]
    {
      data := ToastData(kind, title, message);
      show := true;
      pending := pending + [serial];
      serial := serial + 1;
    }

    /** `triggerNotification` as intended: the hide timer of an earlier toast
        is cleared when a new toast replaces it, so each toast is shown for
        its full delay. */
    method Trigger(kind: string, title: string, message: string := "")
      modifies this`show, this`data, this`serial, this`pending
      ensures Valid()
      ensures data == ToastData(kind, title, message) && show
      ensures serial == old(serial) + 1 && pending == [old(serial)]
    {
      data := ToastData(kind, title, message);
      show := true;
      pending := [serial];
      serial := serial + 1;
    }

    /** The oldest pending timer fires and hides the toast; `firedFor` is the
        number of the toast that timer was set for. In a valid state it is the
        toast being hidden. */
    method FireTimer() returns (firedFor: Option<nat>)
      modifies this`show, this`pending
      ensures old(pending) == [] ==> firedFor == None && show == old(show) && pending == old(pending)
      ensures old(pending) != [] ==> firedFor == Some(old(pending)[0]) && !show && pending == old(pending)[1..]
      ensures old(Valid()) ==> Valid() && (firedFor.Some? ==> firedFor.value + 1 == serial)
    {
      if pending == [] {
        return None;
      }
      firedFor := Some(pending[0]);
      show := false;
      pending := pending[1..];
    }
  }

  /** Two toasts in a row with the timers as written: the first toast's
      timer hides the second toast while the second's timer is still
      pending, so the second is hidden early. */
  method EarlyHideAsWritten() returns (firedFor: nat, hidden: nat, stillShown: bool, stillPending: seq<nat>)
    ensures firedFor != hidden && !stillShown && stillPending == [hidden]
  {
    var store := new Notifications();
    store.TriggerAsWritten("success", "Saved");
    store.TriggerAsWritten("error", "Failed");
    hidden := store.serial - 1;
    var fired := store.FireTimer();
    firedFor := fired.value;
    stillShown := store.show;
    stillPending := store.pending;
  }

  /** The same two toasts with the corrected trigger: the one timer that
      fires is the second toast's own, and nothing is left pending. */
  method NoEarlyHide() returns (firedFor: nat, hidden: nat, stillPending: seq<nat>)
    ensures firedFor == hidden && stillPending == []
  {
    var store := new Notifications();
    store.Trigger("success", "Saved");
    store.Trigger("error", "Failed");
    hidden := store.serial - 1;
    var fired := store.FireTimer();
    firedFor := fired.value;
    stillPending := store.pending;
  }
}
