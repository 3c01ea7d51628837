/** The admin dashboard's figures
    (backend/requestAPI/api/views/dashboard_views.py): the requests of a
    recent window by day, today's comments, the requests whose deadline is
    near or past, and the number of requests in each status. Every figure
    is a query; nothing is written. */
module DashboardViews {
  import opened Common
  import opened Db
  import RequestViews

  /** The whole view set is behind `IsAdminUser`. */
  const ViewPermission: Permission := IsAdminUser

  /** The length in days of the `timeframe` window: a week, thirty days, or
      ninety days for any other value (and when none is given). */
  function WindowDays(timeframe: string): (d: nat)
    ensures timeframe == "7days" ==> d == 7
    ensures timeframe == "30days" ==> d == 30
    ensures timeframe != "7days" && timeframe != "30days" ==> d == 90
  {
    if timeframe == "7days" then 7
    else if timeframe == "30days" then 30
    else 90
  }

  /** The UTC day a time falls on (`TruncDay`, `__date`), as a day count
      since the epoch. */
  function DayOf(t: int): int {
    t / Day
  }

  predicate InWindow(r: ServiceRequest, start: int) {
    r.createdDate >= start
  }

  /** The requests created since the start of the window. */
  function Window(rs: seq<ServiceRequest>, now: int, timeframe: string): (w: seq<ServiceRequest>)
    ensures forall x :: x in w <==> x in rs && x.createdDate >= now - WindowDays(timeframe) * Day
    ensures IsSubsequence(w, rs)
  {
    var start := now - WindowDays(timeframe) * Day;
    var p := (r: ServiceRequest) => InWindow(r, start);
    FilterIsSubsequence(rs, p);
    assert forall x :: x in rs && p(x) ==> x in Filter(rs, p) by {
      forall x | x in rs && p(x) ensures x in Filter(rs, p) {
        var i :| 0 <= i < |rs| && rs[i] == x;
      }
    }
    Filter(rs, p)
  }

  /** A longer window holds every request of a shorter one. */
  lemma LongerWindowHoldsShorter(rs: seq<ServiceRequest>, now: int, shorter: string, longer: string)
    requires WindowDays(shorter) <= WindowDays(longer)
    ensures forall x :: x in Window(rs, now, shorter) ==> x in Window(rs, now, longer)
  {
  }

  predicate OnDay(r: ServiceRequest, day: int) {
    DayOf(r.createdDate) == day
  }

  /** The requests of one day, as a filter. */
  function OnDayP(day: int): ServiceRequest -> bool {
    (r: ServiceRequest) => OnDay(r, day)
  }

  /** A day on which some request of `w` was created counts at least one. */
  lemma DayCountPositive(w: seq<ServiceRequest>, x: ServiceRequest)
    requires x in w
    ensures Count(w, OnDayP(DayOf(x.createdDate))) > 0
  {
    var i :| 0 <= i < |w| && w[i] == x;
    assert OnDayP(DayOf(x.createdDate))(w[i]);
  }

  /** The days on which the requests of `w` were created. */
  function Days(w: seq<ServiceRequest>): (days: set<int>)
    ensures forall d :: d in days <==> exists x :: x in w && DayOf(x.createdDate) == d
  {
    set x | x in w :: DayOf(x.createdDate)
  }

  /** For each day on which some request of `w` was created, the number
      created that day. */
  function CountByDay(w: seq<ServiceRequest>): (counts: map<int, nat>)
    ensures counts.Keys == Days(w)
    ensures forall d :: d in counts ==> counts[d] == Count(w, OnDayP(d)) && counts[d] > 0
  {
    var days := Days(w);
    assert forall d :: d in days ==> Count(w, OnDayP(d)) > 0 by {
      forall d | d in days ensures Count(w, OnDayP(d)) > 0 {
        var x :| x in w && DayOf(x.createdDate) == d;
        DayCountPositive(w, x);
      }
    }
    map d | d in days :: Count(w, OnDayP(d))
  }

  /** `requests_over_time`: the requests of the window counted by the day
      they were created on. The rows' order by day is the order of the
      keys. */
  function RequestsOverTime(rs: seq<ServiceRequest>, now: int, timeframe: string): (counts: map<int, nat>)
    ensures counts.Keys == Days(Window(rs, now, timeframe))
    ensures forall d :: d in counts ==> counts[d] == Count(Window(rs, now, timeframe), OnDayP(d)) && counts[d] > 0
  {
    CountByDay(Window(rs, now, timeframe))
  }

  /** The days of the window add up to the window: no request is counted on
      two days or left out. */
  lemma {:induction false} DayCountsCover(w: seq<ServiceRequest>, d: int)
    ensures Count(w, OnDayP(d)) + Count(w, (r: ServiceRequest) => !OnDay(r, d)) == |w|
  {
    if w != [] {
      DayCountsCover(w[1..], d);
    }
  }

  // ---------------------------------------------------------------------
  // `todays_updates`

  predicate TodaysComment(u: Update, today: int) {
    DayOf(u.createdDate) == today && u.kind == "message"
  }

  function UpdateCreated(u: Update): int {
    u.createdDate
  }

  const NotAuthorized: string := "Not authorized to view this data."

  /** `todays_updates`: refused by the permission class to anyone who is
      not staff, then by the view itself to anyone who is not a superuser;
      otherwise today's comments, newest first. */
  function TodaysUpdates(requester: Option<User>, updates: seq<Update>, now: int): (r: Result<seq<Update>, Failure>)
    ensures r.Ok? <==> requester.Some? && requester.value.isStaff && requester.value.isSuperuser
    ensures requester.Some? && requester.value.isStaff && !requester.value.isSuperuser ==>
      r == Err(Refused(403, NotAuthorized))
    ensures r.Ok? ==> forall u :: u in r.value <==> u in updates && TodaysComment(u, DayOf(now))
    ensures r.Ok? ==> forall i, j :: 0 <= i < j < |r.value| ==> r.value[i].createdDate >= r.value[j].createdDate
  {
    if !Grants(ViewPermission, requester) then Err(Denied(requester))
    else if !requester.value.isSuperuser then Err(Refused(403, NotAuthorized))
    else
      var today := Filter(updates, (u: Update) => TodaysComment(u, DayOf(now)));
      var sorted := SortDesc(today, UpdateCreated);
      SameMembers(sorted, today);
      assert forall u :: u in updates && TodaysComment(u, DayOf(now)) ==> u in today by {
        forall u | u in updates && TodaysComment(u, DayOf(now)) ensures u in today {
          var i :| 0 <= i < |updates| && updates[i] == u;
        }
      }
      Ok(sorted)
  }

  // ---------------------------------------------------------------------
  // `action_required`

  /** Open or in progress, with a deadline at most three days ahead (or
      past). A request without a deadline is never urgent: SQL's `<=` is
      not true of `NULL`. */
  predicate Urgent(r: ServiceRequest, now: int) {
    r.sla.Some? && r.sla.value <= now + 3 * Day && r.status in {"open", "in_progress"}
  }

  /** The urgent requests, as a filter. */
  function UrgentP(now: int): ServiceRequest -> bool {
    (x: ServiceRequest) => Urgent(x, now)
  }

  /** `action_required`: the urgent requests, earliest deadline first. */
  function ActionRequired(rs: seq<ServiceRequest>, now: int): seq<ServiceRequest> {
    RequestViews.BySla(Filter(rs, UrgentP(now)))
  }

  /** The list holds exactly the urgent requests, each once, all dated and
      in ascending order of deadline. */
  lemma ActionRequiredListsUrgent(rs: seq<ServiceRequest>, now: int)
    ensures forall x :: x in ActionRequired(rs, now) <==> x in rs && Urgent(x, now)
    ensures multiset(ActionRequired(rs, now)) == multiset(Filter(rs, UrgentP(now)))
    ensures DeadlineOrdered(ActionRequired(rs, now))
  {
    UrgentInDeadlineOrder(rs, now, Filter(rs, UrgentP(now)), ActionRequired(rs, now));
  }

  /** Every request has a deadline, and the deadlines ascend. */
  predicate DeadlineOrdered(r: seq<ServiceRequest>) {
    forall i, j :: 0 <= i < j < |r| ==> r[i].sla.Some? && r[j].sla.Some? && r[i].sla.value <= r[j].sla.value
  }

  /** Any reordering of the urgent requests that puts dated ones first in
      ascending order lists exactly the urgent requests, all dated, by
      deadline. */
  lemma UrgentInDeadlineOrder(rs: seq<ServiceRequest>, now: int, urgent: seq<ServiceRequest>, r: seq<ServiceRequest>)
    requires urgent == Filter(rs, UrgentP(now))
    requires multiset(r) == multiset(urgent) && RequestViews.SlaOrdered(r)
    ensures forall x :: x in r <==> x in rs && Urgent(x, now)
    ensures DeadlineOrdered(r)
  {
    SameMembers(r, urgent);
    assert forall i :: 0 <= i < |r| ==> r[i].sla.Some? by {
      forall i | 0 <= i < |r| ensures r[i].sla.Some? {
        assert r[i] in urgent;
      }
    }
    assert forall x :: x in rs && Urgent(x, now) ==> x in urgent by {
      forall x | x in rs && Urgent(x, now) ensures x in urgent {
        var i :| 0 <= i < |rs| && rs[i] == x;
        assert UrgentP(now)(rs[i]);
      }
    }
  }

  /** A request due more than three days ahead is not listed, however long
      it has been open. */
  lemma FarDeadlineNotListed(rs: seq<ServiceRequest>, now: int, x: ServiceRequest)
    requires x.sla.Some? && x.sla.value > now + 3 * Day
    ensures x !in ActionRequired(rs, now)
  {
    ActionRequiredListsUrgent(rs, now);
  }

  // ---------------------------------------------------------------------
  // `general_stats`

  datatype Stats = Stats(open: nat, inProgress: nat, completed: nat)

  predicate HasStatus(r: ServiceRequest, s: string) {
    r.status == s
  }

  /** `general_stats`: the number of requests in each of the three active
      and finished statuses. */
  function GeneralStats(rs: seq<ServiceRequest>): (s: Stats)
    ensures s.open == Count(rs, (r: ServiceRequest) => HasStatus(r, "open"))
    ensures s.inProgress == Count(rs, (r: ServiceRequest) => HasStatus(r, "in_progress"))
    ensures s.completed == Count(rs, (r: ServiceRequest) => HasStatus(r, "completed"))
  {
    Stats(Count(rs, (r: ServiceRequest) => HasStatus(r, "open")),
          Count(rs, (r: ServiceRequest) => HasStatus(r, "in_progress")),
          Count(rs, (r: ServiceRequest) => HasStatus(r, "completed")))
  }

  /** When every request has one of the four statuses, the three figures
      and the cancelled requests (which the dashboard does not show) add up
      to all requests. */
  lemma {:induction false} StatsCoverAll(rs: seq<ServiceRequest>)
    requires forall i :: 0 <= i < |rs| ==> rs[i].status in {"open", "in_progress", "completed", "cancelled"}
    ensures var s := GeneralStats(rs);
      s.open + s.inProgress + s.completed + Count(rs, (r: ServiceRequest) => HasStatus(r, "cancelled")) == |rs|
  {
    if rs != [] {
      StatsCoverAll(rs[1..]);
    }
  }

  /** A new open request adds one to the open figure and leaves the other
      two alone. */
  lemma NewOpenRequestCounted(rs: seq<ServiceRequest>, x: ServiceRequest)
    requires x.status == "open"
    ensures GeneralStats(rs + [x]) == GeneralStats(rs).(open := GeneralStats(rs).open + 1)
  {
    CountConcat(rs, [x], (r: ServiceRequest) => HasStatus(r, "open"));
    CountConcat(rs, [x], (r: ServiceRequest) => HasStatus(r, "in_progress"));
    CountConcat(rs, [x], (r: ServiceRequest) => HasStatus(r, "completed"));
  }
}
