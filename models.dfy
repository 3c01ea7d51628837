/** The behaviour of the models themselves (backend/requestAPI/models.py):
    the choices and defaults of the fields, the SLA date a request's
    `save()` fills in from its priority, the timestamps every save writes,
    and a building's display text. */
module Models {
  import opened Common
  import opened Db
  import Text

  const StatusChoices: seq<(string, string)> :=
    [("open", "Open"), ("in_progress", "In Progress"), ("completed", "Completed"), ("cancelled", "Cancelled")]
  const PriorityChoices: seq<(string, string)> := [("low", "Low"), ("medium", "Medium"), ("high", "High")]
  const KindChoices: seq<(string, string)> := [("message", "Message"), ("event", "Event")]

  const DefaultStatus: string := "open"
  const DefaultPriority: string := "low"
  const DefaultKind: string := "event"
  const DefaultCountry: string := "United Kingdom"

  /** `dict(choices).get(key)`: the label of a stored value. */
  function Label(choices: seq<(string, string)>, key: string): (l: Option<string>)
    ensures l.None? <==> forall i :: 0 <= i < |choices| ==> choices[i].0 != key
    ensures l.Some? ==> (key, l.value) in choices
  {
    if choices == [] then None
    else if choices[0].0 == key then Some(choices[0].1)
    else Label(choices[1..], key)
  }

  predicate IsStatus(s: string) {
    Label(StatusChoices, s).Some?
  }

  /** The four statuses, and only they, are valid. */
  lemma StatusesAreTheChoices(s: string)
    ensures IsStatus(s) <==> s in {"open", "in_progress", "completed", "cancelled"}
  {
  }

  // ---------------------------------------------------------------------
  // `ServiceRequest.save`

  /** The days `save()` adds to the current time; a priority outside the
      choices adds nothing. */
  function SlaDays(priority: string): Option<int> {
    if priority == "low" then Some(5)
    else if priority == "medium" then Some(3)
    else if priority == "high" then Some(1)
    else None
  }

  /** The SLA date after `save()`: a date already set is kept, an empty one
      is filled in from the priority. */
  function SlaAfterSave(r: ServiceRequest, now: int): Option<int> {
    if r.sla.Some? then r.sla
    else match SlaDays(r.priority)
      case Some(d) => Some(now + d * Day)
      case None => None
  }

  /** What `save()` writes, as written: `created_date` is declared with
      `auto_now`, so it is set to the time of every save, like
      `updated_date`. */
  function SavedAsWritten(r: ServiceRequest, now: int): ServiceRequest {
    r.(sla := SlaAfterSave(r, now), createdDate := now, updatedDate := now)
  }

  /** What `save()` writes, with the creation date set only when the row is
      first written (`auto_now_add`, as `Update.created_date` has it). */
  function Saved(r: ServiceRequest, now: int, inserting: bool): ServiceRequest {
    r.(sla := SlaAfterSave(r, now), createdDate := if inserting then now else r.createdDate, updatedDate := now)
  }

  /** An SLA date that is set is never overwritten by a save. */
  lemma SlaNeverOverwritten(r: ServiceRequest, now: int, inserting: bool)
    requires r.sla.Some?
    ensures Saved(r, now, inserting).sla == r.sla
    ensures SavedAsWritten(r, now).sla == r.sla
  {
  }

  /** An empty SLA date becomes five, three or one day(s) after the save
      for a low, medium or high priority request; with any other priority
      it stays empty. */
  lemma SlaFromPriority(r: ServiceRequest, now: int, inserting: bool)
    requires r.sla.None?
    ensures r.priority == "low" ==> Saved(r, now, inserting).sla == Some(now + 5 * Day)
    ensures r.priority == "medium" ==> Saved(r, now, inserting).sla == Some(now + 3 * Day)
    ensures r.priority == "high" ==> Saved(r, now, inserting).sla == Some(now + 1 * Day)
    ensures Label(PriorityChoices, r.priority).None? <==> Saved(r, now, inserting).sla.None?
  {
  }

  /** A higher priority never gets a later SLA date from the same save time. */
  lemma HigherPriorityDueSooner(r: ServiceRequest, s: ServiceRequest, now: int)
    requires r.sla.None? && s.sla.None?
    requires (r.priority, s.priority) in {("high", "medium"), ("high", "low"), ("medium", "low")}
    ensures Saved(r, now, true).sla.value < Saved(s, now, true).sla.value
  {
  }

  /** A save of a stored request changes its SLA date (only when empty)
      and `updated_date`, nothing else. */
  lemma ResaveChangesOnlyDates(r: ServiceRequest, now: int)
    ensures var t := Saved(r, now, false);
      t.(sla := r.sla, updatedDate := r.updatedDate) == r
  {
  }

  /** As written, saving a stored request again moves its creation date
      to the time of that save; with `auto_now_add` it stays. */
  lemma CreatedDateMovesAsWritten(r: ServiceRequest, now: int)
    requires r.createdDate < now
    ensures SavedAsWritten(r, now).createdDate != r.createdDate
    ensures Saved(r, now, false).createdDate == r.createdDate
  {
  }

  /** A request as the serializer creates it: the status and priority the
      client sent, or the field defaults; `created_by` is the requester;
      no SLA date (the field is read-only). The key and dates are set when
      it is saved. */
  function NewRequest(createdBy: nat, serviceType: nat, building: nat, notes: Option<string>,
                      status: Option<string>, priority: Option<string>): ServiceRequest {
    ServiceRequest(0, notes, status.GetOr(DefaultStatus), priority.GetOr(DefaultPriority), 0, 0,
                   createdBy, serviceType, building, None)
  }

  /** A request created without a status or priority is open, low, and due
      five days after it was saved. */
  lemma DefaultsOnCreate(createdBy: nat, serviceType: nat, building: nat, notes: Option<string>, id: nat, now: int)
    ensures var r := Saved(NewRequest(createdBy, serviceType, building, notes, None, None).(id := id), now, true);
      r.status == "open" && r.priority == "low" && r.sla == Some(now + 5 * Day)
      && r.createdDate == now && r.createdBy == createdBy
  {
  }

  /** The first save of a request: the row is added with the next key. */
  method InsertRequest(db: Database, draft: ServiceRequest, now: int) returns (stored: ServiceRequest)
    requires db.Valid()
    modifies db`requests, db`nextRequestId
    ensures stored == Saved(draft.(id := old(db.nextRequestId)), now, true)
    ensures db.requests == old(db.requests) + [stored]
    ensures db.nextRequestId == old(db.nextRequestId) + 1
    ensures db.Valid()
  {
    stored := Saved(draft.(id := db.nextRequestId), now, true);
    assert forall i :: 0 <= i < |db.requests| ==> RequestIds(db.requests)[i] != stored.id;
    db.requests := db.requests + [stored];
    db.nextRequestId := db.nextRequestId + 1;
    assert RequestIds(db.requests) == RequestIds(old(db.requests)) + [stored.id];
  }

  /** A later save of a stored request: its row is written over. */
  method SaveRequest(db: Database, r: ServiceRequest, now: int) returns (stored: ServiceRequest)
    requires db.Valid() && FindRequest(db.requests, r.id).Some?
    modifies db`requests
    ensures stored == Saved(r, now, false)
    ensures db.requests == ReplaceRequest(old(db.requests), stored)
    ensures db.Valid()
  {
    stored := Saved(r, now, false);
    db.requests := ReplaceRequest(db.requests, stored);
    assert RequestIds(db.requests) == RequestIds(old(db.requests));
  }

  // ---------------------------------------------------------------------
  // `Building.__str__`

  /** An optional text as an f-string renders it (`None` for no value). */
  function PyText(o: Option<string>): string {
    match o
    case Some(s) => s
    case None => "None"
  }

  /** `f"{name or 'Building'} - {line1}, {line2}, {city}, {postcode}, {country}"`. */
  function BuildingStr(b: Building): string {
    (if b.name.Some? && b.name.value != "" then b.name.value else "Building")
    + " - " + b.addressLine1 + ", " + PyText(b.addressLine2) + ", " + b.city + ", " + b.postcode + ", " + b.country
  }

  /** A building without a name (none or an empty one) is shown as
      "Building"; a named one by its name. */
  lemma BuildingStrTitle(b: Building)
    ensures (b.name.None? || b.name == Some("")) ==> Text.StartsWith(BuildingStr(b), "Building - ")
    ensures b.name.Some? && b.name.value != "" ==> Text.StartsWith(BuildingStr(b), b.name.value + " - ")
    ensures Text.EndsWith(BuildingStr(b), ", " + b.country)
  {
    var title := if b.name.Some? && b.name.value != "" then b.name.value else "Building";
    var middle := b.addressLine1 + ", " + PyText(b.addressLine2) + ", " + b.city + ", " + b.postcode;
    var s := BuildingStr(b);
    assert s == (title + " - ") + (middle + ", " + b.country);
    Text.ConcatEnds(title + " - ", middle + ", " + b.country);
    assert s == (title + " - " + middle) + (", " + b.country);
    Text.ConcatEnds(title + " - " + middle, ", " + b.country);
  }

  /** The building of the model tests: no second address line, the default
      country. */
  lemma BuildingStrSample()
    ensures BuildingStr(Building(1, Some("Test Building"), "123 Test St", None, "Test City", "12345",
                                 DefaultCountry, 51507400, -127800, {}))
            == "Test Building - 123 Test St, None, Test City, 12345, United Kingdom"
  {
    var s := "Test Building" + " - " + "123 Test St";
    assert s == "Test Building - 123 Test St";
    assert s + ", " + "None" == "Test Building - 123 Test St, None";
    var t := "Test Building - 123 Test St, None";
    assert t + ", " + "Test City" == "Test Building - 123 Test St, None, Test City";
    var u := "Test Building - 123 Test St, None, Test City";
    assert u + ", " + "12345" == "Test Building - 123 Test St, None, Test City, 12345";
    var v := "Test Building - 123 Test St, None, Test City, 12345";
    assert v + ", " + "United Kingdom" == "Test Building - 123 Test St, None, Test City, 12345, United Kingdom";
  }
}
