/** The service search that starts a new request
    (frontend/src/contexts/RaiseRequestContext.jsx): the service types
    fetched for the search, the ones matching the typed query, and the step
    from picking a service to the request form. */
module RaiseRequest {
  import opened Common
  import Text

  datatype ServiceType = ServiceType(id: nat, name: string, description: string)

  /** A service matches a query when its name or description contains it,
      ignoring case. */
  predicate Matches(query: string, item: ServiceType) {
    Text.Contains(Text.ToLower(item.name), Text.ToLower(query))
    || Text.Contains(Text.ToLower(item.description), Text.ToLower(query))
  }

  /** The services shown for a query: all of them for a blank query (only
      spaces), else those matching the query as typed, spaces included. */
  function FilterServices(available: seq<ServiceType>, query: string): (r: seq<ServiceType>)
    ensures Text.Trim(query, Text.IsJsSpace) == "" ==> r == available
    ensures Text.Trim(query, Text.IsJsSpace) != "" ==>
      (forall i :: 0 <= i < |r| ==> r[i] in available && Matches(query, r[i]))
      && (forall i :: 0 <= i < |available| && Matches(query, available[i]) ==> available[i] in r)
  {
    if Text.Trim(query, Text.IsJsSpace) == "" then available
    else Filter(available, (item: ServiceType) => Matches(query, item))
  }

  /** The shown services keep the fetched order. */
  lemma FilterServicesKeepsOrder(available: seq<ServiceType>, query: string)
    ensures IsSubsequence(FilterServices(available, query), available)
  {
    if Text.Trim(query, Text.IsJsSpace) == "" {
      SubsequenceRefl(available);
    } else {
      FilterIsSubsequence(available, (item: ServiceType) => Matches(query, item));
    }
  }

  /** Queries that differ only in letter case show the same services. */
  lemma CaseInsensitive(available: seq<ServiceType>, q1: string, q2: string)
    requires Text.ToLower(q1) == Text.ToLower(q2)
    requires Text.Trim(q1, Text.IsJsSpace) != "" && Text.Trim(q2, Text.IsJsSpace) != ""
    ensures FilterServices(available, q1) == FilterServices(available, q2)
  {
    FilterSamePredicate(available, (item: ServiceType) => Matches(q1, item), (item: ServiceType) => Matches(q2, item));
  }

  class Search {
    var available: seq<ServiceType>
    var filtered: seq<ServiceType>
    var query: string
    var searchOpen: bool
    var raiseDialogOpen: bool
    var selected: Option<ServiceType>

    /** The effect on `[query, availableServices]` has run. */
    ghost predicate Valid()
      reads this
    {
      filtered == FilterServices(available, query)
    }

    constructor ()
      ensures Valid()
      ensures available == [] && query == "" && !searchOpen && !raiseDialogOpen && selected == None
    {
      available := [];
      query := "";
      filtered := [];
      searchOpen := false;
      raiseDialogOpen := false;
      selected := None;
    }

    method Recompute()
      modifies this`filtered
      ensures Valid()
    {
      var q := query;
      if Text.Trim(q, Text.IsJsSpace) == "" {
        filtered := available;
      } else {
        filtered := Filter(available, (item: ServiceType) => Matches(q, item));
      }
    }

    /** `showSearch`: `answer` is the outcome of `GET /service-types/`, the
        services or the error's message. On success the services become
        available and the search opens; on failure nothing changes and the
        message is shown as a FAIL toast, which is returned. */
    method ShowSearch(answer: Result<seq<ServiceType>, string>) returns (failToast: Option<string>)
      modifies this`available, this`searchOpen, this`filtered
      ensures answer.Ok? ==> Valid() && available == answer.value && searchOpen && failToast == None
      ensures answer.Err? ==> failToast == Some(answer.error) && unchanged(this)
    {
      match answer {
        case Ok(services) =>
          available := services;
          searchOpen := true;
          Recompute();
          failToast := None;
        case Err(message) =>
          failToast := Some(message);
      }
    }

    /** Typing in the search box. */
    method SetQuery(q: string)
      modifies this`query, this`filtered
      ensures Valid() && query == q && available == old(available)
    {
      query := q;
      Recompute();
    }

    /** `handleRequestSearchOnClose`: the search closes and forgets the
        services and the query. */
    method CloseSearch()
      modifies this`searchOpen, this`filtered, this`available, this`query
      ensures Valid()
      ensures !searchOpen && available == [] && filtered == [] && query == ""
    {
      searchOpen := false;
      filtered := [];
      available := [];
      query := "";
      Recompute();
    }

    /** `handleServiceTypeSelect`: the picked service goes to the request
        form, which opens as the search closes. */
    method SelectService(item: ServiceType)
      modifies this
      ensures Valid()
      ensures selected == Some(item) && raiseDialogOpen && !searchOpen
      ensures available == [] && filtered == [] && query == ""
    {
      selected := Some(item);
      CloseSearch();
      raiseDialogOpen := true;
    }
  }
}
