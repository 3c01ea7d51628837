/** The query the request list is fetched with
    (frontend/src/hooks/data/useRequests.js): the building, service type,
    priority and status filters that are set, then the ordering, appended as
    query parameters to `/service-requests/`. */
module RequestQuery {
  import opened Common
  import Text

  /** A filter's value: not set, an object picked from a list (a building or
      a service type, sent by its id), or a plain string (a priority or a
      status). */
  datatype FilterValue = Unset | Picked(id: nat) | Plain(text: string)

  /** The filters as a JavaScript object: keys in insertion order. */
  type Filters = seq<(string, FilterValue)>

  const InitialFilters: Filters :=
    [("building", Unset), ("service_request_item", Unset), ("priority", Unset), ("status", Unset)]

  /** `if (value)`: a picked object is always set, a string when non-empty. */
  predicate IsSet(v: FilterValue) {
    match v
    case Unset => false
    case Picked(_) => true
    case Plain(t) => t != ""
  }

  /** `value.id || value`, as the text of a query parameter. An object whose
      id is 0 falls back to the object itself, which renders as
      `[object Object]`. */
  function ParamText(v: FilterValue): string {
    match v
    case Picked(id) => if id != 0 then Text.NatToString(id) else "[object Object]"
    case Plain(t) => t
    case Unset => "null"
  }

  /** `param` is the parameter some set filter gives. */
  predicate FromSetFilter(filters: Filters, param: (string, string)) {
    exists i :: 0 <= i < |filters| && filters[i].0 == param.0
                && IsSet(filters[i].1) && param.1 == ParamText(filters[i].1)
  }

  lemma FromSetFilterPrefix(filters: Filters, k: nat, param: (string, string))
    requires k <= |filters| && FromSetFilter(filters[..k], param)
    ensures FromSetFilter(filters, param)
  {
    var i :| 0 <= i < k && filters[..k][i].0 == param.0
             && IsSet(filters[..k][i].1) && param.1 == ParamText(filters[..k][i].1);
    assert filters[i] == filters[..k][i];
  }

  /** The parameter one filter entry gives: its key and `value.id || value`. */
  function ParamOf(f: (string, FilterValue)): (string, string) {
    (f.0, ParamText(f.1))
  }

  /** The parameters of a list of entries, one each, in order. */
  function ParamsOf(fs: Filters): (ps: seq<(string, string)>)
    ensures |ps| == |fs| && forall i :: 0 <= i < |fs| ==> ps[i] == ParamOf(fs[i])
  {
    seq(|fs|, i requires 0 <= i < |fs| => ParamOf(fs[i]))
  }

  /** The parameters the set filters give, in the filters' order. */
  function FilterParams(filters: Filters): (params: seq<(string, string)>)
    ensures |params| <= |filters|
    ensures forall j :: 0 <= j < |params| ==> FromSetFilter(filters, params[j])
    decreases |filters|
  {
    if filters == [] then []
    else
      var k := |filters| - 1;
      var rest := FilterParams(filters[..k]);
      assert forall j :: 0 <= j < |rest| ==> FromSetFilter(filters, rest[j]) by {
        forall j | 0 <= j < |rest| ensures FromSetFilter(filters, rest[j]) {
          FromSetFilterPrefix(filters, k, rest[j]);
        }
      }
      if IsSet(filters[k].1) then rest + [ParamOf(filters[k])] else rest
  }

  /** The parameters are exactly the set entries' parameters, in the
      entries' order. */
  lemma {:induction false} FilterParamsInOrder(filters: Filters)
    ensures FilterParams(filters) == ParamsOf(Filter(filters, IsSetEntry))
    decreases |filters|
  {
    if filters != [] {
      var k := |filters| - 1;
      FilterParamsInOrder(filters[..k]);
      SetEntriesSnoc(filters);
      var a := Filter(filters[..k], IsSetEntry);
      if IsSetEntry(filters[k]) {
        assert ParamsOf(a + [filters[k]]) == ParamsOf(a) + [ParamOf(filters[k])];
      }
    }
  }

  /** Every set filter gives its parameter. */
  lemma EverySetFilterSent(filters: Filters, i: nat)
    requires i < |filters| && IsSet(filters[i].1)
    ensures ParamOf(filters[i]) in FilterParams(filters)
  {
    FilterParamsInOrder(filters);
    var r := Filter(filters, IsSetEntry);
    assert filters[i] in r;
    var j :| 0 <= j < |r| && r[j] == filters[i];
    assert ParamsOf(r)[j] == ParamOf(filters[i]);
  }

  /** The set entries of a list are those of all but its last entry, then
      that one if it is set. */
  lemma SetEntriesSnoc(filters: Filters)
    requires filters != []
    ensures var k := |filters| - 1;
      Filter(filters, IsSetEntry) ==
        Filter(filters[..k], IsSetEntry) + (if IsSetEntry(filters[k]) then [filters[k]] else [])
  {
    var k := |filters| - 1;
    assert filters == filters[..k] + [filters[k]];
    FilterConcat(filters[..k], [filters[k]], IsSetEntry);
    FilterCons([filters[k]], IsSetEntry);
    assert [filters[k]][1..] == [];
  }

  /** A filter entry whose value is set. */
  predicate IsSetEntry(f: (string, FilterValue)) {
    IsSet(f.1)
  }

  /** Every set filter gives a parameter: the parameters are exactly one per
      set filter. */
  lemma {:induction false} FilterParamsCount(filters: Filters)
    ensures |FilterParams(filters)| == Count(filters, IsSetEntry)
    decreases |filters|
  {
    if filters != [] {
      FilterParamsCount(filters[..|filters| - 1]);
      CountSnoc(filters, IsSetEntry);
      FilterParamsSnoc(filters);
    }
  }

  /** The last filter adds one parameter when it is set and none otherwise. */
  lemma FilterParamsSnoc(filters: Filters)
    requires filters != []
    ensures |FilterParams(filters)| ==
      |FilterParams(filters[..|filters| - 1])| + (if IsSetEntry(filters[|filters| - 1]) then 1 else 0)
  {
  }

  /** The parameters of the fetch: the set filters, then `ordering` when it
      is non-empty. */
  method QueryParams(filters: Filters, ordering: string) returns (params: seq<(string, string)>)
    ensures params == FilterParams(filters) + (if ordering != "" then [("ordering", ordering)] else [])
  {
    params := [];
    var i := 0;
    while i < |filters|
      invariant 0 <= i <= |filters|
      invariant params == FilterParams(filters[..i])
    {
      var (key, value) := filters[i];
      assert filters[..i + 1][..i] == filters[..i];
      if IsSet(value) {
        params := params + [ParamOf((key, value))];
      }
      i := i + 1;
    }
    assert filters[..|filters|] == filters;
    if ordering != "" {
      params := params + [("ordering", ordering)];
    }
  }

  /** `URLSearchParams.toString()` for parameters whose keys and values need
      no escaping. */
  function QueryString(params: seq<(string, string)>): (q: string)
    ensures params == [] <==> q == ""
  {
    if params == [] then ""
    else if |params| == 1 then params[0].0 + "=" + params[0].1
    else params[0].0 + "=" + params[0].1 + "&" + QueryString(params[1..])
  }

  /** The URL fetched: a query string only when there are parameters. */
  function Endpoint(params: seq<(string, string)>): (url: string)
    ensures params == [] ==> url == "/service-requests/"
    ensures params != [] ==> url == "/service-requests/?" + QueryString(params)
  {
    var q := QueryString(params);
    "/service-requests/" + (if q != "" then "?" + q else "")
  }

  /** With no filter set and no ordering the list is fetched bare. */
  lemma {:induction false} NothingSetBareEndpoint(filters: Filters)
    requires forall i :: 0 <= i < |filters| ==> !IsSet(filters[i].1)
    ensures FilterParams(filters) == []
    ensures Endpoint(FilterParams(filters)) == "/service-requests/"
    decreases |filters|
  {
    if filters != [] {
      NothingSetBareEndpoint(filters[..|filters| - 1]);
    }
  }

  /** An object has each key once. */
  predicate DistinctKeys(filters: Filters) {
    forall i, j :: 0 <= i < j < |filters| ==> filters[i].0 != filters[j].0
  }

  /** `updateFilter(name, value)`: `{...prev, [name]: value}` — an existing
      key keeps its place and takes the new value; a new key goes last. */
  function UpdateFilter(filters: Filters, name: string, value: FilterValue): (r: Filters)
    requires DistinctKeys(filters)
    ensures DistinctKeys(r)
    ensures |r| == |filters| || |r| == |filters| + 1
    ensures forall i :: 0 <= i < |filters| ==> r[i].0 == filters[i].0
    ensures forall i :: 0 <= i < |filters| && filters[i].0 != name ==> r[i] == filters[i]
    ensures forall i :: 0 <= i < |filters| && filters[i].0 == name ==> r[i].1 == value
    ensures (exists i :: 0 <= i < |filters| && filters[i].0 == name) <==> |r| == |filters|
    ensures |r| == |filters| + 1 ==> r[|filters|] == (name, value)
  {
    if filters == [] then [(name, value)]
    else if filters[0].0 == name then
      ReplaceHead(filters, name, value);
      [(name, value)] + filters[1..]
    else
      var rest := UpdateFilter(filters[1..], name, value);
      KeepHead(filters, name, value, rest);
      [filters[0]] + rest
  }

  /** `UpdateFilter` when the first key is the one set. */
  lemma ReplaceHead(filters: Filters, name: string, value: FilterValue)
    requires DistinctKeys(filters) && filters != [] && filters[0].0 == name
    ensures var r := [(name, value)] + filters[1..];
      DistinctKeys(r)
      && (forall i :: 0 <= i < |filters| ==> r[i].0 == filters[i].0)
      && (forall i :: 0 <= i < |filters| && filters[i].0 != name ==> r[i] == filters[i])
      && (forall i :: 0 <= i < |filters| && filters[i].0 == name ==> r[i].1 == value)
  {
    var r := [(name, value)] + filters[1..];
    assert forall i :: 1 <= i < |filters| ==> r[i] == filters[i];
  }

  /** `UpdateFilter` when the first key is another: it stays in front of
      the rest updated. */
  lemma KeepHead(filters: Filters, name: string, value: FilterValue, rest: Filters)
    requires DistinctKeys(filters) && filters != [] && filters[0].0 != name
    requires var t := filters[1..];
      DistinctKeys(rest)
      && (|rest| == |t| || |rest| == |t| + 1)
      && (forall i :: 0 <= i < |t| ==> rest[i].0 == t[i].0)
      && (forall i :: 0 <= i < |t| && t[i].0 != name ==> rest[i] == t[i])
      && (forall i :: 0 <= i < |t| && t[i].0 == name ==> rest[i].1 == value)
      && ((exists i :: 0 <= i < |t| && t[i].0 == name) <==> |rest| == |t|)
      && (|rest| == |t| + 1 ==> rest[|t|] == (name, value))
    ensures var r := [filters[0]] + rest;
      DistinctKeys(r)
      && (forall i :: 0 <= i < |filters| ==> r[i].0 == filters[i].0)
      && (forall i :: 0 <= i < |filters| && filters[i].0 != name ==> r[i] == filters[i])
      && (forall i :: 0 <= i < |filters| && filters[i].0 == name ==> r[i].1 == value)
      && ((exists i :: 0 <= i < |filters| && filters[i].0 == name) <==> |r| == |filters|)
  {
    var t := filters[1..];
    var r := [filters[0]] + rest;
    assert forall i :: 1 <= i < |filters| ==> filters[i] == t[i - 1];
    assert forall i :: 1 <= i < |r| ==> r[i] == rest[i - 1];
    assert (exists i :: 0 <= i < |filters| && filters[i].0 == name)
      <==> (exists i :: 0 <= i < |t| && t[i].0 == name) by {
      forall i | 1 <= i < |filters| ensures filters[i] == t[i - 1] { }
    }
    forall i, j | 0 <= i < j < |r| ensures r[i].0 != r[j].0 {
      if i == 0 {
        if j - 1 < |t| {
          assert rest[j - 1].0 == t[j - 1].0 == filters[j].0;
        } else {
          assert rest[j - 1] == (name, value);
        }
      }
    }
  }

  /** Setting the status filter of the initial filters gives one parameter. */
  lemma StatusFilterOnly()
    ensures Endpoint(FilterParams(UpdateFilter(InitialFilters, "status", Plain("open"))))
            == "/service-requests/?status=open"
  {
    StatusFilterParams();
    assert QueryString([("status", "open")]) == "status=open";
  }

  lemma StatusFilterParams()
    ensures FilterParams(UpdateFilter(InitialFilters, "status", Plain("open"))) == [("status", "open")]
  {
    var f := UpdateFilter(InitialFilters, "status", Plain("open"));
    assert InitialFilters[3].0 == "status";
    assert f[3] == ("status", Plain("open"));
    assert forall i :: 0 <= i < 3 ==> f[..3][i].1 == InitialFilters[i].1 == Unset;
    NothingSetBareEndpoint(f[..3]);
  }
}
