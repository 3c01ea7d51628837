/** The table component the admin pages list users, buildings and requests
    with (frontend/src/utilities/DataTable.jsx): reading a cell through a
    dotted accessor, selecting rows with a header checkbox that is checked,
    indeterminate or clear, and asking the server for an ordering when a
    column header is clicked. */
module DataTable {
  import opened Common
  import Text

  // ---------------------------------------------------------------------
  // Cell values

  /** A JavaScript value as it appears in a row fetched from the API. */
  datatype Json =
    | Undefined
    | Null
    | Bool(b: bool)
    | Num(n: int)
    | Str(s: string)
    | Arr(items: seq<Json>)
    | Obj(fields: map<string, Json>)

  /** JavaScript truthiness (`NaN` does not occur: numbers are integers here). */
  predicate Truthy(v: Json) {
    match v
    case Undefined => false
    case Null => false
    case Bool(b) => b
    case Num(n) => n != 0
    case Str(s) => s != ""
    case Arr(_) => true
    case Obj(_) => true
  }

  /** `v[key]` for a value that is not null or undefined: the field of an
      object, `undefined` for a missing one and for every other value. */
  function Member(v: Json, key: string): Json {
    match v
    case Obj(fields) => if key in fields then fields[key] else Undefined
    case _ => Undefined
  }

  /** `parts.reduce((acc, part) => acc && acc[part], v)`. */
  function Walk(v: Json, parts: seq<string>): Json
    decreases |parts|
  {
    if parts == [] then v
    else Walk(if Truthy(v) then Member(v, parts[0]) else v, parts[1..])
  }

  /** `getNestedValue(row, accessor)`, without the date formatting. */
  function GetNestedValue(row: Json, path: string): Json {
    if '.' in path then Walk(row, Text.Split(path, '.')) else Member(row, path)
  }

  /** Once the walk reaches a falsy value, that value is the result: a
      missing level gives `undefined`, not an exception. */
  lemma {:induction false} WalkStopsAtFalsy(v: Json, parts: seq<string>)
    requires !Truthy(v)
    ensures Walk(v, parts) == v
    decreases |parts|
  {
    if parts != [] {
      WalkStopsAtFalsy(v, parts[1..]);
    }
  }

  /** Walking a longer path is walking its first part and then the rest. */
  lemma {:induction false} WalkConcat(v: Json, p1: seq<string>, p2: seq<string>)
    ensures Walk(v, p1 + p2) == Walk(Walk(v, p1), p2)
    decreases |p1|
  {
    if p1 == [] {
      assert p1 + p2 == p2;
    } else {
      assert (p1 + p2)[0] == p1[0] && (p1 + p2)[1..] == p1[1..] + p2;
      WalkConcat(if Truthy(v) then Member(v, p1[0]) else v, p1[1..], p2);
    }
  }

  /** A dotted accessor over nested objects reads the nested field. */
  lemma NestedField(a: string, b: string, inner: map<string, Json>, outer: map<string, Json>)
    requires '.' !in a && '.' !in b
    requires a in outer && outer[a] == Obj(inner) && b in inner
    ensures GetNestedValue(Obj(outer), a + "." + b) == inner[b]
  {
    var path := a + "." + b;
    assert '.' in path by { assert path[|a|] == '.'; }
    SplitTwo(a, b);
    assert [a, b][1..] == [b];
    assert Walk(Obj(outer), [a, b]) == Walk(Obj(inner), [b]);
    assert Walk(Obj(inner), [b]) == Walk(inner[b], []);
  }

  lemma SplitTwo(a: string, b: string)
    requires '.' !in a && '.' !in b
    ensures Text.Split(a + "." + b, '.') == [a, b]
  {
    var rest := "." + b;
    assert a + "." + b == a + rest;
    assert rest[1..] == b;
    Text.SplitHead(b, '.');
    Text.SplitAfterPiece(a, rest, '.');
  }

  // ---------------------------------------------------------------------
  // Ordering

  datatype Direction = Asc | Desc
  datatype SortKey = SortKey(field: string, direction: Direction)

  /** The field a column is ordered by: the first part of a dotted accessor,
      with the first `_detail` taken out when the name ends in `_detail`
      (`building_detail.name` orders by `building`). */
  function SortField(accessor: string): (f: string)
    ensures '.' !in f
    ensures '.' !in accessor && !Text.EndsWith(accessor, "_detail") ==> f == accessor
  {
    var first := if '.' in accessor then Text.Split(accessor, '.')[0] else accessor;
    if Text.EndsWith(first, "_detail") then Text.ReplaceFirst(first, "_detail", "") else first
  }

  /** A dotted accessor whose first part does not end in `_detail` is
      ordered by that first part. */
  lemma SortFieldDotted(name: string, rest: string)
    requires '.' !in name && !Text.EndsWith(name, "_detail")
    ensures SortField(name + "." + rest) == name
  {
    var accessor := name + "." + rest;
    assert '.' in accessor by { assert accessor[|name|] == '.'; }
    assert accessor == name + ("." + rest);
    assert ("." + rest)[1..] == rest;
    Text.SplitAfterPiece(name, "." + rest, '.');
  }

  /** `building_detail.name` is ordered by `building`, and
      `service_type_detail.name` by `service_type`: the `_detail` after the
      field's own name is taken out. */
  lemma SortFieldDetail(name: string, rest: string)
    requires '.' !in name && !Text.Contains(name, "_detail")
    ensures SortField(name + "_detail." + rest) == name
  {
    var first := name + "_detail";
    var accessor := name + "_detail." + rest;
    assert '.' in accessor by { assert accessor[|first|] == '.'; }
    assert accessor == first + ("." + rest);
    assert ("." + rest)[1..] == rest;
    assert '.' !in first by {
      assert forall i :: 0 <= i < |first| ==> first[i] == if i < |name| then name[i] else "_detail"[i - |name|];
    }
    Text.SplitAfterPiece(first, "." + rest, '.');
    DetailRemoved(name);
  }

  /** Taking the first `_detail` out of `name_detail` gives back `name`
      when `name` holds none. */
  lemma DetailRemoved(name: string)
    requires !Text.Contains(name, "_detail")
    ensures Text.EndsWith(name + "_detail", "_detail")
    ensures Text.ReplaceFirst(name + "_detail", "_detail", "") == name
  {
    var first := name + "_detail";
    assert "_detail"[0] !in "_detail"[1..];
    Text.ConcatEnds(name, "_detail");
    Text.FirstOccurrence(name, "_detail");
    assert first[..|name|] == name && first[|name| + 7..] == [];
  }

  /** The `ordering` value for the server: `field` or `-field` per key,
      joined with commas. */
  function OrderingString(sorting: seq<SortKey>): string {
    Text.Join(seq(|sorting|, i requires 0 <= i < |sorting| => KeyText(sorting[i])), ",")
  }

  function KeyText(k: SortKey): string {
    if k.direction == Asc then k.field else "-" + k.field
  }

  /** How the server's ordering filter reads one key. */
  function ParseKey(s: string): SortKey {
    if Text.StartsWith(s, "-") then SortKey(s[1..], Desc) else SortKey(s, Asc)
  }

  /** The ordering sent for a single key is read back as that key by the
      server, for any field name that does not itself start with `-`. */
  lemma OrderingRoundTrip(k: SortKey)
    requires !Text.StartsWith(k.field, "-")
    ensures ParseKey(OrderingString([k])) == k
  {
    assert OrderingString([k]) == KeyText(k);
    if k.direction == Desc {
      assert ("-" + k.field)[1..] == k.field;
    }
  }

  function Flip(d: Direction): Direction {
    if d == Asc then Desc else Asc
  }

  /** The sorting after a click on a column ordered by `field`: a column not
      sorted yet becomes ascending, the sorted one changes direction, and only
      that one key is kept. */
  function NextSorting(sorting: seq<SortKey>, field: string): (r: seq<SortKey>)
    ensures |r| == 1 && r[0].field == field
    ensures (forall i :: 0 <= i < |sorting| ==> sorting[i].field != field) ==> r[0].direction == Asc
    ensures forall i :: 0 <= i < |sorting| && sorting[i].field == field && FirstWith(sorting, field, i) ==>
      r[0].direction != sorting[i].direction
  {
    var existing := FindField(sorting, field);
    match existing
    case Some(k) => [SortKey(field, Flip(k.direction))]
    case None => [SortKey(field, Asc)]
  }

  /** No key before position `i` is for `field`. */
  predicate FirstWith(sorting: seq<SortKey>, field: string, i: int) {
    forall j :: 0 <= j < i && j < |sorting| ==> sorting[j].field != field
  }

  /** `sorting.find(sort => sort.field === field)`: the first key for that
      field. */
  function FindField(sorting: seq<SortKey>, field: string): (r: Option<SortKey>)
    ensures r.Some? ==> r.value in sorting && r.value.field == field
    ensures r.None? <==> forall i :: 0 <= i < |sorting| ==> sorting[i].field != field
    ensures forall i :: 0 <= i < |sorting| && sorting[i].field == field && FirstWith(sorting, field, i) ==>
      r == Some(sorting[i])
  {
    if sorting == [] then None
    else if sorting[0].field == field then Some(sorting[0])
    else
      assert forall i :: 1 <= i < |sorting| && FirstWith(sorting, field, i) ==> FirstWith(sorting[1..], field, i - 1);
      FindField(sorting[1..], field)
  }

  /** Each further click on the same column reverses its direction, so two
      more clicks give back the first click's direction. */
  lemma {:induction false} TwoClicksFlipBack(sorting: seq<SortKey>, field: string)
    ensures NextSorting(NextSorting(sorting, field), field)[0].direction != NextSorting(sorting, field)[0].direction
    ensures NextSorting(NextSorting(NextSorting(sorting, field), field), field) == NextSorting(sorting, field)
  {
    var once := NextSorting(sorting, field);
    assert FindField(once, field) == Some(once[0]);
    var twice := NextSorting(once, field);
    assert FindField(twice, field) == Some(twice[0]);
  }

  // ---------------------------------------------------------------------
  // Row selection

  /** The selection after a row's checkbox is clicked: a selected row is
      removed (every copy), any other row is added at the end. Rows are
      compared by value, where `includes` and `!==` compare the row objects
      by reference: two equal rows from different fetches are one row
      here. */
  function Toggled<T(==)>(selected: seq<T>, row: T): (r: seq<T>)
    ensures row in selected ==> row !in r && forall x :: x in r ==> x in selected
    ensures row in selected ==> forall i :: 0 <= i < |selected| && selected[i] != row ==> selected[i] in r
    ensures row in selected ==> IsSubsequence(r, selected) && |r| == |selected| - multiset(selected)[row]
    ensures row !in selected ==> r == selected + [row]
  {
    if row in selected then
      FilterIsSubsequence(selected, x => x != row);
      FilterDropsAll(selected, row);
      Filter(selected, x => x != row)
    else selected + [row]
  }

  /** Removing every copy of `row` shortens the selection by its number of
      copies. */
  lemma {:induction false} FilterDropsAll<T>(selected: seq<T>, row: T)
    ensures |Filter(selected, x => x != row)| == |selected| - multiset(selected)[row]
  {
    if selected != [] {
      FilterDropsAll(selected[1..], row);
      assert selected == [selected[0]] + selected[1..];
      assert multiset(selected) == multiset([selected[0]]) + multiset(selected[1..]);
    }
  }

  /** Clicking an unselected row twice gives back the selection exactly;
      clicking a selected row twice keeps the same rows selected. */
  lemma ToggledTwice<T>(selected: seq<T>, row: T)
    ensures row !in selected ==> Toggled(Toggled(selected, row), row) == selected
    ensures forall x :: x in Toggled(Toggled(selected, row), row) <==> x in selected
  {
    var p := (x: T) => x != row;
    if row !in selected {
      FilterConcat(selected, [row], p);
      FilterAll(selected, p);
    } else {
      var removed := Filter(selected, p);
      assert Toggled(removed, row) == removed + [row];
      forall x | x in selected
        ensures x in removed + [row]
      {
        if x != row {
          var i :| 0 <= i < |selected| && selected[i] == x;
        }
      }
    }
  }

  lemma ToggledKeepsDistinct<T>(selected: seq<T>, row: T)
    requires NoDuplicates(selected)
    ensures NoDuplicates(Toggled(selected, row))
  {
    if row in selected {
      FilterIsSubsequence(selected, x => x != row);
      SubsequenceDistinct(Filter(selected, x => x != row), selected);
    }
  }

  /** The component's state over the rows `data` it is given. */
  class Table<T(==)> {
    var data: seq<T>
    var allowOrdering: bool
    var selected: seq<T>
    var checked: bool
    var indeterminate: bool
    var sorting: seq<SortKey>
    /** The ordering strings passed to `onOrderingClick`. */
    var orderingCalls: seq<string>

    /** The header checkbox shows the selection as of the last layout
        effect, and no row is selected twice. */
    ghost predicate Valid()
      reads this
    {
      NoDuplicates(selected)
      && checked == (|selected| == |data|)
      && indeterminate == (0 < |selected| < |data|)
    }

    constructor (data: seq<T>, allowOrdering: bool)
      requires NoDuplicates(data)
      ensures Valid()
      ensures this.data == data && this.allowOrdering == allowOrdering
      ensures selected == [] && sorting == [] && orderingCalls == []
    {
      this.data := data;
      this.allowOrdering := allowOrdering;
      selected := [];
      sorting := [];
      orderingCalls := [];
      checked := |data| == 0;
      indeterminate := false;
    }

    /** The layout effect that follows every change of the selection or of
        the number of rows. */
    method SyncChecks()
      modifies this`checked, this`indeterminate
      ensures checked == (|selected| == |data|)
      ensures indeterminate == (0 < |selected| < |data|)
    {
      indeterminate := |selected| > 0 && |selected| < |data|;
      checked := |selected| == |data|;
    }

    /** The header checkbox: clears a full or partial selection, selects
        every row otherwise. */
    method ToggleAll()
      requires Valid() && NoDuplicates(data)
      modifies this`selected, this`checked, this`indeterminate
      ensures Valid()
      ensures old(checked || indeterminate) ==> selected == []
      ensures !old(checked || indeterminate) ==> selected == data && checked
      // in terms of the selection: a partial or full one is cleared, an
      // empty one becomes every row; a selection larger than the rows
      // (left from an earlier `data`) is neither, and becomes every row
      ensures |old(selected)| <= |data| && (old(selected) != [] || |data| == 0) ==> selected == []
      ensures old(selected) == [] && |data| > 0 ==> selected == data
      ensures |old(selected)| > |data| ==> selected == data
    {
      selected := if checked || indeterminate then [] else data;
      checked := !checked && !indeterminate;
      indeterminate := false;
      SyncChecks();
    }

    /** A row's checkbox. */
    method ToggleRow(row: T)
      requires Valid()
      modifies this`selected, this`checked, this`indeterminate
      ensures Valid()
      ensures selected == Toggled(old(selected), row)
    {
      ToggledKeepsDistinct(selected, row);
      selected := if row in selected then Filter(selected, x => x != row) else selected + [row];
      SyncChecks();
    }

    /** A new `data` prop; the selection is kept as it was. */
    method SetData(rows: seq<T>)
      requires Valid()
      modifies this`data, this`checked, this`indeterminate
      ensures Valid() && data == rows && selected == old(selected)
    {
      data := rows;
      SyncChecks();
    }

    /** A click on a column header: ignored unless ordering is allowed;
        otherwise the sorting moves to that column and the new ordering is
        passed on. */
    method HandleSort(accessor: string)
      modifies this`sorting, this`orderingCalls
      ensures !allowOrdering ==> sorting == old(sorting) && orderingCalls == old(orderingCalls)
      ensures allowOrdering ==>
        sorting == NextSorting(old(sorting), SortField(accessor))
        && orderingCalls == old(orderingCalls) + [OrderingString(sorting)]
    {
      if !allowOrdering {
        return;
      }
      var field := SortField(accessor);
      sorting := NextSorting(sorting, field);
      orderingCalls := orderingCalls + [OrderingString(sorting)];
    }
  }
}
