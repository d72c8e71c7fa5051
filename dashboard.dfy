/**
 * The incident table of the admin dashboard (client/src/pages/Dashboard.jsx):
 * the free-text search over the fetched incidents and the query parameters
 * sent for the status, type and severity drop-downs.
 */
module DashboardView {
  import opened Wrappers
  import opened Text
  import opened Seqs

  /**
   * The four fields the search looks at, as the fetched record holds them;
   * a field missing from the record (optional chaining yields `undefined`) is `None`.
   */
  datatype IncidentRow = IncidentRow(
    highway: Option<string>,
    incidentType: Option<string>,
    reporterName: Option<string>,
    description: Option<string>)

  /** `field?.toLowerCase().includes(search.toLowerCase())`. */
  predicate FieldHas(field: Option<string>, search: string)
  {
    field.Some? && Includes(ToLower(field.value), ToLower(search))
  }

  /** A row is kept when any of its four fields contains the search text, ignoring ASCII case. */
  predicate Shown(row: IncidentRow, search: string)
  {
    FieldHas(row.highway, search) || FieldHas(row.incidentType, search)
    || FieldHas(row.reporterName, search) || FieldHas(row.description, search)
  }

  /** `incidents.filter(...)`. */
  function Filtered(rows: seq<IncidentRow>, search: string): (r: seq<IncidentRow>)
    ensures IsSubsequence(r, rows)
    ensures forall x :: x in r <==> x in rows && Shown(x, search)
  {
    FilterIsSubsequence(rows, (x: IncidentRow) => Shown(x, search));
    Filter(rows, (x: IncidentRow) => Shown(x, search))
  }

  /** A row is kept exactly when the search text occurs, case folded, somewhere in one of its fields. */
  lemma ShownIff(row: IncidentRow, search: string)
    ensures Shown(row, search) <==>
      exists f :: f in [row.highway, row.incidentType, row.reporterName, row.description] && f.Some?
        && exists i :: OccursAt(ToLower(f.value), ToLower(search), i)
  {
    var fields := [row.highway, row.incidentType, row.reporterName, row.description];
    forall f | f in fields && f.Some?
      ensures Includes(ToLower(f.value), ToLower(search)) <==> exists i :: OccursAt(ToLower(f.value), ToLower(search), i)
    {
      IncludesIff(ToLower(f.value), ToLower(search));
    }
    assert fields[0] == row.highway && fields[1] == row.incidentType;
    assert fields[2] == row.reporterName && fields[3] == row.description;
  }

  /** The case of the search text does not matter: lower- or upper-casing it keeps the same rows. */
  lemma SearchIgnoresCase(rows: seq<IncidentRow>, search: string)
    ensures Filtered(rows, ToLower(search)) == Filtered(rows, search)
    ensures Filtered(rows, ToUpper(search)) == Filtered(rows, search)
  {
    ToLowerIdempotent(search);
    ToLowerOfUpper(search);
    FilterSame(rows, (x: IncidentRow) => Shown(x, ToLower(search)), (x: IncidentRow) => Shown(x, search));
    FilterSame(rows, (x: IncidentRow) => Shown(x, ToUpper(search)), (x: IncidentRow) => Shown(x, search));
  }

  /** At least one of the four fields is present. */
  predicate AnyPresent(row: IncidentRow)
  {
    row.highway.Some? || row.incidentType.Some? || row.reporterName.Some? || row.description.Some?
  }

  /** An empty search keeps exactly the rows with some field present, in order. */
  lemma EmptySearch(rows: seq<IncidentRow>)
    ensures Filtered(rows, "") == Filter(rows, AnyPresent)
  {
    forall x | x in rows
      ensures Shown(x, "") == AnyPresent(x)
    {
      var fields := [x.highway, x.incidentType, x.reporterName, x.description];
      forall f | f in fields && f.Some?
        ensures Includes(ToLower(f.value), ToLower(""))
      {
        IncludesEmpty(ToLower(f.value));
      }
      assert fields[0] == x.highway && fields[1] == x.incidentType;
      assert fields[2] == x.reporterName && fields[3] == x.description;
    }
    FilterSame(rows, (x: IncidentRow) => Shown(x, ""), AnyPresent);
  }

  /** The drop-down filters; "" means no filter. */
  datatype DropDowns = DropDowns(status: string, incidentType: string, severity: string)

  /** The query parameter names: `status`, `type` and `severity`. */
  datatype ParamKey = StatusKey | TypeKey | SeverityKey

  /** Every drop-down as a query parameter, in the order they are appended. */
  function AllParams(f: DropDowns): seq<(ParamKey, string)>
  {
    [(StatusKey, f.status), (TypeKey, f.incidentType), (SeverityKey, f.severity)]
  }

  predicate NonEmptyValue(p: (ParamKey, string))
  {
    p.1 != ""
  }

  /**
   * The parameter building of `fetchData`: each drop-down with a value is
   * appended in turn.
   */
  method BuildParams(f: DropDowns) returns (params: seq<(ParamKey, string)>)
    ensures params == Filter(AllParams(f), NonEmptyValue)
  {
    var all := AllParams(f);
    params := [];
    if f.status != "" {
      params := params + [(StatusKey, f.status)];
    }
    FilterSnoc([], all[0], NonEmptyValue);
    assert all[..1] == [] + [all[0]];
    if f.incidentType != "" {
      params := params + [(TypeKey, f.incidentType)];
    }
    FilterSnoc(all[..1], all[1], NonEmptyValue);
    assert all[..2] == all[..1] + [all[1]];
    if f.severity != "" {
      params := params + [(SeverityKey, f.severity)];
    }
    FilterSnoc(all[..2], all[2], NonEmptyValue);
    assert all == all[..2] + [all[2]];
  }

  /** The parameters are exactly the drop-downs that have a value, each once, in the fixed order. */
  lemma ParamsExactly(f: DropDowns)
    ensures forall p :: p in Filter(AllParams(f), NonEmptyValue) <==> p in AllParams(f) && p.1 != ""
    ensures IsSubsequence(Filter(AllParams(f), NonEmptyValue), AllParams(f))
  {
    FilterIsSubsequence(AllParams(f), NonEmptyValue);
  }
}
