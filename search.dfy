/**
 * The search service (app/search.py): checks the organization id, keeps the truthy
 * filters, runs the store's search and facet queries, and projects each fetched row
 * onto the organization's visible columns.
 */
module Search {
  import opened Wrappers
  import opened Employees
  import opened OrganizationColumns
  import opened Database

  /** A dictionary with its keys in insertion order, as Python keeps them. */
  datatype Record = Record(keys: seq<string>, values: map<string, Value>)

  /** The keys are listed once each, and are exactly the keys that have a value. */
  ghost predicate WellFormed(r: Record)
  {
    NoDuplicates(r.keys) && forall k :: k in r.keys <==> k in r.values
  }

  /** `record[key] = value`: a new key goes last, an existing one keeps its place. */
  function Put(r: Record, key: string, value: Value): Record
  {
    Record(if key in r.values then r.keys else r.keys + [key], r.values[key := value])
  }

  /** The columns of `allowed` that the row has, in the order of `allowed`. */
  function Present(allowed: seq<string>, row: Row): (present: seq<string>)
    ensures forall c :: c in present <==> c in allowed && c in row
  {
    if allowed == [] then []
    else
      var front := Present(allowed[..|allowed| - 1], row);
      var c := allowed[|allowed| - 1];
      assert forall x :: x in allowed <==> x in allowed[..|allowed| - 1] || x == c by {
        assert allowed == allowed[..|allowed| - 1] + [c];
      }
      if c in row then front + [c] else front
  }

  /** Filtering columns distributes over concatenation, so the kept columns stay in policy order. */
  lemma {:induction false} PresentConcat(a: seq<string>, b: seq<string>, row: Row)
    ensures Present(a + b, row) == Present(a, row) + Present(b, row)
    decreases |b|
  {
    if b == [] {
      assert a + b == a;
    } else {
      var n := |b| - 1;
      assert (a + b)[..|a + b| - 1] == a + b[..n];
      PresentConcat(a, b[..n], row);
    }
  }

  /**
   * The projection of one row onto the allowed columns: the columns of `allowed` the row
   * has, each with the row's value. Columns the row lacks are skipped.
   */
  function ProjectRow(row: Row, allowed: seq<string>): (r: Record)
    ensures WellFormed(r)
    ensures forall c :: c in r.values <==> c in allowed && c in row
    ensures forall c :: c in r.values ==> r.values[c] == row[c]
  {
    if allowed == [] then Record([], map[])
    else
      var front := ProjectRow(row, allowed[..|allowed| - 1]);
      var c := allowed[|allowed| - 1];
      assert forall x :: x in allowed <==> x in allowed[..|allowed| - 1] || x == c by {
        assert allowed == allowed[..|allowed| - 1] + [c];
      }
      if c in row then Put(front, c, row[c]) else front
  }

  /** With no column listed twice, the keys are the present columns in policy order. */
  lemma {:induction false} ProjectRowKeys(row: Row, allowed: seq<string>)
    requires NoDuplicates(allowed)
    ensures ProjectRow(row, allowed).keys == Present(allowed, row)
  {
    if allowed != [] {
      var n := |allowed| - 1;
      ProjectRowKeys(row, allowed[..n]);
      assert allowed[n] !in allowed[..n];
    }
  }

  /** A row of the table projected onto a policy has exactly the policy's columns, in order. */
  lemma PolicyKeys(e: Employee, organizationId: string)
    ensures ProjectRow(ToRow(e), GetOrganizationColumns(organizationId)).keys == GetOrganizationColumns(organizationId)
  {
    var allowed := GetOrganizationColumns(organizationId);
    ProjectRowKeys(ToRow(e), allowed);
    PresentAll(allowed, ToRow(e));
  }

  lemma {:induction false} PresentAll(allowed: seq<string>, row: Row)
    requires forall c :: c in allowed ==> c in row
    ensures Present(allowed, row) == allowed
  {
    if allowed != [] {
      var n := |allowed| - 1;
      assert forall c :: c in allowed[..n] ==> c in allowed;
      PresentAll(allowed[..n], row);
      assert allowed[n] in allowed;
      assert allowed == allowed[..n] + [allowed[n]];
    }
  }

  /** The third organization sees each employee as first name, last name, email, status and position. */
  lemma Org3RecordKeys(e: Employee)
    ensures ProjectRow(ToRow(e), GetOrganizationColumns("org_3")).keys ==
      ["first_name", "last_name", "email", "status", "position"]
  {
    PolicyKeys(e, "org_3");
  }

  /** Projects every row, keeping their order (the nested loops of app/search.py:40-46). */
  method ProjectRows(rows: seq<Row>, allowed: seq<string>) returns (records: seq<Record>)
    ensures |records| == |rows|
    ensures forall i :: 0 <= i < |rows| ==> records[i] == ProjectRow(rows[i], allowed)
  {
    records := [];
    var i := 0;
    while i < |rows|
      invariant 0 <= i <= |rows|
      invariant |records| == i
      invariant forall k :: 0 <= k < i ==> records[k] == ProjectRow(rows[k], allowed)
    {
      var row := rows[i];
      var keys: seq<string> := [];
      var values: map<string, Value> := map[];
      var j := 0;
      while j < |allowed|
        invariant 0 <= j <= |allowed|
        invariant Record(keys, values) == ProjectRow(row, allowed[..j])
      {
        assert allowed[..j + 1][..j] == allowed[..j];
        var column := allowed[j];
        if column in row {
          if column !in values {
            keys := keys + [column];
          }
          values := values[column := row[column]];
        }
        j := j + 1;
      }
      assert allowed[..|allowed|] == allowed;
      records := records + [Record(keys, values)];
      i := i + 1;
    }
  }

  /** The search arguments: the filters as given, before falsy ones are dropped. */
  datatype Arguments = Arguments(
    query: Option<string>,
    status: Option<FilterValue>,
    department: Option<FilterValue>,
    location: Option<FilterValue>,
    company: Option<FilterValue>,
    position: Option<string>)

  /**
   * The filters dictionary built from the arguments (app/search.py:16-28): a key is
   * present exactly when its argument is truthy, and then holds that argument unchanged.
   */
  method BuildFilters(args: Arguments) returns (filters: Filters)
    ensures filters.query.Some? <==> TruthyText(args.query)
    ensures filters.query.Some? ==> filters.query == args.query
    ensures filters.status.Some? <==> TruthyValue(args.status)
    ensures filters.status.Some? ==> filters.status == args.status
    ensures filters.department.Some? <==> TruthyValue(args.department)
    ensures filters.department.Some? ==> filters.department == args.department
    ensures filters.location.Some? <==> TruthyValue(args.location)
    ensures filters.location.Some? ==> filters.location == args.location
    ensures filters.company.Some? <==> TruthyValue(args.company)
    ensures filters.company.Some? ==> filters.company == args.company
    ensures filters.position.Some? <==> TruthyText(args.position)
    ensures filters.position.Some? ==> filters.position == args.position
  {
    filters := Filters(None, None, None, None, None, None);
    if TruthyText(args.query) {
      filters := filters.(query := args.query);
    }
    if TruthyValue(args.status) {
      filters := filters.(status := args.status);
    }
    if TruthyValue(args.department) {
      filters := filters.(department := args.department);
    }
    if TruthyValue(args.location) {
      filters := filters.(location := args.location);
    }
    if TruthyValue(args.company) {
      filters := filters.(company := args.company);
    }
    if TruthyText(args.position) {
      filters := filters.(position := args.position);
    }
  }

  /** The arguments read directly as filters, falsy ones included. */
  function AsFilters(args: Arguments): Filters
  {
    Filters(args.query, args.status, args.department, args.location, args.company, args.position)
  }

  /**
   * Dropping the falsy arguments changes nothing the store sees, since the store skips
   * falsy filters itself.
   */
  lemma DroppingFalsyKeepsConditions(organizationId: string, args: Arguments, filters: Filters)
    requires filters.query.Some? <==> TruthyText(args.query)
    requires filters.query.Some? ==> filters.query == args.query
    requires filters.status.Some? <==> TruthyValue(args.status)
    requires filters.status.Some? ==> filters.status == args.status
    requires filters.department.Some? <==> TruthyValue(args.department)
    requires filters.department.Some? ==> filters.department == args.department
    requires filters.location.Some? <==> TruthyValue(args.location)
    requires filters.location.Some? ==> filters.location == args.location
    requires filters.company.Some? <==> TruthyValue(args.company)
    requires filters.company.Some? ==> filters.company == args.company
    requires filters.position.Some? <==> TruthyText(args.position)
    requires filters.position.Some? ==> filters.position == args.position
    ensures Conditions(organizationId, filters) == Conditions(organizationId, AsFilters(args))
  {
  }

  /** The organization id is missing or empty (raised as a `ValueError` in the source). */
  datatype SearchError = OrganizationIdRequired

  /** Projected employees, the count of all matches, and the organization's filter choices. */
  datatype SearchResponse = SearchResponse(
    employees: seq<Record>,
    totalCount: nat,
    availableFilters: AvailableFilters)

  /**
   * A search (app/search.py:10-48). Without an organization id it fails before touching
   * the store. Otherwise it returns the page of matches projected onto the organization's
   * columns, the number of all matches, and the organization's filter choices, which do
   * not depend on the filters.
   */
  method SearchEmployees(store: seq<Employee>, args: Arguments, limit: int := 50, offset: int := 0,
                         organizationId: Option<string> := None)
    returns (result: Result<SearchResponse, SearchError>)
    ensures !TruthyText(organizationId) <==> result == Failure(OrganizationIdRequired)
    ensures TruthyText(organizationId) ==>
      var org := organizationId.value;
      var page := Results(store, org, AsFilters(args), limit, offset);
      && result.Success?
      && result.value.totalCount == |Matching(store, org, AsFilters(args))|
      && |result.value.employees| == |page|
      && (forall i :: 0 <= i < |page| ==>
            result.value.employees[i] == ProjectRow(ToRow(page[i]), GetOrganizationColumns(org)))
      && result.value.availableFilters == GetAvailableFilters(store, org)
  {
    if !TruthyText(organizationId) {
      return Failure(OrganizationIdRequired);
    }
    var org := organizationId.value;
    var filters := BuildFilters(args);
    DroppingFalsyKeepsConditions(org, args, filters);
    var employees, totalCount := Database.SearchEmployees(store, org, filters, limit, offset);
    var availableFilters := GetAvailableFilters(store, org);
    var allowedColumns := GetOrganizationColumns(org);
    var filteredEmployees := ProjectRows(employees, allowedColumns);
    return Success(SearchResponse(filteredEmployees, totalCount, availableFilters));
  }

  /** Every record a search returns has exactly the organization's visible columns, in order. */
  lemma RecordsHavePolicyColumns(store: seq<Employee>, organizationId: string, args: Arguments,
                                 limit: int, offset: int, records: seq<Record>)
    requires |records| == |Results(store, organizationId, AsFilters(args), limit, offset)|
    requires forall i :: 0 <= i < |records| ==>
      records[i] == ProjectRow(ToRow(Results(store, organizationId, AsFilters(args), limit, offset)[i]),
                               GetOrganizationColumns(organizationId))
    ensures forall r :: r in records ==> r.keys == GetOrganizationColumns(organizationId)
  {
    var page := Results(store, organizationId, AsFilters(args), limit, offset);
    forall r | r in records ensures r.keys == GetOrganizationColumns(organizationId) {
      var i :| 0 <= i < |records| && records[i] == r;
      PolicyKeys(page[i], organizationId);
    }
  }

  /**
   * The status-list search test as the first organization sees it: every record's status,
   * which that organization may see, is "active" or "not_started".
   */
  lemma Org1StatusListRecords(store: seq<Employee>, args: Arguments, limit: int, offset: int, records: seq<Record>)
    requires args.status == Some(Many(["active", "not_started"]))
    requires |records| == |Results(store, "org_1", AsFilters(args), limit, offset)|
    requires forall i :: 0 <= i < |records| ==>
      records[i] == ProjectRow(ToRow(Results(store, "org_1", AsFilters(args), limit, offset)[i]),
                               GetOrganizationColumns("org_1"))
    ensures forall r :: r in records ==>
      "status" in r.values && (r.values["status"] == Str("active") || r.values["status"] == Str("not_started"))
  {
    var page := Results(store, "org_1", AsFilters(args), limit, offset);
    var allowed := GetOrganizationColumns("org_1");
    assert "status" in allowed by {
      assert allowed[3] == "status";
    }
    StatusListFilter(store, "org_1", AsFilters(args), limit, offset);
    ProjectedPageStatuses(page, allowed, records);
  }

  /** The records projected from a page of such employees show their statuses. */
  lemma ProjectedPageStatuses(page: seq<Employee>, allowed: seq<string>, records: seq<Record>)
    requires "status" in allowed
    requires forall e :: e in page ==> e.status == "active" || e.status == "not_started"
    requires |records| == |page|
    requires forall i :: 0 <= i < |records| ==> records[i] == ProjectRow(ToRow(page[i]), allowed)
    ensures forall r :: r in records ==>
      "status" in r.values && (r.values["status"] == Str("active") || r.values["status"] == Str("not_started"))
  {
    RowStatuses(page);
    ProjectedStatuses(Rows(page), allowed, records);
  }

  /** The fetched rows of employees whose status is "active" or "not_started" hold that status. */
  lemma RowStatuses(page: seq<Employee>)
    requires forall e :: e in page ==> e.status == "active" || e.status == "not_started"
    ensures forall i :: 0 <= i < |page| ==>
      "status" in Rows(page)[i] && (Rows(page)[i]["status"] == Str("active") || Rows(page)[i]["status"] == Str("not_started"))
  {
    forall i | 0 <= i < |page|
      ensures "status" in Rows(page)[i] &&
        (Rows(page)[i]["status"] == Str("active") || Rows(page)[i]["status"] == Str("not_started"))
    {
      assert page[i] in page;
      RowStatus(page[i]);
    }
  }

  /** Projecting rows whose status is "active" or "not_started" onto columns that include status shows that status. */
  lemma ProjectedStatuses(rows: seq<Row>, allowed: seq<string>, records: seq<Record>)
    requires "status" in allowed
    requires forall i :: 0 <= i < |rows| ==>
      "status" in rows[i] && (rows[i]["status"] == Str("active") || rows[i]["status"] == Str("not_started"))
    requires |records| == |rows|
    requires forall i :: 0 <= i < |records| ==> records[i] == ProjectRow(rows[i], allowed)
    ensures forall r :: r in records ==>
      "status" in r.values && (r.values["status"] == Str("active") || r.values["status"] == Str("not_started"))
  {
  }

  /** A fetched row's status column holds the employee's status. */
  lemma RowStatus(e: Employee)
    ensures "status" in ToRow(e) && ToRow(e)["status"] == Str(e.status)
  {
    assert ToRow(e)[ColumnName(StatusField)] == Str(FieldOf(e, StatusField));
  }
}
