/** Which columns each organization may see (app/__init__.py). */
module OrganizationColumns {
  import opened Employees

  const DefaultColumns: seq<string> :=
    ["first_name", "last_name", "email", "status", "department", "location", "company", "position"]

  /** The static per-organization column configuration; "default" is the fallback entry. */
  const Configured: map<string, seq<string>> := map[
    "org_1" := ["first_name", "last_name", "email", "status", "department", "location", "company", "position", "phone", "hire_date"],
    "org_2" := ["first_name", "last_name", "status", "department", "position", "hire_date"],
    "org_3" := ["first_name", "last_name", "email", "status", "position"],
    "default" := DefaultColumns]

  predicate NoDuplicates(s: seq<string>)
  {
    forall i, j :: 0 <= i < j < |s| ==> s[i] != s[j]
  }

  /**
   * The visible columns of an organization. The lookup is total: an id that is not
   * configured gets the "default" list. Every listed column exists in the table,
   * and no column is listed twice.
   */
  function GetOrganizationColumns(organizationId: string): (columns: seq<string>)
    ensures organizationId in Configured ==> columns == Configured[organizationId]
    ensures organizationId !in Configured ==> columns == DefaultColumns
    ensures forall c :: c in columns ==> c in TableColumns
    ensures NoDuplicates(columns)
  {
    if organizationId in Configured then Configured[organizationId] else Configured["default"]
  }

  /** An organization that is not configured sees exactly the default columns. */
  lemma UnknownOrganizationGetsDefault(organizationId: string)
    requires organizationId !in {"org_1", "org_2", "org_3", "default"}
    ensures GetOrganizationColumns(organizationId) ==
      ["first_name", "last_name", "email", "status", "department", "location", "company", "position"]
  {
  }

  /** The third organization sees name, email, status and position, in that order. */
  lemma Org3Columns()
    ensures GetOrganizationColumns("org_3") == ["first_name", "last_name", "email", "status", "position"]
  {
  }
}
