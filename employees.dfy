/** The `employees` table: one record per person, scoped by organization. */
module Employees {
  import opened Wrappers

  /** A row of the table; `phone`, `hire_date` and `termination_date` may be NULL. */
  datatype Employee = Employee(
    id: string,
    organizationId: string,
    firstName: string,
    lastName: string,
    email: string,
    status: string,
    department: string,
    location: string,
    company: string,
    position: string,
    phone: Option<string>,
    hireDate: Option<string>,
    terminationDate: Option<string>,
    createdAt: string)

  /** A column value as it comes out of the store: text or NULL (`None`). */
  datatype Value = Str(text: string) | Null

  /** A fetched row as a dictionary from column name to value. */
  type Row = map<string, Value>

  /** The table's columns, in declaration order. */
  const TableColumns: seq<string> := [
    "id", "organization_id", "first_name", "last_name", "email", "status", "department",
    "location", "company", "position", "phone", "hire_date", "termination_date", "created_at"]

  function Nullable(o: Option<string>): Value
  {
    match o
    case Some(s) => Str(s)
    case None => Null
  }

  /** `dict(row)` for a row fetched with `SELECT *`: every column of the table is a key. */
  function ToRow(e: Employee): (row: Row)
    ensures forall c :: c in row <==> c in TableColumns
  {
    map[
      "id" := Str(e.id),
      "organization_id" := Str(e.organizationId),
      "first_name" := Str(e.firstName),
      "last_name" := Str(e.lastName),
      "email" := Str(e.email),
      "status" := Str(e.status),
      "department" := Str(e.department),
      "location" := Str(e.location),
      "company" := Str(e.company),
      "position" := Str(e.position),
      "phone" := Nullable(e.phone),
      "hire_date" := Nullable(e.hireDate),
      "termination_date" := Nullable(e.terminationDate),
      "created_at" := Str(e.createdAt)]
  }

  /** The text columns a search can filter on, or list the values of. */
  datatype Field = StatusField | DepartmentField | LocationField | CompanyField | PositionField

  function ColumnName(f: Field): (name: string)
    ensures name in TableColumns
  {
    match f
    case StatusField => "status"
    case DepartmentField => "department"
    case LocationField => "location"
    case CompanyField => "company"
    case PositionField => "position"
  }

  function FieldOf(e: Employee, f: Field): (v: string)
    ensures ToRow(e)[ColumnName(f)] == Str(v)
  {
    match f
    case StatusField => e.status
    case DepartmentField => e.department
    case LocationField => e.location
    case CompanyField => e.company
    case PositionField => e.position
  }
}
