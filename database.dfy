/**
 * The employee store's search and facet queries (app/database.py).
 * The WHERE clause is built step by step, as the source does. What the store then
 * returns is given as functions over the table's rows, in table order.
 */
module Database {
  import opened Wrappers
  import opened Text
  import opened Employees

  /** A filter argument is one value or a list of values. */
  datatype FilterValue = Single(value: string) | Many(values: seq<string>)

  /** The filters dictionary; an absent key is `None`. */
  datatype Filters = Filters(
    query: Option<string>,
    status: Option<FilterValue>,
    department: Option<FilterValue>,
    location: Option<FilterValue>,
    company: Option<FilterValue>,
    position: Option<string>)

  /** Python truthiness of an optional string: present and non-empty. */
  predicate TruthyText(o: Option<string>)
  {
    o.Some? && o.value != ""
  }

  /** Python truthiness of an optional filter value: a non-empty string or a non-empty list. */
  predicate TruthyValue(o: Option<FilterValue>)
  {
    match o
    case None => false
    case Some(Single(s)) => s != ""
    case Some(Many(vs)) => vs != []
  }

  /** A bound parameter of a query. */
  datatype Param = TextParam(text: string) | IntParam(number: int)

  /** One WHERE condition, as built by the search. */
  datatype Condition =
    | OrganizationIs(organizationId: string)
    | TextSearch(query: string)
    | FieldEquals(field: Field, value: string)
    | FieldIn(field: Field, values: seq<string>)
    | PositionLike(position: string)

  /** The LIKE pattern `%s%`. */
  function LikePattern(s: string): string
  {
    "%" + s + "%"
  }

  /** A parameter placeholder. */
  const Slot := "?"

  /** `','.join('?' for each of k values)`. */
  function Placeholders(k: nat): string
  {
    if k == 0 then "" else if k == 1 then Slot else Slot + "," + Placeholders(k - 1)
  }

  lemma {:induction false} PlaceholdersCount(k: nat)
    ensures Count(Placeholders(k), '?') == k
  {
    if k == 1 {
      SlotAfter("");
    } else if k > 1 {
      PlaceholdersCount(k - 1);
      SlotAfter("");
      CountConcat(Slot, ",", '?');
      CountAbsent(",", '?');
      CountConcat(Slot + ",", Placeholders(k - 1), '?');
    }
  }

  /** `column LIKE ?` */
  function Like(column: string): string
  {
    column + " LIKE " + Slot
  }

  /** The free-text condition: any of the four text columns contains the term. */
  const TextSearchSql: string :=
    "(" + Join([Like("first_name"), Like("last_name"), Like("email"), Like("position")], " OR ") + ")"

  /** The SQL text of a condition. */
  function Sql(c: Condition): string
  {
    match c
    case OrganizationIs(_) => "organization_id = " + Slot
    case TextSearch(_) => TextSearchSql
    case FieldEquals(f, _) => ColumnName(f) + " = " + Slot
    case FieldIn(f, vs) => ColumnName(f) + " IN (" + Placeholders(|vs|) + ")"
    case PositionLike(_) => Like("position")
  }

  /** Text with no placeholder of its own, followed by one placeholder. */
  lemma SlotAfter(text: string)
    requires '?' !in text
    ensures Count(text + Slot, '?') == 1
  {
    CountConcat(text, Slot, '?');
    CountAbsent(text, '?');
  }

  lemma LikeCount(column: string)
    requires '?' !in column
    ensures Count(Like(column), '?') == 1
  {
    assert '?' !in column + " LIKE ";
    SlotAfter(column + " LIKE ");
  }

  lemma Enclosed(open: string, inner: string, close: string)
    requires '?' !in open && '?' !in close
    ensures Count(open + inner + close, '?') == Count(inner, '?')
  {
    CountConcat(open, inner, '?');
    CountConcat(open + inner, close, '?');
    CountAbsent(open, '?');
    CountAbsent(close, '?');
  }

  lemma TextSearchCount()
    ensures Count(TextSearchSql, '?') == 4
  {
    var likes := [Like("first_name"), Like("last_name"), Like("email"), Like("position")];
    LikeCount("first_name");
    LikeCount("last_name");
    LikeCount("email");
    LikeCount("position");
    CountAbsent(" OR ", '?');
    CountJoin(likes, " OR ", '?');
    assert SumCounts(likes, '?') == 4 by {
      assert likes[1..][1..][1..][1..] == [];
    }
    Enclosed("(", Join(likes, " OR "), ")");
  }

  function TextParams(vs: seq<string>): (ps: seq<Param>)
    ensures |ps| == |vs| && forall i :: 0 <= i < |vs| ==> ps[i] == TextParam(vs[i])
  {
    if vs == [] then [] else [TextParam(vs[0])] + TextParams(vs[1..])
  }

  /** The parameters a condition binds, in the order of its placeholders. */
  function Bind(c: Condition): seq<Param>
  {
    match c
    case OrganizationIs(o) => [TextParam(o)]
    case TextSearch(q) =>
      var term := TextParam(LikePattern(q));
      [term, term, term, term]
    case FieldEquals(_, v) => [TextParam(v)]
    case FieldIn(_, vs) => TextParams(vs)
    case PositionLike(p) => [TextParam(LikePattern(p))]
  }

  lemma ColumnNameFree(f: Field)
    ensures '?' !in ColumnName(f)
  {
  }

  /** Every condition has as many placeholders as it binds parameters. */
  lemma SqlMatchesBind(c: Condition)
    ensures Count(Sql(c), '?') == |Bind(c)|
  {
    match c
    case OrganizationIs(_) =>
      SlotAfter("organization_id = ");
    case TextSearch(_) =>
      TextSearchCount();
    case FieldEquals(f, _) =>
      ColumnNameFree(f);
      assert '?' !in ColumnName(f) + " = ";
      SlotAfter(ColumnName(f) + " = ");
    case FieldIn(f, vs) =>
      ColumnNameFree(f);
      assert '?' !in ColumnName(f) + " IN (";
      PlaceholdersCount(|vs|);
      Enclosed(ColumnName(f) + " IN (", Placeholders(|vs|), ")");
    case PositionLike(_) =>
      LikeCount("position");
  }

  function BindAll(cs: seq<Condition>): seq<Param>
  {
    if cs == [] then [] else Bind(cs[0]) + BindAll(cs[1..])
  }

  lemma {:induction false} BindAllAppend(cs: seq<Condition>, c: Condition)
    ensures BindAll(cs + [c]) == BindAll(cs) + Bind(c)
  {
    if cs == [] {
      assert BindAll([c]) == Bind(c) + BindAll([]);
    } else {
      assert (cs + [c])[1..] == cs[1..] + [c];
      BindAllAppend(cs[1..], c);
    }
  }

  function Render(cs: seq<Condition>): seq<string>
  {
    if cs == [] then [] else [Sql(cs[0])] + Render(cs[1..])
  }

  /** `" AND ".join(where_conditions)`. */
  function WhereClause(cs: seq<Condition>): string
  {
    Join(Render(cs), " AND ")
  }

  /** The WHERE clause has exactly as many placeholders as the conditions bind parameters. */
  lemma {:induction false} WhereClauseMatchesParams(cs: seq<Condition>)
    ensures Count(WhereClause(cs), '?') == |BindAll(cs)|
  {
    CountJoin(Render(cs), " AND ", '?');
    SumCountsRender(cs);
  }

  lemma {:induction false} SumCountsRender(cs: seq<Condition>)
    ensures SumCounts(Render(cs), '?') == |BindAll(cs)|
  {
    if cs != [] {
      SqlMatchesBind(cs[0]);
      SumCountsRender(cs[1..]);
    }
  }

  /** `SELECT * … WHERE … ORDER BY first_name, last_name LIMIT ? OFFSET ?` */
  function SearchSql(whereClause: string): string
  {
    "SELECT * FROM employees WHERE " + whereClause + " ORDER BY first_name, last_name LIMIT " + Slot + " OFFSET " + Slot
  }

  lemma SearchSqlCount(whereClause: string)
    ensures Count(SearchSql(whereClause), '?') == Count(whereClause, '?') + 2
  {
    var select := "SELECT * FROM employees WHERE ";
    var order := " ORDER BY first_name, last_name LIMIT ";
    var offset := " OFFSET ";
    assert '?' !in select && '?' !in order && '?' !in offset;
    var head := select + whereClause + order;
    Enclosed(select, whereClause, order);
    SlotAfter(offset);
    CountConcat(head, Slot, '?');
    SlotAfter("");
    CountConcat(head + Slot, offset + Slot, '?');
    assert SearchSql(whereClause) == (head + Slot) + (offset + Slot);
  }

  /**
   * The page query's placeholders are matched one for one by the filter parameters
   * followed by the limit and the offset.
   */
  lemma SearchSqlMatchesParams(cs: seq<Condition>, limit: int, offset: int)
    ensures Count(SearchSql(WhereClause(cs)), '?') == |BindAll(cs) + [IntParam(limit), IntParam(offset)]|
  {
    WhereClauseMatchesParams(cs);
    SearchSqlCount(WhereClause(cs));
  }

  /** The condition a filter field contributes: none when falsy, `=` for one value, `IN` for a list. */
  function FieldConditions(f: Field, v: Option<FilterValue>): seq<Condition>
  {
    if !TruthyValue(v) then []
    else match v.value
      case Single(s) => [FieldEquals(f, s)]
      case Many(vs) => [FieldIn(f, vs)]
  }

  /**
   * The WHERE conditions of a search, in the order the source adds them: organization,
   * free text, status, department, location, company, position.
   */
  function Conditions(organizationId: string, filters: Filters): seq<Condition>
  {
    [OrganizationIs(organizationId)]
    + (if TruthyText(filters.query) then [TextSearch(filters.query.value)] else [])
    + FieldConditions(StatusField, filters.status)
    + FieldConditions(DepartmentField, filters.department)
    + FieldConditions(LocationField, filters.location)
    + FieldConditions(CompanyField, filters.company)
    + (if TruthyText(filters.position) then [PositionLike(filters.position.value)] else [])
  }

  /** The number of truthy filters. */
  function TruthyCount(filters: Filters): nat
  {
    (if TruthyText(filters.query) then 1 else 0)
    + (if TruthyValue(filters.status) then 1 else 0)
    + (if TruthyValue(filters.department) then 1 else 0)
    + (if TruthyValue(filters.location) then 1 else 0)
    + (if TruthyValue(filters.company) then 1 else 0)
    + (if TruthyText(filters.position) then 1 else 0)
  }

  /**
   * The first condition is always the organization's, bound to the organization id first;
   * each truthy filter adds one condition and each falsy one adds none.
   */
  lemma ConditionsShape(organizationId: string, filters: Filters)
    ensures var cs := Conditions(organizationId, filters);
      && |cs| == 1 + TruthyCount(filters)
      && cs[0] == OrganizationIs(organizationId)
      && BindAll(cs)[0] == TextParam(organizationId)
  {
  }

  /**
   * Builds the WHERE conditions and their parameters, appending one filter at a time
   * (app/database.py:117-165). The placeholders of the joined clause match the parameters.
   */
  method BuildWhere(organizationId: string, filters: Filters)
    returns (whereConditions: seq<Condition>, params: seq<Param>)
    ensures whereConditions == Conditions(organizationId, filters)
    ensures params == BindAll(whereConditions)
    ensures Count(WhereClause(whereConditions), '?') == |params|
  {
    whereConditions := [OrganizationIs(organizationId)];
    params := [TextParam(organizationId)];
    assert params == BindAll(whereConditions);

    if TruthyText(filters.query) {
      var term := TextParam(LikePattern(filters.query.value));
      BindAllAppend(whereConditions, TextSearch(filters.query.value));
      whereConditions := whereConditions + [TextSearch(filters.query.value)];
      params := params + [term, term, term, term];
    }
    ghost var expected := [OrganizationIs(organizationId)]
      + (if TruthyText(filters.query) then [TextSearch(filters.query.value)] else []);
    assert whereConditions == expected;
    whereConditions, params := AddField(StatusField, filters.status, whereConditions, params);
    expected := expected + FieldConditions(StatusField, filters.status);
    whereConditions, params := AddField(DepartmentField, filters.department, whereConditions, params);
    expected := expected + FieldConditions(DepartmentField, filters.department);
    whereConditions, params := AddField(LocationField, filters.location, whereConditions, params);
    expected := expected + FieldConditions(LocationField, filters.location);
    whereConditions, params := AddField(CompanyField, filters.company, whereConditions, params);
    expected := expected + FieldConditions(CompanyField, filters.company);
    assert whereConditions == expected;
    if TruthyText(filters.position) {
      BindAllAppend(whereConditions, PositionLike(filters.position.value));
      whereConditions := whereConditions + [PositionLike(filters.position.value)];
      params := params + [TextParam(LikePattern(filters.position.value))];
    }
    expected := expected + (if TruthyText(filters.position) then [PositionLike(filters.position.value)] else []);
    assert whereConditions == expected;
    assert expected == Conditions(organizationId, filters);
    WhereClauseMatchesParams(whereConditions);
  }

  /** The block the source repeats for status, department, location and company. */
  method AddField(f: Field, v: Option<FilterValue>, conditions: seq<Condition>, params: seq<Param>)
    returns (conditions': seq<Condition>, params': seq<Param>)
    requires params == BindAll(conditions)
    ensures conditions' == conditions + FieldConditions(f, v)
    ensures params' == BindAll(conditions')
  {
    conditions', params' := conditions, params;
    if TruthyValue(v) {
      match v.value
      case Many(vs) =>
        BindAllAppend(conditions, FieldIn(f, vs));
        conditions' := conditions + [FieldIn(f, vs)];
        params' := params + TextParams(vs);
      case Single(s) =>
        BindAllAppend(conditions, FieldEquals(f, s));
        conditions' := conditions + [FieldEquals(f, s)];
        params' := params + [TextParam(s)];
    } else {
      assert conditions + [] == conditions;
    }
  }

  /** A condition holds of a row; `LIKE '%x%'` is substring containment. */
  predicate Holds(c: Condition, e: Employee)
  {
    match c
    case OrganizationIs(o) => e.organizationId == o
    case TextSearch(q) =>
      Contains(e.firstName, q) || Contains(e.lastName, q) || Contains(e.email, q) || Contains(e.position, q)
    case FieldEquals(f, v) => FieldOf(e, f) == v
    case FieldIn(f, vs) => FieldOf(e, f) in vs
    case PositionLike(p) => Contains(e.position, p)
  }

  predicate AllHold(cs: seq<Condition>, e: Employee)
  {
    forall i :: 0 <= i < |cs| ==> Holds(cs[i], e)
  }

  /** A row passes a filter value: equal to the single value, or one of the listed values. */
  predicate Accepts(v: FilterValue, x: string)
  {
    match v
    case Single(s) => x == s
    case Many(vs) => x in vs
  }

  /**
   * What a search means, stated directly from the filters: the row belongs to the
   * organization, and each truthy filter accepts it.
   */
  predicate Satisfies(organizationId: string, filters: Filters, e: Employee)
  {
    && e.organizationId == organizationId
    && (TruthyText(filters.query) ==>
          var q := filters.query.value;
          Contains(e.firstName, q) || Contains(e.lastName, q) || Contains(e.email, q) || Contains(e.position, q))
    && (TruthyValue(filters.status) ==> Accepts(filters.status.value, e.status))
    && (TruthyValue(filters.department) ==> Accepts(filters.department.value, e.department))
    && (TruthyValue(filters.location) ==> Accepts(filters.location.value, e.location))
    && (TruthyValue(filters.company) ==> Accepts(filters.company.value, e.company))
    && (TruthyText(filters.position) ==> Contains(e.position, filters.position.value))
  }

  lemma AllHoldConcat(a: seq<Condition>, b: seq<Condition>, e: Employee)
    ensures AllHold(a + b, e) <==> AllHold(a, e) && AllHold(b, e)
  {
    if AllHold(a, e) && AllHold(b, e) {
      forall i | 0 <= i < |a + b| ensures Holds((a + b)[i], e) {
        if i >= |a| {
          assert (a + b)[i] == b[i - |a|];
        }
      }
    }
    if AllHold(a + b, e) {
      forall i | 0 <= i < |a| ensures Holds(a[i], e) {
        assert (a + b)[i] == a[i];
      }
      forall i | 0 <= i < |b| ensures Holds(b[i], e) {
        assert (a + b)[|a| + i] == b[i];
      }
    }
  }

  lemma FieldConditionsMeaning(f: Field, v: Option<FilterValue>, e: Employee)
    ensures AllHold(FieldConditions(f, v), e) <==> (TruthyValue(v) ==> Accepts(v.value, FieldOf(e, f)))
  {
    if TruthyValue(v) {
      match v.value
      case Single(s) => assert FieldConditions(f, v)[0] == FieldEquals(f, s);
      case Many(vs) => assert FieldConditions(f, v)[0] == FieldIn(f, vs);
    }
  }

  /** The conjunction of the built conditions is exactly the direct meaning of the filters. */
  lemma ConditionsMeaning(organizationId: string, filters: Filters, e: Employee)
    ensures AllHold(Conditions(organizationId, filters), e) <==> Satisfies(organizationId, filters, e)
  {
    var q := if TruthyText(filters.query) then [TextSearch(filters.query.value)] else [];
    var s := FieldConditions(StatusField, filters.status);
    var d := FieldConditions(DepartmentField, filters.department);
    var l := FieldConditions(LocationField, filters.location);
    var c := FieldConditions(CompanyField, filters.company);
    var p := if TruthyText(filters.position) then [PositionLike(filters.position.value)] else [];
    var o := [OrganizationIs(organizationId)];
    AllHoldConcat(o, q, e);
    AllHoldConcat(o + q, s, e);
    AllHoldConcat(o + q + s, d, e);
    AllHoldConcat(o + q + s + d, l, e);
    AllHoldConcat(o + q + s + d + l, c, e);
    AllHoldConcat(o + q + s + d + l + c, p, e);
    assert AllHold(o, e) <==> e.organizationId == organizationId by {
      assert o[0] == OrganizationIs(organizationId);
    }
    if TruthyText(filters.query) {
      assert q[0] == TextSearch(filters.query.value);
    }
    if TruthyText(filters.position) {
      assert p[0] == PositionLike(filters.position.value);
    }
    FieldConditionsMeaning(StatusField, filters.status, e);
    FieldConditionsMeaning(DepartmentField, filters.department, e);
    FieldConditionsMeaning(LocationField, filters.location, e);
    FieldConditionsMeaning(CompanyField, filters.company, e);
  }

  /** The rows of the table for which every condition holds, in table order. */
  function Select(store: seq<Employee>, cs: seq<Condition>): (selected: seq<Employee>)
    ensures |selected| <= |store|
    ensures forall e :: e in selected <==> e in store && AllHold(cs, e)
  {
    if store == [] then []
    else (if AllHold(cs, store[0]) then [store[0]] else []) + Select(store[1..], cs)
  }

  /** Selecting keeps each chosen row as often as the table holds it, and drops every other row. */
  lemma {:induction false} SelectMultiplicity(store: seq<Employee>, cs: seq<Condition>, e: Employee)
    ensures multiset(Select(store, cs))[e] == if AllHold(cs, e) then multiset(store)[e] else 0
  {
    if store != [] {
      SelectMultiplicity(store[1..], cs, e);
      assert store == [store[0]] + store[1..];
    }
  }

  /** Selecting distributes over concatenation, so the selected rows keep table order. */
  lemma {:induction false} SelectConcat(a: seq<Employee>, b: seq<Employee>, cs: seq<Condition>)
    ensures Select(a + b, cs) == Select(a, cs) + Select(b, cs)
  {
    if a == [] {
      assert a + b == b;
    } else {
      assert (a + b)[1..] == a[1..] + b;
      SelectConcat(a[1..], b, cs);
    }
  }

  /** All rows a search matches (the set COUNT(*) counts), in table order. */
  function Matching(store: seq<Employee>, organizationId: string, filters: Filters): seq<Employee>
  {
    Select(store, Conditions(organizationId, filters))
  }

  lemma MatchingMeaning(store: seq<Employee>, organizationId: string, filters: Filters, e: Employee)
    ensures e in Matching(store, organizationId, filters) <==> e in store && Satisfies(organizationId, filters, e)
  {
    ConditionsMeaning(organizationId, filters, e);
  }

  /** `ORDER BY first_name, last_name`. */
  predicate NameLess(a: Employee, b: Employee)
  {
    Less(a.firstName, b.firstName) || (a.firstName == b.firstName && Less(a.lastName, b.lastName))
  }

  lemma NameLessIrreflexive(a: Employee)
    ensures !NameLess(a, a)
  {
    LessIrreflexive(a.firstName);
    LessIrreflexive(a.lastName);
  }

  lemma NameLessTransitive(a: Employee, b: Employee, c: Employee)
    requires NameLess(a, b) && NameLess(b, c)
    ensures NameLess(a, c)
  {
    if Less(a.firstName, b.firstName) && Less(b.firstName, c.firstName) {
      LessTransitive(a.firstName, b.firstName, c.firstName);
    } else if a.firstName == b.firstName == c.firstName {
      LessTransitive(a.lastName, b.lastName, c.lastName);
    }
  }

  predicate SortedByName(s: seq<Employee>)
  {
    forall i, j :: 0 <= i < j < |s| ==> !NameLess(s[j], s[i])
  }

  /** A row that sorts strictly before the head of a sorted list can go in front of it. */
  lemma SortedCons(x: Employee, s: seq<Employee>)
    requires SortedByName(s)
    requires forall y :: y in s ==> !NameLess(y, x)
    ensures SortedByName([x] + s)
  {
    forall i, j | 0 <= i < j < |[x] + s| ensures !NameLess(([x] + s)[j], ([x] + s)[i]) {
      if i > 0 {
        assert ([x] + s)[j] == s[j - 1] && ([x] + s)[i] == s[i - 1];
      } else {
        assert ([x] + s)[j] == s[j - 1];
      }
    }
  }

  lemma BeforeHead(e: Employee, s: seq<Employee>)
    requires SortedByName(s) && s != [] && NameLess(e, s[0])
    ensures forall y :: y in s ==> !NameLess(y, e)
  {
    forall y | y in s ensures !NameLess(y, e) {
      if NameLess(y, e) {
        NameLessTransitive(y, e, s[0]);
        var j :| 0 <= j < |s| && s[j] == y;
        if j == 0 {
          NameLessIrreflexive(y);
        }
        assert false;
      }
    }
  }

  /** Inserts `e` after every row that does not sort after it, so equal names keep table order. */
  function InsertByName(e: Employee, s: seq<Employee>): (r: seq<Employee>)
    requires SortedByName(s)
    ensures SortedByName(r)
    ensures multiset(r) == multiset(s) + multiset{e}
  {
    if s == [] then [e]
    else if NameLess(e, s[0]) then
      BeforeHead(e, s);
      SortedCons(e, s);
      [e] + s
    else
      var rest := InsertByName(e, s[1..]);
      assert s == [s[0]] + s[1..];
      assert forall y :: y in rest ==> !NameLess(y, s[0]) by {
        forall y | y in rest ensures !NameLess(y, s[0]) {
          assert y in multiset(rest);
          if y != e {
            var j :| 0 <= j < |s[1..]| && s[1..][j] == y;
            assert s[j + 1] == y;
          }
        }
      }
      SortedCons(s[0], rest);
      [s[0]] + rest
  }

  /**
   * The rows in name order; a permutation of its input. Each row is inserted after the
   * earlier ones of equal name, so ties keep table order.
   */
  function SortByName(s: seq<Employee>): (r: seq<Employee>)
    ensures SortedByName(r)
    ensures multiset(r) == multiset(s)
  {
    if s == [] then []
    else
      var n := |s| - 1;
      assert s == s[..n] + [s[n]];
      InsertByName(s[n], SortByName(s[..n]))
  }

  /** Two rows that tie under `ORDER BY first_name, last_name`. */
  predicate SameName(a: Employee, b: Employee)
  {
    a.firstName == b.firstName && a.lastName == b.lastName
  }

  /** The rows of `s` that tie with `x`, in the order of `s`. */
  function Ties(s: seq<Employee>, x: Employee): seq<Employee>
  {
    if s == [] then []
    else Ties(s[..|s| - 1], x) + (if SameName(s[|s| - 1], x) then [s[|s| - 1]] else [])
  }

  lemma {:induction false} TiesConcat(a: seq<Employee>, b: seq<Employee>, x: Employee)
    ensures Ties(a + b, x) == Ties(a, x) + Ties(b, x)
    decreases |b|
  {
    if b == [] {
      assert a + b == a;
    } else {
      var n := |b| - 1;
      assert (a + b)[..|a + b| - 1] == a + b[..n];
      TiesConcat(a, b[..n], x);
    }
  }

  lemma {:induction false} TiesNone(s: seq<Employee>, x: Employee)
    requires forall y :: y in s ==> !SameName(y, x)
    ensures Ties(s, x) == []
  {
    if s != [] {
      var n := |s| - 1;
      assert forall y :: y in s[..n] ==> y in s;
      assert s[n] in s;
      TiesNone(s[..n], x);
    }
  }

  /** A row that sorts strictly before the head of a sorted list ties with none of its rows. */
  lemma NoTieAfter(e: Employee, s: seq<Employee>, x: Employee)
    requires SortedByName(s) && s != [] && NameLess(e, s[0]) && SameName(e, x)
    ensures Ties(s, x) == []
  {
    forall y | y in s ensures !SameName(y, x) {
      var j :| 0 <= j < |s| && s[j] == y;
      if SameName(y, x) {
        assert NameLess(y, s[0]);
        if j == 0 {
          NameLessIrreflexive(y);
        }
        assert false;
      }
    }
    TiesNone(s, x);
  }

  /** The ties of a list with one row in front. */
  lemma TiesCons(y: Employee, s: seq<Employee>, x: Employee)
    ensures Ties([y] + s, x) == (if SameName(y, x) then [y] else []) + Ties(s, x)
  {
    TiesConcat([y], s, x);
    assert [y][..0] == [];
  }

  /** Inserting a row puts it after every row it ties with. */
  lemma {:induction false} InsertTies(e: Employee, s: seq<Employee>, x: Employee)
    requires SortedByName(s)
    ensures Ties(InsertByName(e, s), x) == Ties(s, x) + (if SameName(e, x) then [e] else [])
  {
    if s == [] {
      assert InsertByName(e, s) == [e];
      assert [e][..0] == [];
    } else if NameLess(e, s[0]) {
      assert InsertByName(e, s) == [e] + s;
      TiesCons(e, s, x);
      if SameName(e, x) {
        NoTieAfter(e, s, x);
      }
    } else {
      InsertTies(e, s[1..], x);
      assert InsertByName(e, s) == [s[0]] + InsertByName(e, s[1..]);
      assert s == [s[0]] + s[1..];
      TiesBehindHead(s[0], s[1..], InsertByName(e, s[1..]), if SameName(e, x) then [e] else [], x);
    }
  }

  /** Putting the same row in front of two lists whose ties differ by `extra` keeps that difference. */
  lemma TiesBehindHead(y: Employee, rest: seq<Employee>, other: seq<Employee>, extra: seq<Employee>, x: Employee)
    requires Ties(other, x) == Ties(rest, x) + extra
    ensures Ties([y] + other, x) == Ties([y] + rest, x) + extra
  {
    var head := if SameName(y, x) then [y] else [];
    TiesCons(y, other, x);
    TiesCons(y, rest, x);
    assert head + (Ties(rest, x) + extra) == (head + Ties(rest, x)) + extra;
  }

  /**
   * The sort is stable: the rows tying with any row `x` come out in table order. SQLite
   * leaves this order open; the model fixes it this way.
   */
  lemma {:induction false} SortKeepsTieOrder(s: seq<Employee>, x: Employee)
    ensures Ties(SortByName(s), x) == Ties(s, x)
  {
    if s != [] {
      var n := |s| - 1;
      SortKeepsTieOrder(s[..n], x);
      InsertTies(s[n], SortByName(s[..n]), x);
    }
  }

  /**
   * `LIMIT limit OFFSET offset` over ordered rows. As in the store, a negative limit
   * means no bound and a negative offset counts as zero.
   */
  function Page(rows: seq<Employee>, limit: int, offset: int): seq<Employee>
  {
    var start := if offset < 0 then 0 else if offset > |rows| then |rows| else offset;
    var end := if limit < 0 || start + limit > |rows| then |rows| else start + limit;
    rows[start..end]
  }

  /**
   * A page is the run of ordered rows that starts at the offset: at most `limit` rows,
   * all of them when fewer remain, and none when the offset is at or past the end.
   */
  lemma PageShape(rows: seq<Employee>, limit: nat, offset: nat)
    ensures var page := Page(rows, limit, offset);
      && |page| == (if offset >= |rows| then 0 else if offset + limit > |rows| then |rows| - offset else limit)
      && forall i :: 0 <= i < |page| ==> page[i] == rows[offset + i]
  {
  }

  /** A negative offset counts as zero, and a negative limit as no bound. */
  lemma PageNegativeArguments(rows: seq<Employee>, limit: int, offset: int)
    ensures offset < 0 ==> Page(rows, limit, offset) == Page(rows, limit, 0)
    ensures limit < 0 ==> Page(rows, limit, offset) == Page(rows, |rows|, offset)
    ensures limit < 0 && offset <= 0 ==> Page(rows, limit, offset) == rows
  {
  }

  /** Two consecutive pages together are the page of their combined size: paging skips and repeats nothing. */
  lemma PagesTile(rows: seq<Employee>, first: nat, second: nat, offset: nat)
    ensures Page(rows, first, offset) + Page(rows, second, offset + first) == Page(rows, first + second, offset)
  {
  }

  /** The rows a search returns: the matches in name order, then the page. */
  function Results(store: seq<Employee>, organizationId: string, filters: Filters, limit: int, offset: int)
    : seq<Employee>
  {
    Page(SortByName(Matching(store, organizationId, filters)), limit, offset)
  }

  /**
   * Every returned row is a row of the table that satisfies the filters; the rows come in
   * name order; and a page never holds more rows than match.
   */
  lemma ResultsMeaning(store: seq<Employee>, organizationId: string, filters: Filters, limit: int, offset: int)
    ensures var page := Results(store, organizationId, filters, limit, offset);
      && (forall e :: e in page ==> e in store && Satisfies(organizationId, filters, e))
      && SortedByName(page)
      && |page| <= |Matching(store, organizationId, filters)|
  {
    var matches := Matching(store, organizationId, filters);
    var sorted := SortByName(matches);
    var page := Results(store, organizationId, filters, limit, offset);
    assert |sorted| == |matches| by {
      assert |multiset(sorted)| == |multiset(matches)|;
    }
    forall e | e in page ensures e in store && Satisfies(organizationId, filters, e) {
      assert e in multiset(sorted);
      MatchingMeaning(store, organizationId, filters, e);
    }
  }

  /** An offset at or beyond the number of matches gives an empty page. */
  lemma OffsetPastEndIsEmpty(store: seq<Employee>, organizationId: string, filters: Filters, limit: int, offset: int)
    requires offset >= |Matching(store, organizationId, filters)|
    ensures Results(store, organizationId, filters, limit, offset) == []
  {
    var matches := Matching(store, organizationId, filters);
    assert |SortByName(matches)| == |matches| by {
      assert |multiset(SortByName(matches))| == |multiset(matches)|;
    }
  }

  /** A page of the search's rows as dictionaries (`dict(row)` for each fetched row). */
  function Rows(page: seq<Employee>): (rows: seq<Row>)
    ensures |rows| == |page| && forall i :: 0 <= i < |page| ==> rows[i] == ToRow(page[i])
  {
    seq(|page|, i requires 0 <= i < |page| => ToRow(page[i]))
  }

  /**
   * The search query (app/database.py:114-191): builds the WHERE clause, counts every
   * match, and fetches one page of the matches in name order, as dictionaries.
   */
  method SearchEmployees(store: seq<Employee>, organizationId: string, filters: Filters, limit: int, offset: int)
    returns (employees: seq<Row>, totalCount: nat)
    ensures totalCount == |Matching(store, organizationId, filters)|
    ensures employees == Rows(Results(store, organizationId, filters, limit, offset))
  {
    var whereConditions, params := BuildWhere(organizationId, filters);
    var whereClause := WhereClause(whereConditions);
    totalCount := |Select(store, whereConditions)|;
    params := params + [IntParam(limit), IntParam(offset)];
    SearchSqlMatchesParams(whereConditions, limit, offset);
    assert Count(SearchSql(whereClause), '?') == |params|;
    var rows := Page(SortByName(Select(store, whereConditions)), limit, offset);
    employees := Rows(rows);
  }

  /**
   * The first search test: with statuses "active" and "not_started", every returned row
   * has one of those statuses.
   */
  lemma StatusListFilter(store: seq<Employee>, organizationId: string, filters: Filters, limit: int, offset: int)
    requires filters.status == Some(Many(["active", "not_started"]))
    ensures forall e :: e in Results(store, organizationId, filters, limit, offset) ==>
      e.status == "active" || e.status == "not_started"
  {
    ResultsMeaning(store, organizationId, filters, limit, offset);
  }

  /**
   * The combined-filters test: status "active", department "engineering" and location
   * "new_york" together return only rows that satisfy all three.
   */
  lemma CombinedFilters(store: seq<Employee>, organizationId: string, filters: Filters, limit: int, offset: int)
    requires filters.status == Some(Single("active"))
    requires filters.department == Some(Single("engineering"))
    requires filters.location == Some(Single("new_york"))
    ensures forall e :: e in Results(store, organizationId, filters, limit, offset) ==>
      e.status == "active" && e.department == "engineering" && e.location == "new_york"
  {
    ResultsMeaning(store, organizationId, filters, limit, offset);
  }

  /** At most this many positions are listed as filter choices. */
  const PositionFacetLimit := 20

  /** The filter choices of an organization, by key of the source's dictionary. */
  datatype AvailableFilters = AvailableFilters(
    status: seq<string>,
    locations: seq<string>,
    companies: seq<string>,
    departments: seq<string>,
    positions: seq<string>)

  /** Some row of the organization has value `v` in column `f`. */
  ghost predicate HasValue(store: seq<Employee>, organizationId: string, f: Field, v: string)
  {
    exists e :: e in store && e.organizationId == organizationId && FieldOf(e, f) == v
  }

  /** The values of one column over the organization's rows, in table order, repeats included. */
  function ColumnValues(store: seq<Employee>, organizationId: string, f: Field): (vs: seq<string>)
    ensures forall v :: v in vs <==> HasValue(store, organizationId, f, v)
  {
    if store == [] then []
    else
      var rest := ColumnValues(store[1..], organizationId, f);
      assert forall e :: e in store <==> e == store[0] || e in store[1..];
      if store[0].organizationId == organizationId then [FieldOf(store[0], f)] + rest else rest
  }

  /** Strictly ascending: sorted with no value twice. */
  predicate StrictlyAscending(s: seq<string>)
  {
    forall i, j :: 0 <= i < j < |s| ==> Less(s[i], s[j])
  }

  lemma AscendingCons(x: string, s: seq<string>)
    requires StrictlyAscending(s)
    requires forall y :: y in s ==> Less(x, y)
    ensures StrictlyAscending([x] + s)
  {
    forall i, j | 0 <= i < j < |[x] + s| ensures Less(([x] + s)[i], ([x] + s)[j]) {
      assert ([x] + s)[j] == s[j - 1];
      if i > 0 {
        assert ([x] + s)[i] == s[i - 1];
      }
    }
  }

  /** Adds `v` to an ascending list of distinct values, unless it is already there. */
  function InsertDistinct(v: string, s: seq<string>): (r: seq<string>)
    requires StrictlyAscending(s)
    ensures StrictlyAscending(r)
    ensures forall x :: x in r <==> x == v || x in s
  {
    if s == [] then [v]
    else if v == s[0] then s
    else if Less(v, s[0]) then
      assert forall y :: y in s ==> Less(v, y) by {
        forall y | y in s ensures Less(v, y) {
          if y != s[0] {
            var j :| 0 <= j < |s| && s[j] == y;
            LessTransitive(v, s[0], y);
          }
        }
      }
      AscendingCons(v, s);
      [v] + s
    else
      LessTotal(v, s[0]);
      var rest := InsertDistinct(v, s[1..]);
      assert forall x :: x in s <==> x == s[0] || x in s[1..] by {
        assert s == [s[0]] + s[1..];
      }
      assert forall y :: y in rest ==> Less(s[0], y) by {
        forall y | y in rest ensures Less(s[0], y) {
          if y != v {
            var j :| 0 <= j < |s[1..]| && s[1..][j] == y;
            assert s[j + 1] == y;
          }
        }
      }
      AscendingCons(s[0], rest);
      [s[0]] + rest
  }

  /** `SELECT DISTINCT … ORDER BY …`: the distinct values, ascending. */
  function DistinctSorted(vs: seq<string>): (r: seq<string>)
    ensures StrictlyAscending(r)
    ensures forall x :: x in r <==> x in vs
  {
    if vs == [] then []
    else
      assert forall x :: x in vs <==> x == vs[0] || x in vs[1..] by {
        assert vs == [vs[0]] + vs[1..];
      }
      InsertDistinct(vs[0], DistinctSorted(vs[1..]))
  }

  /** The distinct values of a column for one organization, ascending. */
  function Facet(store: seq<Employee>, organizationId: string, f: Field): (r: seq<string>)
    ensures StrictlyAscending(r)
    ensures forall v :: v in r <==> HasValue(store, organizationId, f, v)
  {
    DistinctSorted(ColumnValues(store, organizationId, f))
  }

  /** The first `n` values of `s`, or all of them when there are fewer (`LIMIT n`). */
  function Take(s: seq<string>, n: nat): (r: seq<string>)
  {
    if |s| <= n then s else s[..n]
  }

  /**
   * The filter choices of an organization (app/database.py:193-220): the distinct values
   * of status, location, company and department, ascending, and the first 20 distinct
   * positions, ascending. The current search's filters play no part.
   */
  function GetAvailableFilters(store: seq<Employee>, organizationId: string): (r: AvailableFilters)
    ensures StrictlyAscending(r.status) && StrictlyAscending(r.locations) && StrictlyAscending(r.companies)
    ensures StrictlyAscending(r.departments) && StrictlyAscending(r.positions)
    ensures forall v :: v in r.status <==> HasValue(store, organizationId, StatusField, v)
    ensures forall v :: v in r.locations <==> HasValue(store, organizationId, LocationField, v)
    ensures forall v :: v in r.companies <==> HasValue(store, organizationId, CompanyField, v)
    ensures forall v :: v in r.departments <==> HasValue(store, organizationId, DepartmentField, v)
    ensures |r.positions| <= PositionFacetLimit
    ensures forall v :: v in r.positions ==> HasValue(store, organizationId, PositionField, v)
  {
    var positions := Facet(store, organizationId, PositionField);
    var r := AvailableFilters(
      Facet(store, organizationId, StatusField),
      Facet(store, organizationId, LocationField),
      Facet(store, organizationId, CompanyField),
      Facet(store, organizationId, DepartmentField),
      Take(positions, PositionFacetLimit));
    assert forall v :: v in r.positions ==> v in positions;
    r
  }

  /**
   * The listed positions are the smallest ones: every position of the organization that is
   * not listed sorts after every listed one, and only a full list of 20 leaves any out.
   */
  lemma PositionsAreTheFirst(store: seq<Employee>, organizationId: string, e: Employee)
    requires e in store && e.organizationId == organizationId
    ensures var listed := GetAvailableFilters(store, organizationId).positions;
      e.position !in listed ==>
        && |listed| == PositionFacetLimit
        && forall v :: v in listed ==> Less(v, e.position)
  {
    var all := Facet(store, organizationId, PositionField);
    var listed := GetAvailableFilters(store, organizationId).positions;
    assert FieldOf(e, PositionField) == e.position;
    assert HasValue(store, organizationId, PositionField, e.position);
    assert e.position in all;
    if e.position !in listed {
      var k :| 0 <= k < |all| && all[k] == e.position;
      assert |all| > PositionFacetLimit && k >= PositionFacetLimit;
      forall v | v in listed ensures Less(v, e.position) {
        var i :| 0 <= i < |listed| && listed[i] == v;
        assert all[i] == v;
      }
    }
  }
}
