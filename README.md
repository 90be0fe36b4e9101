# Employee search — a Dafny model of its core

This project models the core of a small employee-directory search service. It covers four parts:

- **Column policy.** Each organization sees only its configured columns of an employee record. An organization with no entry gets the default column list.
- **Rate limiter.** The limiter keeps a sliding window of request timestamps for each client identifier. It admits a request while fewer than `requests_per_minute` of that client's timestamps are newer than one minute ago. A periodic cleanup prunes old timestamps and drops identifiers whose list becomes empty.
- **Database query.** The search builds a parameterised SQL `WHERE` clause from the organization and the filters:
  - a free-text query matches first name, last name, email or position;
  - status, department, location and company each take a single value or a list;
  - position is a substring match.
  
  The search returns the total number of matches and one page of matches ordered by first and last name. The filter choices are the distinct statuses, locations, companies and departments of the organization, plus its first 20 positions, each list in ascending order.
- **Search service.** The service rejects a missing organization id and keeps only the filter arguments that are truthy. It queries the store, then projects every returned row onto the organization's visible columns.

The files:

- `wrappers.dfy`: `Option` and `Result`.
- `text.dfy`: lexicographic order, substring containment, character counts and `join`.
- `employees.dfy`: the employees table. `Employee` is one row, and `ToRow` gives its column dictionary.
- `columns.dfy`: the per-organization column policy.
- `rate_limiter.dfy`: the `RateLimiter` class, proved against the pure step function `Admit` and the map `Cleaned`.
- `database.dfy`: the clause builder `BuildWhere`, the meaning of the query, ordering, paging and the filter choices.
- `search.dfy`: `EmployeeSearch.search_employees`. It has a nested projection loop, proved against the pure `ProjectRow`.

How the model represents things:

- **The store.** The table is a sequence of `Employee` values in table order, passed as a parameter.
- **The query.** Its meaning is given twice:
  - as the conditions the builder emits, each read as a predicate on a row (`Holds`);
  - as an independent reference predicate, `Satisfies`.
  
  `ConditionsMeaning` proves the two agree.
- **Placeholders.** The SQL text is modelled down to its `?` placeholders. The model proves that the number of placeholders equals the number of bound parameters, and that the parameters come in the order of the conditions.
- **The clock.** The current time is an integer number of seconds, `now`, passed to each limiter call.

## Model

| member | source | states |
|---|---|---|
| OrganizationColumns.GetOrganizationColumns | app/__init__.py:3-12 | The lookup is total. A configured organization gets its own list; any other id gets the default list. Every listed column is a column of the employees table, and no list repeats a column. |
| OrganizationColumns.UnknownOrganizationGetsDefault | app/__init__.py:7-12 | An id that is not a configured key gets exactly the default list of eight columns. |
| OrganizationColumns.Org3Columns | app/__init__.py:6 | org_3 sees first name, last name, email, status and position, in that order. |
| Employees.ToRow | app/database.py:20-37 | The dictionary of a fetched row has exactly the fourteen table columns as keys. |
| Employees.FieldOf | app/database.py:27-31 | A filterable field's value is the text stored under that field's column in the row. |
| RateLimiting.Retained | app/rate_limiter.py:16 | Pruning never lengthens the list. Every kept timestamp is one of the stored ones and is strictly newer than the window start. |
| RateLimiting.RetainedMultiplicity | app/rate_limiter.py:16 | Pruning keeps every newer timestamp as many times as it occurs, and drops every timestamp at or before the window start. |
| RateLimiting.RetainedConcat | app/rate_limiter.py:16 | Pruning distributes over concatenation, so the surviving timestamps keep their order. |
| RateLimiting.RetainedAllNewer | app/rate_limiter.py:16 | A list whose timestamps are all inside the window is kept whole. |
| RateLimiting.RetainedEmpty | app/rate_limiter.py:16 | Pruning leaves nothing exactly when no timestamp is newer than the window start. |
| RateLimiting.RetainedTwice | app/rate_limiter.py:16 | Pruning at an earlier window start and then at a later one equals pruning once at the later one. |
| RateLimiting.Admit | app/rate_limiter.py:11-24 | A call is admitted exactly when fewer than `limit` retained timestamps remain. The identifier becomes a key after every call, and every other identifier's list is unchanged. |
| RateLimiting.AdmitKeepsBound | app/rate_limiter.py:19-22 | If no stored list is longer than the limit, none is after a call. |
| RateLimiting.AdmittedCallStoresNow | app/rate_limiter.py:19-22 | An admitted call stores the retained timestamps followed by `now`: at most `limit` entries, all inside the window. |
| RateLimiting.StaleHistoryIsAdmitted | app/rate_limiter.py:13-22 | With a positive limit, a client whose timestamps are all at least 60 seconds old is admitted, and only `now` stays stored. This includes a timestamp exactly 60 seconds old. |
| RateLimiting.BurstPrefix | app/rate_limiter.py:11-24 | `k <= limit` calls at one instant from a client with no recent history are all admitted, and they store `k` copies of `now`. |
| RateLimiting.LimitThenReject | tests/test_rate_limiter.py:6-21 | At one instant, for any limit N, the first N calls of a client with no recent history are admitted and call N+1 is rejected. |
| RateLimiting.RetainedDropsStale | app/rate_limiter.py:16 | Pruning drops at least one timestamp when a stored timestamp is at or before the window start. |
| RateLimiting.RecoveryAfterWindow | app/rate_limiter.py:11-22 | While no stored list exceeds the limit, a call is admitted again once one of the client's stored timestamps is at least 60 seconds old. |
| RateLimiting.TraceStored | app/rate_limiter.py:11-24 | Over successive calls of one new client at non-decreasing instants, the stored list is the admitted instants pruned at a cutoff at least a full window before the last call. It never holds more than `limit` entries. |
| RateLimiting.AtMostLimitPerWindow | app/rate_limiter.py:11-24 | For one new client calling at non-decreasing instants, at most `limit` admitted calls fall in any 60-second interval `(T - 60, T]`. |
| RateLimiting.CleanedShape | app/rate_limiter.py:26-37 | After cleanup, an identifier remains exactly when it had a timestamp newer than the window start. Its remaining list is non-empty and holds only such timestamps. |
| RateLimiting.CleanupInvisibleToAdmission | app/rate_limiter.py:11-37 | A cleanup at or before the time of a later call does not change that call's decision, nor the list an admitted call stores. |
| RateLimiting.PruneWindow | app/rate_limiter.py:16 | The pruning loop computes `Retained`. |
| RateLimiting.RateLimiter.constructor | app/rate_limiter.py:7-9 | The limiter starts with the given limit (100 by default) and no stored requests. |
| RateLimiting.RateLimiter.IsAllowed | app/rate_limiter.py:11-24 | Both the decision and the new map are those of `Admit`. An unknown identifier gets an empty list even when rejected, and a rejected call does not store its pruned list. The stored-length bound is kept. |
| RateLimiting.RateLimiter.CleanupOldRequests | app/rate_limiter.py:26-37 | The map becomes `Cleaned(old map, now - 60)`: each list is pruned and emptied identifiers are deleted. The stored-length bound is kept. |
| RateLimiting.TenThenRejectScenario | tests/test_rate_limiter.py:6-12 | With limit 10, a fresh limiter admits ten calls and rejects the eleventh. |
| RateLimiting.TwoClientsScenario | tests/test_rate_limiter.py:24-34 | With limit 2 and two interleaved clients, each client is admitted twice and then rejected. |
| Database.PlaceholdersCount | app/database.py:129-130 | The placeholder list for k values holds exactly k `?`. |
| Database.TextSearchCount | app/database.py:121-125 | The free-text condition holds four placeholders, one for each of its four bound patterns. |
| Database.TextParams | app/database.py:131 | A list filter binds its values in the caller's order. |
| Database.SqlMatchesBind | app/database.py:117-165 | Every condition's SQL holds as many `?` as the condition binds parameters. |
| Database.BindAllAppend | app/database.py:117-165 | Appending a condition appends its parameters after those of the earlier conditions. |
| Database.WhereClauseMatchesParams | app/database.py:167 | The clause joined with " AND " holds exactly as many `?` as all the conditions bind together. |
| Database.SearchSqlCount | app/database.py:177-182 | The page query adds exactly two placeholders, for LIMIT and OFFSET. |
| Database.SearchSqlMatchesParams | app/database.py:177-185 | The page query's placeholders equal the filter parameters plus limit and offset. |
| Database.ConditionsShape | app/database.py:117-165 | The organization condition comes first, and its parameter is the organization id. Each truthy filter adds exactly one condition, and a falsy one adds none. |
| Database.BuildWhere | app/database.py:117-167 | The builder emits the conditions organization, query, status, department, location, company, position, in that order. Its parameters are their bindings in order, and the clause's `?` count equals the number of parameters. |
| Database.AddField | app/database.py:127-161 | One field's step adds `=` for a single value, `IN` for a list, and nothing for a falsy value. The parameters stay aligned with the conditions. |
| Database.AllHoldConcat | app/database.py:167 | Joining conditions with AND holds exactly when both parts hold. |
| Database.FieldConditionsMeaning | app/database.py:127-161 | A field's conditions hold exactly when the filter is falsy or accepts the row's value (equal to it, or one of the list). |
| Database.ConditionsMeaning | app/database.py:117-167 | The emitted WHERE clause holds for a row exactly when the row satisfies the reference meaning of organization and filters. |
| Database.Select | app/database.py:169-175 | The selected rows are exactly the table's rows for which the clause holds, and there are never more of them than rows in the table. |
| Database.SelectMultiplicity | app/database.py:169-175 | `COUNT(*)` counts each matching row as many times as the table holds it, and counts no other row. |
| Database.SelectConcat | app/database.py:169-175 | Selection distributes over concatenation, so the selected rows keep table order. |
| Database.MatchingMeaning | app/database.py:169-175 | A row is counted and searched exactly when it is in the table and satisfies the filters. |
| Database.NameLessTransitive | app/database.py:180 | Ordering by first name, then last name, is transitive. |
| Database.InsertByName | app/database.py:180 | Inserting into name-ordered rows keeps them ordered and adds exactly the inserted row. |
| Database.SortByName | app/database.py:180 | `ORDER BY first_name, last_name` gives a name-ordered permutation of the matches. |
| Database.InsertTies | app/database.py:180 | Inserting a row into name-ordered rows places it after every row it ties with. Those rows keep their order. |
| Database.SortKeepsTieOrder | app/database.py:180 | For any table, the rows that tie on first and last name come out in table order: the sort is stable. |
| Database.PageNegativeArguments | app/database.py:181-183 | As SQLite treats them, a negative offset counts as zero and a negative limit means no bound. |
| Database.PageShape | app/database.py:181-183 | A page is the run of at most `limit` ordered rows starting at `offset`, and it is empty past the end. |
| Database.PagesTile | app/database.py:181-183 | Consecutive pages concatenate to the page of their combined size, so paging skips and repeats nothing. |
| Database.ResultsMeaning | app/database.py:169-188 | Every returned row is a table row satisfying the filters, the page is name-ordered, and it never holds more rows than the total count. |
| Database.OffsetPastEndIsEmpty | app/database.py:181-186 | An offset at or past the total count gives an empty page. |
| Database.Rows | app/database.py:188 | Each returned dictionary is the column dictionary of the matching row, in order. |
| Database.SearchEmployees | app/database.py:114-191 | The count is the number of all matches, whatever the page. The rows are one page of the name-ordered matches, as dictionaries. |
| Database.StatusListFilter | tests/test_search.py:10-22 | With statuses ["active", "not_started"], every returned row has one of those statuses. |
| Database.CombinedFilters | tests/test_search.py:70-81 | With status, department and location filters, every returned row has all three values. |
| Database.ColumnValues | app/database.py:199-209 | A column's collected values are exactly the values it has in the organization's rows. |
| Database.InsertDistinct | app/database.py:199-209 | Inserting into a strictly ascending list keeps it strictly ascending, adding the value and nothing else. |
| Database.DistinctSorted | app/database.py:199-209 | `SELECT DISTINCT … ORDER BY` gives a strictly ascending list with the same members. |
| Database.Facet | app/database.py:199-209 | A filter choice list is strictly ascending and holds exactly the organization's values of that column. |
| Database.GetAvailableFilters | app/database.py:193-220 | Status, locations, companies and departments are each the ascending distinct values of the organization. Positions are ascending, at most 20, and each is a position of the organization. |
| Database.PositionsAreTheFirst | app/database.py:211-217 | An organization's position is missing from the list only when the list is full (20 entries) and every listed position sorts before it. |
| Search.Present | app/search.py:43-44 | The kept columns are exactly the allowed columns that the row has. |
| Search.PresentConcat | app/search.py:43-44 | Filtering columns distributes over concatenation, so the kept columns stay in policy order. |
| Search.ProjectRow | app/search.py:42-45 | A record has a key exactly for each allowed column present in the row, with the row's value, and its key order has no repeats. |
| Search.ProjectRowKeys | app/search.py:42-45 | With a repeat-free column list, the record's keys are the allowed columns present in the row, in policy order. |
| Search.PolicyKeys | app/search.py:38-45 | A projected employee row has exactly the organization's columns as keys, in policy order. |
| Search.Org3RecordKeys | app/search.py:38-45 | An org_3 record has exactly first name, last name, email, status and position. |
| Search.ProjectRows | app/search.py:40-46 | The nested loop yields one record per row, each being `ProjectRow` of that row. |
| Search.BuildFilters | app/search.py:16-28 | A filter key is present exactly when its argument is truthy, and it then holds the argument unchanged. |
| Search.DroppingFalsyKeepsConditions | app/search.py:16-28 | Dropping the falsy arguments leaves the store's conditions unchanged, because the store skips falsy filters as well. |
| Search.SearchEmployees | app/search.py:10-48 | A falsy organization id gives the "Organization ID is required" error, and only it does. Otherwise the response holds: the count of all matches; the projected page, in order; and the organization's filter choices, which do not depend on the filters. |
| Search.RecordsHavePolicyColumns | app/search.py:38-46 | Every record of a search has exactly the organization's visible columns. |
| Search.Org1StatusListRecords | tests/test_search.py:10-22 | For org_1 with statuses ["active", "not_started"], every record has a status key whose value is one of the two. |
| Search.ProjectedPageStatuses | app/search.py:40-46 | When status is visible and every employee of a page has status "active" or "not_started", every projected record shows one of those statuses. |
| Search.RowStatus | app/database.py:188 | A fetched row's status column holds the employee's status. |

## Left out

- **HTTP layer** (`app/main.py`): routing, the header that carries the organization id, and status codes. The model starts at `search_employees` with the arguments already parsed. The HTTP handler passes each filter as one text value; list values (`Many`) reach `search_employees` only from direct Python callers.
- **Enums** (`app/models.py`): not modelled. Column values are arbitrary text, so the table's `CHECK` constraint on `status` is not enforced either.
- **Database setup and I/O**: creating the table and indexes, seeding sample data, opening and closing connections, and the module-level `db` singleton. The table is a parameter of every query.
- **Two round trips**: the count query and the page query run against the same table value. Writes between the two statements are not modelled.
- **Clock**: `time.time()` returns a float. It becomes an integer `now` passed to each call, and the limiter's `now` parameter is not in the source.
- **Concurrency**: unsynchronised access to the limiter's dictionary by concurrent requests is not modelled. Each call is atomic.
- **LIKE**: SQLite's `LIKE` ignores ASCII case, and a `%` or `_` in the user's text acts as a wildcard. The model treats `%text%` as case-sensitive substring containment.
- **Database.SortByName**: its own contract does not state what order rows with equal first and last names come in, because SQLite does not define that order. The model's sort is stable, and `SortKeepsTieOrder` proves that ties keep table order.
- **RateLimiting.AtMostLimitPerWindow**: proved for one client that has no stored history at its first call and a limit that is not negative. Calls of other identifiers leave this client's list alone (`Admit`), so they are not part of the trace.
- **Database.GetAvailableFilters**: positions are stated as a sorted prefix (`PositionsAreTheFirst`), not as an exact 20-element prefix of the full distinct list.
- **Integers**: `limit` and `offset` are unbounded integers. SQLite's 64-bit range is not modelled.
- **Non-text query or position**: a list passed as `query` or `position` would be formatted into the pattern as a list's text. Here both arguments are typed as text.

Two details of the code's admission step:

- **Rejected calls**: a rejected call stores no pruned list. The stored list stays as it was, and becomes an empty list if the identifier was unknown.
- **Window boundary**: the prune test is strict (`> now - 60`), so a timestamp exactly 60 seconds old is dropped.
