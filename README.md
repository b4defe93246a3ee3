# Cross-tab report engine of the Pyrus report bot

This project models the report engine of a Pyrus bot in Dafny and proves properties of that model. The bot runs on a task. Its form template holds report tables: table fields whose code contains `REPORT_<form id>`. For each such table, `process_reports` does the following:

- fetches the source form and its registry, at most once per form;
- narrows the registry's tasks with the optional extra filters read from a filter table of the bot's task;
- groups the tasks by the value of the first column's source field, adding a "Всего" (total) row;
- fills the remaining columns with task counts, a registry link or the group size;
- sorts the rows in descending order of the "total" column, keeping the total row last;
- clears the table's old rows and posts the new ones as two comments on the bot's task.

The modules follow the program's structure:

- `Wrappers`: `Option`, and `Result`/`Outcome` over the Python exceptions the code can raise (`ValueError`, `IndexError`, `AttributeError`, `TypeError`, and `ApiError` for a failed platform call). Any exception aborts the request.
- `Strings`: the `str` built-ins the code relies on: `split`, `join`, `strip`, `isdigit`, `int()`, `str(int)` and string ordering. Each comes with its algebra (`split`/`join` round trips, `strip` idempotence, `int(str(n)) == n`).
- `OrderedDicts`: a Python dict as a sequence of pairs in insertion order, with the grouping (`GroupBy`) that `prepare_first_col` and `get_additional_filters` build.
- `Entities`: the Pyrus entities and the pyrustools lookups (`object_by_id`, `object_by_code`, `get_id_by_code`, `set_value_to_field`). Also `urlencode`, and the platform client as a class.
  - The client records every fetch and comment in a `requests` log. The per-form cache and the two comments can then be stated.
  - `TableRow` is a class, because `delete_table` sets each row's `delete` flag in place.
- `Utils`: `utils.py`.
- `ReportForm`: `forms/report_form.py`.
  - The row list that `prepare_other_col` fills and `sort_table` sorts is an `array` of ordered dicts, changed in place.
  - The loop of `get_tables` is a method that fills the cache and the table dict. It is proved against a function `Tables` that states the whole computation, including the requests made.

Some behaviour of the code is modelled as written, and the model proves it:

- A table is a report table when `REPORT` occurs anywhere in its code. `get_form_id_from_code` then looks for `REPORT` as a whole `_`-separated token. A code such as `XREPORT_5` therefore raises `ValueError` and aborts the request (`GetFormIdFromCodeNeedsWholeToken`).
- A missing or non-numeric form id gives 0, never `None`. The `None` test in `process_reports` therefore never skips a table.
- In a catalog filter, the stripped list at `utils.py:163` is discarded. `"x, 1"` therefore looks up position `" 1"`, which is not a number, and finds nothing (`CatalogLiteralNotTrimmed`).
- When some task's first-column value is itself `("Всего", "")`, the total group replaces that group. The table then has one more row than there are groups (`GroupedCollision`).
- Sorting pops the last row, sorts the rest in descending order with Python's stable sort, and appends that row again. Keys of different kinds are incomparable (`TypeError`), and an empty table raises `IndexError`.

## Model

| member | source | states |
|---|---|---|
| `Utils.GetFormIdFromCode` | utils.py:17-33 | fails with ValueError exactly when `REPORT` is not one of the `_`-separated tokens of the code |
| `Utils.GetFormIdFromCodeFindsId` | utils.py:25-31 | a code with the token `REPORT` followed by the digits of n yields n |
| `Utils.GetFormIdFromCodeMissingId` | utils.py:28-33 | a code ending in `REPORT` yields 0 (the IndexError is caught) |
| `Utils.GetFormIdFromCodeNotDigits` | utils.py:28-30 | a token after `REPORT` that is not all digits yields 0 |
| `Utils.GetFormIdFromCodeNeedsWholeToken` | utils.py:25-26 | a code that contains `REPORT` only inside a longer token passes the substring test but raises ValueError |
| `Utils.PrepareValue` | utils.py:36-56 | fails with IndexError exactly when the value is a choice with no names or a catalog item with no values; a missing field or value gives "Нет значения", a choice its first name, a catalog item its first value, a text itself and an integer its decimal text |
| `Utils.PrepareValueOfInt` | utils.py:56 | an integer value renders as text that parses back to the same integer |
| `Utils.PrepareValueAbsentNotInt` | utils.py:44-46 | a missing field or empty value renders as "Нет значения", which does not parse as an integer |
| `Utils.PrepareValueOfPerson` | utils.py:47-51 | a role renders as its last name, a person as first and last name |
| `Utils.FieldFragment` | utils.py:71-98 | a field gives a registry fragment exactly when its type is person, multiple choice, text, catalog or step; for a field holding a value, the key is the type's prefix and the field id, and the value is the person id, choice id, text, catalog item id or step number |
| `Utils.PrepareRegistryFromField` | utils.py:59-100 | a missing field raises AttributeError; otherwise the link is empty exactly when the type has no fragment |
| `Utils.EmptyFieldFragments` | utils.py:71-93 | an empty person, catalog or choice field gives `cid<id>=-1`, `ctf<id>=` and `mch<id>=0` |
| `Utils.ValueFieldFragments` | utils.py:71-99 | a field holding a value links as `cid<id>=<person id>`, `mch<id>=<choice id>`, `str<id>=<text>`, `ctf<id>=<item id>` or `tst<id>=<step>` |
| `Utils.CatalogScan` | utils.py:203-206 | the first item whose value at the position matches wins; a shorter item before it raises IndexError; no match gives -1 |
| `Utils.GetCatalogItem` | utils.py:186-206 | a non-numeric position gives -1; a found id belongs to an item that holds the value at that position |
| `Utils.CatalogScanFound` | utils.py:203-206 | the scan fails only with IndexError, and a found id is the id of a matching item |
| `Utils.Members` | utils.py:224 | entry i is role i's name and id, or person i's `first + " " + last` name and id, one entry per role or person |
| `Utils.FirstId` | utils.py:225-231 | returns the id of the first entry with the label, -1 when none has it |
| `Utils.UnitFromOrganization` | utils.py:209-232 | -1 when no unit of any organization has the label; otherwise the id of a unit with that label |
| `Utils.FirstIdFound` | utils.py:225-231 | a result other than -1 is the id of an entry with that label |
| `Utils.UnitFromOrganizationEarlierWins` | utils.py:223-228 | a match in an earlier organization wins over later ones |
| `Utils.FirstIdPrefix` | utils.py:225-228 | entries after a match do not change the result |
| `Utils.FirstChoiceId` | utils.py:128-134 | the id of an option with the value, or none when no option has it |
| `Utils.FirstChoiceIdAt` | utils.py:129-134 | the first option carrying the value gives the id |
| `Utils.CatalogQuery` | utils.py:162-166 | a value without a comma gives `[value, "0"]`; otherwise the pieces joined with commas give back the value, unstripped; no piece holds a comma, and there are at least two |
| `Utils.CatalogLookup` | utils.py:160-167 | ApiError exactly when the catalog is unknown; ValueError exactly when the literal has more than two pieces; otherwise IndexError or an item id; a found id is that of an item holding the compared piece at the position, and a non-digit position or no holding item gives -1 |
| `Utils.PrepareRegistryFromForm` | utils.py:103-183 | fails only for a catalog field; an empty key comes only from a choice, contact or catalog field, with an empty value; otherwise the key is the type's prefix followed by the field id |
| `Utils.UnmatchedLiteral` | utils.py:133-151 | a choice text no option carries, a name no role or person has, or a catalog value no item holds gives the empty pair |
| `Utils.TextStepLiteral` | utils.py:123-125 | a text literal is used as it is; a step field gives `tst<id>` with an empty value |
| `Utils.MatchedChoice` | utils.py:128-135 | a choice literal gives `mch<id>` and the first option's choice id |
| `Utils.MatchedPerson` | utils.py:144-156 | a name no role has gives `cid<id>` and the first person's id |
| `Utils.MatchedCatalog` | utils.py:157-174 | a catalog literal without a comma gives `ctf<id>` and the id of the first item whose first value it is |
| `Utils.RolePreferred` | utils.py:144-156 | when a role and a person both match, the role's id is used |
| `Utils.CheckmarkLiteral` | utils.py:175-180 | a checkmark filter is `true` exactly for the value "checked" |
| `Utils.TextFragmentsAgree` | utils.py:83-87 | for a text field holding s, the registry link from the field is the one from the filter s |
| `Utils.ChoiceFragmentsAgree` | utils.py:77-82 | for a choice field, the link from the field is the one from filtering by the value of its first matching option |
| `Utils.PersonFragmentsAgree` | utils.py:71-76 | for a person field, the link from the field is the one from filtering by that person's name |
| `Utils.CatalogLiteralNotTrimmed` | utils.py:162-167 | a catalog filter with a space after the comma never matches, because the strip result is discarded |
| `Utils.ExactTest` | utils.py:262-267 | fails exactly when the task's value cannot be rendered; true exactly when the rendered value equals the token |
| `Utils.RangeTest` | utils.py:254-260 | fails when the value or a bound is not an integer; true exactly when the value lies in the closed range |
| `Utils.KeepWhere` | utils.py:255-267 | fails iff some test fails; otherwise keeps exactly the tasks whose test holds, and no more of them than the input has |
| `Utils.KeepWhereCounts` | utils.py:255-267 | a task that passes is kept as often as it occurs in the input; one that fails is dropped |
| `Utils.KeepWhereAppend` | utils.py:255-267 | keeping from `a + b` gives what `a` keeps followed by what `b` keeps, so input order is preserved; a failure in `a` comes first |
| `Utils.TokenMatches` | utils.py:253-267 | the matches of one token are tasks of the input |
| `Utils.ConcatenatedWithin` | utils.py:251-268 | the concatenated matches of all tokens are tasks of the input |
| `Utils.ConcatenatedAppend` | utils.py:252-267 | the matches of two token lists are the concatenation of their matches; the first failure wins |
| `Utils.ConcatenatedPrefixFailure` | utils.py:252-267 | a failing token aborts everything after it |
| `Utils.Filtered` | utils.py:235-268 | every filtered task is a task of the input |
| `Utils.ConcatenateMatches` | utils.py:251-268 | the loop computes the concatenated matches of the tokens |
| `Utils.FilterTasks` | utils.py:235-268 | filter_tasks as a method over its loop, equal to `Filtered` |
| `Utils.FilteredConcat` | utils.py:249-268 | filtering by `a,b` gives the tasks matching a followed by the tasks matching b, with duplicates kept |
| `Utils.FilteredOneToken` | utils.py:249-253 | a value without a comma is one stripped token |
| `Utils.FilteredExact` | utils.py:261-267 | a token without a dash keeps exactly the tasks whose rendered value equals it, each as often as it occurs, in input order (it is the `KeepWhere` of the exact test); fails iff some value cannot be rendered |
| `Utils.FilteredRange` | utils.py:253-260 | a range token keeps exactly the tasks whose value lies within its bounds; with at least one task both bounds must read as integers |
| `Utils.FilteredRangeKeep` | utils.py:249-260 | a value `x-y` is the one range token with the trimmed ends as bounds, keeping the tasks in range in input order |
| `Utils.FilteredRangeCounts` | utils.py:253-260 | a task in range is kept as often as it occurs; the others are dropped |
| `Utils.RangeTokenSplits` | utils.py:249-254 | a dashed token splits into its two stripped bounds |
| `Utils.FilteredTwoDashes` | utils.py:254 | a token with two dashes raises ValueError at the unpacking |
| `Utils.Cells` | utils.py:282-285 | one field update per column of a row, in order |
| `Utils.GetRows` | utils.py:271-288 | one new TableRow per row, numbered from 0, holding that row's cells, not marked deleted, all distinct |
| `Utils.ClearedTables` | utils.py:306-315 | one table update per table id, with that id and a table value; the rows it carries are rows of the task's fields |
| `Utils.ClearedTablesFields` | utils.py:308-315 | update i is the task field table id i names, holding that field's own rows; the clearing fails, with AttributeError or TypeError, exactly when an id names no field or a field whose value holds no rows |
| `Utils.ClearedRows` | utils.py:308-313 | the rows of the updates are exactly the rows of the named fields, which `DeleteTable` marks deleted |
| `Utils.ClearedTablesPrefixFailure` | utils.py:308-315 | a table id that is not found aborts the clearing |
| `Utils.MarkDeleted` | utils.py:312-313 | every row of the table is marked deleted |
| `Utils.ClearTables` | utils.py:307-315 | the loop's result is `ClearedTables`; on success exactly the rows of the cleared tables become deleted, and no deleted row is restored |
| `Utils.DeleteTable` | utils.py:291-316 | on failure, no comment is made; otherwise one comment with the cleared tables; exactly the cleared rows become deleted, and no deleted row is restored |
| `Utils.TableUpdates` | utils.py:331-334 | one table-field update per new table, carrying its rows |
| `Utils.CommentTables` | utils.py:319-335 | posts exactly one comment with the new tables |
| `ReportForm.ReportTables` | forms/report_form.py:45-54 | fails only with ValueError; otherwise at most one entry per template field |
| `ReportForm.FindReportTables` | forms/report_form.py:43-57 | the discovery loop gives the report tables and their filter lists, failing exactly when the form id of some table code cannot be read |
| `ReportForm.ReportTablesPrefixFailure` | forms/report_form.py:45-54 | a table whose code fails aborts the discovery |
| `ReportForm.ReportTablesExact` | forms/report_form.py:45-54 | the report tables are exactly the template's table fields whose code contains `REPORT`, each with the form id of its code |
| `ReportForm.FiltersToIdOnlyNamed` | forms/report_form.py:55-57 | a table id gets filters only when it is a report table named in the filter table |
| `ReportForm.CellValue` | forms/report_form.py:277-285 | a filter cell lookup fails exactly when the row has no cell with that code |
| `ReportForm.FilterEntries` | forms/report_form.py:275-285 | one entry per filter row |
| `ReportForm.GetAdditionalFilters` | forms/report_form.py:256-291 | the loop computes the grouped filter dict |
| `ReportForm.FilterEntriesStep` | forms/report_form.py:286-290 | each row appends its rule to its table's list, or starts the list |
| `ReportForm.FilterEntriesPrefixFailure` | forms/report_form.py:275-285 | a row that lacks a filter cell aborts the loop with that row's error |
| `ReportForm.NoFilterTable` | forms/report_form.py:272-274 | without a filter table there are no filters |
| `ReportForm.AdditionalFiltersOfTable` | forms/report_form.py:270-291 | a table's filter list is exactly the rules of its rows, in row order, and absent when no row names it |
| `ReportForm.FilterStep` | forms/report_form.py:312-328 | one rule only narrows the tasks, keeps the link dict well formed, and adds only non-empty keys |
| `ReportForm.ApplyFiltersStep` | forms/report_form.py:312-328 | applying the rules up to i + 1 is one more step after those up to i |
| `ReportForm.ApplyFiltersPrefixFailure` | forms/report_form.py:312-328 | a failing rule aborts all later ones |
| `ReportForm.ToFilterAdd` | forms/report_form.py:294-331 | the loop computes the filtered tasks and the encoded registry link |
| `ReportForm.ApplyFiltersChain` | forms/report_form.py:312-328 | applying p then q is applying p followed by q from its result |
| `ReportForm.ApplyFiltersNarrows` | forms/report_form.py:312-328 | every surviving task was in the input, the dict stays well formed, and only non-empty keys are added |
| `ReportForm.LaterRuleWins` | forms/report_form.py:322-328 | a later rule for the same registry key overwrites the earlier value; an unmatched rule leaves the link unchanged |
| `ReportForm.FilterAddNarrows` | forms/report_form.py:117-126 | the extra filters only remove tasks |
| `ReportForm.TaskKeys` | forms/report_form.py:182-189 | one (value, link) key per task |
| `ReportForm.Stubs` | forms/report_form.py:195 | one first-column row per distinct key, holding the key's value |
| `ReportForm.TaskKeysStep` | forms/report_form.py:182-189 | each task adds its own key |
| `ReportForm.FirstColStep` | forms/report_form.py:190-195 | a task joins its key's group, and a new key adds a row |
| `ReportForm.TaskKeysFailAt` | forms/report_form.py:184-187 | the first task whose value cannot be rendered aborts with its error |
| `ReportForm.TaskKeysPrefixFailure` | forms/report_form.py:182-187 | a failing task aborts everything after it |
| `ReportForm.PrepareFirstCol` | forms/report_form.py:154-199 | the loop computes the rows and groups of the first column, returning none when the column has no code after mapping |
| `ReportForm.GroupedShape` | forms/report_form.py:191-198 | the groups are keyed by the distinct keys in first-seen order, plus the total holding all tasks; each group holds exactly the tasks with its key; the rows are one per key plus a final "Всего" row |
| `ReportForm.GroupedAligned` | forms/report_form.py:191-198 | without a collision, row i belongs to group i, the total group is last, and the other groups partition the tasks |
| `ReportForm.GroupedCollision` | forms/report_form.py:197-198 | when a task's key equals the total key, the table has one more row than there are groups |
| `ReportForm.GroupedMembers` | forms/report_form.py:191-194 | every task is in its key's group, and each group holds only tasks with its key |
| `ReportForm.GroupedOrder` | forms/report_form.py:191-195 | groups appear in the order their keys are first seen |
| `ReportForm.FirstColFits` | forms/report_form.py:130-135 | the first column has at least as many rows as groups, so `rows[i]` in the other columns never overflows |
| `ReportForm.ColumnCells` | forms/report_form.py:234-251 | one cell per group, in group order |
| `ReportForm.FirstFailure` | forms/report_form.py:234-252 | the first cell that fails to compute; all cells before it succeed |
| `ReportForm.Fill` | forms/report_form.py:234-253 | writing a column keeps the number of rows |
| `ReportForm.FillColumns` | forms/report_form.py:226-253 | writing all columns keeps the number of rows |
| `ReportForm.ComputeCell` | forms/report_form.py:236-251 | one cell: the group size, the registry link, or the number of tasks matching the column name |
| `ReportForm.WriteColumn` | forms/report_form.py:233-253 | writes the column's cells into the rows in group order, in place, up to the first failing cell |
| `ReportForm.PrepareOtherCol` | forms/report_form.py:202-253 | writes every column after the first into the rows, in place |
| `ReportForm.FillWrites` | forms/report_form.py:234-253 | rows before the first failing cell get their cell written; the others are unchanged; the outcome is that cell's error |
| `ReportForm.ColumnWritten` | forms/report_form.py:234-253 | a column passes iff every cell computes; then row g holds cell g under the column id, and other columns are untouched |
| `ReportForm.FillColumnsFrame` | forms/report_form.py:226-253 | rows beyond the groups and columns not written keep their values |
| `ReportForm.RegistryBaseParameters` | forms/report_form.py:240 | the base registry link has parameters `rg<id>?ao=true`, `tz=180` and `sm=0` |
| `ReportForm.RegistryUrlParameters` | forms/report_form.py:239-244 | the link's parameters are the base ones, then the group's fragment when non-empty, then the filter link when non-empty |
| `ReportForm.CountCellRepeats` | forms/report_form.py:247-251 | a column named `a,a` counts each matching task twice |
| `ReportForm.Less` | forms/report_form.py:344 | two keys compare exactly when both are present and both are integers or both are texts |
| `ReportForm.Insert` | forms/report_form.py:344 | insertion adds one row |
| `ReportForm.SortDesc` | forms/report_form.py:344 | sorting keeps the number of rows |
| `ReportForm.WithKey` | forms/report_form.py:344 | the rows with a given key are rows of the input |
| `ReportForm.LtIrreflexive` | forms/report_form.py:344 | no key is less than itself |
| `ReportForm.LtAsymmetric` | forms/report_form.py:344 | two keys are never less than each other |
| `ReportForm.NotLtTransitive` | forms/report_form.py:344 | not-less-than is transitive on comparable keys |
| `ReportForm.ComparablePermutation` | forms/report_form.py:344 | comparability of a list of rows does not depend on their order |
| `ReportForm.InsertPermutation` | forms/report_form.py:344 | insertion adds exactly the new row |
| `ReportForm.SortDescPermutation` | forms/report_form.py:344 | sorting is a permutation |
| `ReportForm.InsertSorted` | forms/report_form.py:344 | inserting into a descending list keeps it descending |
| `ReportForm.SortDescSorted` | forms/report_form.py:344 | the sorted rows are in descending order of key |
| `ReportForm.InsertStable` | forms/report_form.py:344 | insertion keeps the order of rows with equal keys |
| `ReportForm.SortDescStable` | forms/report_form.py:344 | the sort is stable: rows with equal keys keep their relative order |
| `ReportForm.SortDescOfSorted` | forms/report_form.py:344 | sorting an already descending list changes nothing |
| `ReportForm.SortedTableMeets` | forms/report_form.py:334-345 | fails with IndexError iff the table is empty, and with TypeError iff the other rows hold incomparable keys; otherwise the rows are permuted, the last row stays last, the others are descending, and sorting again changes nothing |
| `ReportForm.SortedTableStable` | forms/report_form.py:343-345 | rows other than the last with equal keys keep their order |
| `ReportForm.InsertRow` | forms/report_form.py:344 | one insertion step in place, failing with TypeError and leaving the array unchanged when keys are incomparable |
| `ReportForm.Sink` | forms/report_form.py:344 | moves one row down to its place among the sorted rows before it |
| `ReportForm.SortPrefixStep` | forms/report_form.py:344 | sorting one more row is inserting it into the sorted prefix, and the array stays a permutation |
| `ReportForm.SortPrefix` | forms/report_form.py:344 | sorts the first n rows in place, failing iff they hold incomparable keys, and always keeps the array a permutation |
| `ReportForm.InsertNext` | forms/report_form.py:344 | extends the sorted prefix by one row, or reports the incomparable prefix |
| `ReportForm.SortTable` | forms/report_form.py:334-345 | sort_table in place: the new rows are the sorted table, or the same error; the array stays a permutation either way |
| `ReportForm.BuildTable` | forms/report_form.py:116-148 | the new rows of one report table from its form and tasks: filtering, first column, other columns, then the sort when there is a total column |
| `ReportForm.BuildRows` | forms/report_form.py:127-148 | the first and other columns and the sort, as in-place steps over an array of rows |
| `ReportForm.Fetch` | forms/report_form.py:111-116 | a missing form or registry fails with ApiError after the requests made so far; otherwise the form and its tasks, an absent task list read as empty |
| `ReportForm.FetchLog` | forms/report_form.py:112-113 | two requests per fetched form |
| `ReportForm.NewIdsSpec` | forms/report_form.py:105-114 | the forms still to fetch are the distinct ids of the remaining tables not yet in the cache |
| `ReportForm.FetchLogConcat` | forms/report_form.py:112-113 | the fetch log of two id lists is the concatenation of their logs |
| `ReportForm.TablesFromFetches` | forms/report_form.py:105-114 | on success the requests made are exactly one fetch per form not yet cached, in first-use order |
| `ReportForm.TablesFetchOnce` | forms/report_form.py:102-114 | each source form is fetched once however many tables use it |
| `ReportForm.TablesFromIds` | forms/report_form.py:105-150 | on success there is one table per report table, in order, keyed by its field id |
| `ReportForm.PutAllKeys` | forms/report_form.py:150 | the table dict is well formed and its keys are the stored table ids |
| `ReportForm.TablesKeys` | forms/report_form.py:103-151 | the keys of the result are exactly the ids of the report tables |
| `ReportForm.TablesFromStep` | forms/report_form.py:105-150 | one iteration: fetch or reuse the form, build the rows, then cache the form and store the table, or stop at the first error |
| `ReportForm.RealisedPut` | forms/report_form.py:149-150 | storing a table's row objects realises storing its rows |
| `ReportForm.TableBuilderAgrees` | forms/report_form.py:116-148 | the builder used by get_tables computes each table's rows from its fetched form |
| `ReportForm.GetTable` | forms/report_form.py:107-148 | one table from the cache or from fresh fetches, logging exactly the fetches made and keeping the cache faithful to the platform |
| `ReportForm.StoreTable` | forms/report_form.py:149-150 | stores fresh row objects for the table |
| `ReportForm.NextTable` | forms/report_form.py:105-150 | one iteration of the loop, matching one step of the specification |
| `ReportForm.GetTables` | forms/report_form.py:85-151 | the requests made and the result are those of `Tables`: the first error, or new row objects for every report table |
| `ReportForm.GetTablesWith` | forms/report_form.py:102-151 | the get_tables loop with its invariants, for any table builder |
| `ReportForm.RewriteTables` | forms/report_form.py:65-82 | clears then writes: on failure, no comment is made; otherwise a clearing comment then the new tables, and exactly the cleared rows become deleted |
| `ReportForm.ProcessReports` | forms/report_form.py:21-62 | the whole run: an error in filters, discovery or building stops it after the fetches made; otherwise the tables are cleared and rewritten with the planned rows |
| `Entities.ObjectById` | forms/report_form.py:184 | a field of the list with the id, or none when no field has it |
| `Entities.ObjectByIdFirst` | forms/report_form.py:184 | the field returned is the first one with the id |
| `Entities.ObjectByCode` | forms/report_form.py:272 | a field of the list with the code; a missing code matches nothing |
| `Entities.ObjectByCodeFirst` | forms/report_form.py:272 | the field returned is the first one with the code |
| `Entities.Urlencode` | forms/report_form.py:330 | the encoded link is empty exactly when the dict is empty |
| `Entities.TableRowsOf` | utils.py:310-311 | an empty table value gives no rows, a table its rows |
| `Entities.Client.GetForm` | forms/report_form.py:112 | logs the fetch and returns the form, or fails with ApiError |
| `Entities.Client.GetRegistry` | forms/report_form.py:113 | logs the fetch and returns the registry, or fails with ApiError |
| `Entities.Client.CommentTask` | utils.py:316 | logs one comment with the field updates |
| `Strings.Split` | utils.py:25 | `str.split`: at least one part, none containing the separator |
| `Strings.JoinSplit` | utils.py:25 | joining the parts of a split gives back the string |
| `Strings.SplitJoin` | utils.py:249 | splitting a join of separator-free parts gives back the parts |
| `Strings.Strip` | utils.py:249 | `str.strip`: the result is a slice of the input whose surrounding characters are all whitespace, and it neither starts nor ends with whitespace |
| `Strings.StripIdempotent` | utils.py:254 | stripping twice is stripping once |
| `Strings.ParseIntToString` | utils.py:31 | `int(str(n)) == n` |
| `Strings.NatToString` | utils.py:29-31 | the decimal text of a number is all digits |
| `Strings.StrLessTransitive` | forms/report_form.py:344 | text ordering is transitive |
| `Strings.StrLessTotal` | forms/report_form.py:344 | distinct texts are ordered one way or the other |
| `OrderedDicts.Put` | forms/report_form.py:150 | `d[k] = v`: a new key goes last, an existing key keeps its place, and other keys keep their values |
| `OrderedDicts.Dedup` | forms/report_form.py:191-195 | the distinct keys, each once |
| `OrderedDicts.GroupBy` | forms/report_form.py:191-194 | the keys of the grouping are the distinct keys in first-seen order |
| `OrderedDicts.GroupByStep` | forms/report_form.py:191-194 | one more item appends to its key's group, or starts a new group |
| `OrderedDicts.GroupByGet` | forms/report_form.py:191-194 | a key's group is exactly the items with that key, in order |
| `OrderedDicts.GroupBySize` | forms/report_form.py:191-194 | the groups together hold every item once |
| `OrderedDicts.SelectMembers` | forms/report_form.py:191-194 | a group holds exactly the items with its key |
| `OrderedDicts.DedupFirstSeen` | forms/report_form.py:191-195 | distinct keys keep their first-seen order |

## Left out

- Network transport, HMAC signature checking, threading, the web app and `process_request` are not part of this model. Neither is the configuration loader: its settings are a `Config` value.
- `Entities.Urlencode`: percent-encoding of keys and values is not modelled. Keys and values are joined as `k=v` with `&`.
- `Strings.ParseInt`: Python's `int()` also accepts underscores between digits and non-ASCII digits. The model accepts surrounding whitespace, an optional sign and ASCII digits.
- `Strings.IsDigits`: Python's `str.isdigit` (utils.py:29, utils.py:200) also accepts Unicode digits. An Arabic-Indic `٣` reads as 3 in Python but is not a digit here, so the form id is 0. A superscript `²` passes `isdigit` and then makes `int()` raise an uncaught ValueError; here the form id is 0 and the catalog position gives -1. Only ASCII digits are modelled.
- `Utils.MatchedCatalog`: a catalog item whose id is -1 reads as no match, as it does in Python, because -1 is the not-found value of `get_catalog_item`.
- `Entities.Str`: the text Python gives a non-empty table value (a list of row objects) is not reproduced. It is a fixed text.
- Logging (the `logger.debug` messages) is left out.
- The pyrustools lookups are modelled from their observable use, because their source is not part of this model. They return the first match, and a `None` id or code matches nothing.
- The contact directory and the catalogs (`get_contacts`, `get_catalog`) are a `Directory` value that every lookup reads. Their fetches are not recorded in the client's request log.
- `ReportForm.SortTable`: when the sort fails with TypeError, Python has already popped the last row. The model keeps all rows, as a permutation of the input. The error then aborts the whole request, so no caller sees those rows.
- Dict keys compare by value. Python's `res[field]` in `process_reports` keys by the field object, which for the platform's distinct fields is the same.
- `ReportForm.ReportTables`: the discovered tables are a list of (field, form id) pairs, not a dict keyed by field. Two equal template fields would collapse to one entry in Python.
- `ReportForm.TableBuilder`: it has a branch for a registry whose values do not match their field types. That branch fails with AttributeError, and `Entities.Client.Valid` rules it out.
- Values that Python cannot order (mixed kinds, or an absent cell) fail the sort with TypeError. Any other non-integer, non-text key (`Other`) is treated the same way.
