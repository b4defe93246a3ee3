/** The cross-tab report engine (forms/report_form.py): it finds the report
    tables of a form, reads the extra filters from a filter table, narrows
    each registry by those filters, groups the tasks by the value of the
    first column, fills the other columns per group, sorts the rows by the
    `total` column and writes the tables back to the task. */
module ReportForm {
  import opened Wrappers
  import opened Strings
  import opened OrderedDicts
  import opened Entities
  import opened Utils

  // ---------------------------------------------------------------------------
  // Table discovery (process_reports)

  /** A field the engine fills: a table whose code contains `REPORT`. */
  predicate IsReportTable(f: FormField) {
    f.info.code.Some? && f.fieldType.TableType? && Contains(f.info.code.value, "REPORT")
  }

  /** The report tables among `fields`, in order, each with the form id read
      from its code; a code without an exact `REPORT` token raises. */
  function ReportTables(fields: seq<FormField>): (r: Result<seq<(FormField, nat)>>)
    ensures r.Failure? ==> r.error == ValueError
    ensures r.Success? ==> |r.value| <= |fields|
  {
    if |fields| == 0 then Success([])
    else
      var prev :- ReportTables(fields[..|fields| - 1]);
      var f := fields[|fields| - 1];
      if IsReportTable(f) then
        var id :- GetFormIdFromCode(f.info.code.value);
        Success(prev + [(f, id)])
      else Success(prev)
  }

  /** A rule of the filter table: the code of the field to filter on and the
      value to filter by, as the cells hold them. */
  type Rule = (Option<Value>, Option<Value>)

  /** `filters_to_id`: the rules of each report table, by field id, for the
      tables the filter table names with at least one rule. */
  function FiltersToId(fields: seq<FormField>, filters: Dict<Option<Value>, seq<Rule>>): Dict<int, seq<Rule>>
  {
    if |fields| == 0 then []
    else
      var prev := FiltersToId(fields[..|fields| - 1], filters);
      var f := fields[|fields| - 1];
      if !IsReportTable(f) || GetFormIdFromCode(f.info.code.value).Failure? then prev
      else
        match Get(filters, Some(Text(f.info.code.value)))
        case Some(rules) => if |rules| > 0 then Put(prev, f.id, rules) else prev
        case None => prev
  }

  /** The discovery loop of `process_reports`: every field with a code that
      is a table and contains `REPORT` is paired with the form id in its code,
      and its rules, if any, are kept by field id. */
  method FindReportTables(fields: seq<FormField>, filters: Dict<Option<Value>, seq<Rule>>)
    returns (r: Result<(seq<(FormField, nat)>, Dict<int, seq<Rule>>)>)
    ensures r.Failure? <==> ReportTables(fields).Failure?
    ensures r.Failure? ==> r.error == ValueError
    ensures r.Success? ==> r.value == (ReportTables(fields).value, FiltersToId(fields, filters))
  {
    var res: seq<(FormField, nat)> := [];
    var filtersToId: Dict<int, seq<Rule>> := [];
    var i := 0;
    while i < |fields|
      invariant 0 <= i <= |fields|
      invariant ReportTables(fields[..i]) == Success(res)
      invariant FiltersToId(fields[..i], filters) == filtersToId
    {
      var field := fields[i];
      ghost var prefix := fields[..i + 1];
      assert prefix[..|prefix| - 1] == fields[..i] && prefix[|prefix| - 1] == field;
      if field.info.code.None? {
        i := i + 1;
        continue;
      }
      var code := field.info.code.value;
      if field.fieldType.TableType? && Contains(code, "REPORT") {
        var id := GetFormIdFromCode(code);
        if id.Failure? {
          ReportTablesPrefixFailure(fields, i + 1);
          return Failure(id.error);
        }
        res := res + [(field, id.value)];
        var filterTable := Get(filters, Some(Text(code)));
        if filterTable.Some? && |filterTable.value| > 0 {
          filtersToId := Put(filtersToId, field.id, filterTable.value);
        }
      }
      i := i + 1;
    }
    assert fields[..i] == fields;
    return Success((res, filtersToId));
  }

  lemma {:induction false} ReportTablesPrefixFailure(fields: seq<FormField>, n: nat)
    requires n <= |fields| && ReportTables(fields[..n]).Failure?
    ensures ReportTables(fields) == ReportTables(fields[..n])
    decreases |fields|
  {
    if n < |fields| {
      var front := fields[..|fields| - 1];
      assert front[..n] == fields[..n];
      ReportTablesPrefixFailure(front, n);
    } else {
      assert fields[..n] == fields;
    }
  }

  /** Every table found is a report table, its form id is the one in its
      code, and the report tables are found in form order. */
  lemma {:induction false} ReportTablesExact(fields: seq<FormField>)
    requires ReportTables(fields).Success?
    ensures forall p :: p in ReportTables(fields).value ==>
      p.0 in fields && IsReportTable(p.0) && GetFormIdFromCode(p.0.info.code.value) == Success(p.1)
    ensures forall f :: f in fields && IsReportTable(f) ==> exists p :: p in ReportTables(fields).value && p.0 == f
  {
    if |fields| > 0 {
      var front := fields[..|fields| - 1];
      assert fields == front + [fields[|fields| - 1]];
      ReportTablesExact(front);
    }
  }

  /** The filter table lists at least one rule for the report table `f`. */
  predicate Named(filters: Dict<Option<Value>, seq<Rule>>, f: FormField)
    requires f.info.code.Some?
  {
    var rules := Get(filters, Some(Text(f.info.code.value)));
    rules.Some? && |rules.value| > 0
  }

  /** A field that is not a report table, or whose table name the filter
      table does not list with a rule, has no rules. */
  lemma {:induction false} FiltersToIdOnlyNamed(fields: seq<FormField>, filters: Dict<Option<Value>, seq<Rule>>, id: int)
    requires Valid(filters)
    requires id in Keys(FiltersToId(fields, filters))
    ensures exists f :: f in fields && f.id == id && IsReportTable(f) && Named(filters, f)
  {
    var front := fields[..|fields| - 1];
    var f := fields[|fields| - 1];
    assert f in fields;
    if id in Keys(FiltersToId(front, filters)) {
      FiltersToIdOnlyNamed(front, filters, id);
    }
  }

  // ---------------------------------------------------------------------------
  // get_additional_filters

  /** `getattr(object_by_code(row.cells, code), 'value')`: the value of the
      row's cell with that code; a missing cell raises AttributeError. */
  function CellValue(row: TableRow, code: string): (r: Result<Option<Value>>)
    ensures r.Failure? <==> ObjectByCode(row.cells, Some(code)).None?
  {
    match ObjectByCode(row.cells, Some(code))
    case None => Failure(AttributeError)
    case Some(f) => Success(f.value)
  }

  /** The body of the loop of `get_additional_filters` for one row: the
      values of its `filter_table`, `filter_field` and `filter_value` cells,
      giving the table the rule applies to and the rule `[filter_field,
      filter_value]`. A table value as the key is a list, which a dict cannot
      hold (TypeError). */
  function FilterEntry(row: TableRow): Result<(Option<Value>, Rule)>
  {
    var table :- CellValue(row, "filter_table");
    var field :- CellValue(row, "filter_field");
    var value :- CellValue(row, "filter_value");
    if table.Some? && table.value.Table? then Failure(TypeError)
    else Success((table, (field, value)))
  }

  /** The entries of the rows, in order; the first row that raises aborts. */
  function FilterEntries(rows: seq<TableRow>): (r: Result<seq<(Option<Value>, Rule)>>)
    ensures r.Success? ==> |r.value| == |rows|
  {
    if |rows| == 0 then Success([])
    else
      var prev :- FilterEntries(rows[..|rows| - 1]);
      var e :- FilterEntry(rows[|rows| - 1]);
      Success(prev + [e])
  }

  /** The rows of the filter table with code `code` among the task's fields;
      none when there is no such table or it is empty. */
  function FilterRows(taskFields: seq<FormField>, code: Option<string>): Result<seq<TableRow>>
  {
    match ObjectByCode(taskFields, code)
    case None => Success([])
    case Some(t) => TableRowsOf(t.value)
  }

  /** What `get_additional_filters` returns: the rules grouped by the table
      they apply to, tables in first-seen order and rules in row order. */
  function AdditionalFilters(taskFields: seq<FormField>, code: Option<string>): Result<Dict<Option<Value>, seq<Rule>>>
  {
    var rows :- FilterRows(taskFields, code);
    var entries :- FilterEntries(rows);
    Success(GroupBy(Firsts(entries), Seconds(entries)))
  }

  function Firsts<A, B>(s: seq<(A, B)>): (r: seq<A>)
    ensures |r| == |s| && forall i :: 0 <= i < |s| ==> r[i] == s[i].0
  {
    seq(|s|, i requires 0 <= i < |s| => s[i].0)
  }

  function Seconds<A, B>(s: seq<(A, B)>): (r: seq<B>)
    ensures |r| == |s| && forall i :: 0 <= i < |s| ==> r[i] == s[i].1
  {
    seq(|s|, i requires 0 <= i < |s| => s[i].1)
  }

  /** `get_additional_filters(task_fields, code_add_filter)`. */
  method GetAdditionalFilters(taskFields: seq<FormField>, code: Option<string>)
    returns (r: Result<Dict<Option<Value>, seq<Rule>>>)
    ensures r == AdditionalFilters(taskFields, code)
  {
    var table := ObjectByCode(taskFields, code);
    var rowsOf := TableRowsOf(if table.Some? then table.value.value else None);
    if rowsOf.Failure? {
      return Failure(rowsOf.error);
    }
    var rows := rowsOf.value;
    var filters: Dict<Option<Value>, seq<Rule>> := [];
    ghost var entries: seq<(Option<Value>, Rule)> := [];
    var i := 0;
    while i < |rows|
      invariant 0 <= i <= |rows|
      invariant FilterEntries(rows[..i]) == Success(entries)
      invariant filters == GroupBy(Firsts(entries), Seconds(entries))
    {
      var e := FilterEntry(rows[i]);
      if e.Failure? {
        FilterEntriesPrefixFailure(rows, i + 1);
        return Failure(e.error);
      }
      var key := e.value.0;
      var rule := e.value.1;
      FilterEntriesStep(rows, i, entries, (key, rule));
      filters := Append(filters, key, rule);
      entries := entries + [(key, rule)];
      i := i + 1;
    }
    assert rows[..i] == rows;
    return Success(filters);
  }

  /** One more row: its entry follows the entries before it, and the
      grouping takes it in as `if k in d: d[k].append(v) else: d[k] = [v]`. */
  lemma FilterEntriesStep(rows: seq<TableRow>, i: nat, entries: seq<(Option<Value>, Rule)>, e: (Option<Value>, Rule))
    requires i < |rows| && FilterEntries(rows[..i]) == Success(entries) && FilterEntry(rows[i]) == Success(e)
    ensures FilterEntries(rows[..i + 1]) == Success(entries + [e])
    ensures GroupBy(Firsts(entries + [e]), Seconds(entries + [e]))
      == Append(GroupBy(Firsts(entries), Seconds(entries)), e.0, e.1)
  {
    assert rows[..i + 1][..i] == rows[..i];
    GroupByEntriesStep(entries, e);
  }

  lemma GroupByEntriesStep(entries: seq<(Option<Value>, Rule)>, e: (Option<Value>, Rule))
    ensures GroupBy(Firsts(entries + [e]), Seconds(entries + [e]))
      == Append(GroupBy(Firsts(entries), Seconds(entries)), e.0, e.1)
  {
    var ks, vs := Firsts(entries), Seconds(entries);
    assert Firsts(entries + [e]) == ks + [e.0];
    assert Seconds(entries + [e]) == vs + [e.1];
    calc {
      GroupBy(Firsts(entries + [e]), Seconds(entries + [e]));
      GroupBy(ks + [e.0], vs + [e.1]);
      { GroupByStep(ks, vs, e.0, e.1); }
      Append(GroupBy(ks, vs), e.0, e.1);
    }
  }

  lemma {:induction false} FilterEntriesPrefixFailure(rows: seq<TableRow>, n: nat)
    requires n <= |rows| && (FilterEntries(rows[..n]).Failure? || (n > 0 && FilterEntry(rows[n - 1]).Failure?))
    ensures FilterEntries(rows).Failure?
    ensures n > 0 && FilterEntries(rows[..n - 1]).Success? && FilterEntry(rows[n - 1]).Failure? ==>
      FilterEntries(rows).error == FilterEntry(rows[n - 1]).error
    ensures FilterEntries(rows[..n]).Failure? ==> FilterEntries(rows) == FilterEntries(rows[..n])
    decreases |rows|
  {
    if n < |rows| {
      var front := rows[..|rows| - 1];
      assert front[..n] == rows[..n];
      if n > 0 {
        assert front[..n - 1] == rows[..n - 1];
        assert front[n - 1] == rows[n - 1];
      }
      FilterEntriesPrefixFailure(front, n);
    } else {
      assert rows[..n] == rows;
    }
  }

  /** Without a filter table (or with an empty one) there are no filters. */
  lemma NoFilterTable(taskFields: seq<FormField>, code: Option<string>)
    requires ObjectByCode(taskFields, code).None? || ObjectByCode(taskFields, code).value.value.None?
    ensures AdditionalFilters(taskFields, code) == Success([])
  {
    assert FilterEntries([]) == Success([]);
  }

  /** Each table's rules are the rules of the rows that name it, in row
      order, and a table no row names has none. */
  lemma AdditionalFiltersOfTable(taskFields: seq<FormField>, code: Option<string>, table: Option<Value>)
    requires AdditionalFilters(taskFields, code).Success?
    ensures var rows := FilterRows(taskFields, code).value;
      var entries := FilterEntries(rows).value;
      Get(AdditionalFilters(taskFields, code).value, table) ==
        if table in Firsts(entries) then Some(Select(Firsts(entries), Seconds(entries), table)) else None
  {
    var rows := FilterRows(taskFields, code).value;
    var entries := FilterEntries(rows).value;
    GroupByGet(Firsts(entries), Seconds(entries), table);
  }

  // ---------------------------------------------------------------------------
  // to_filter_add

  /** What the filters have produced so far: the remaining tasks and the
      registry parameters, by key. */
  type FilterState = (seq<Task>, Dict<string, string>)

  /** `object_by_code(form_fields, filter_field_code)`: a code cell holding
      text names the field with that code; any other value names none. */
  function RuleField(formFields: seq<FormField>, code: Option<Value>): Option<FormField>
  {
    ObjectByCode(formFields, if code.Some? && code.value.Text? then Some(code.value.text) else None)
  }

  /** One iteration of the loop of `to_filter_add`: the tasks are narrowed to
      those the rule's value selects in the rule's field, and the registry
      parameter for that value is recorded when its key is not empty. A rule
      naming no field, or whose value is not text, raises AttributeError. */
  function FilterStep(formFields: seq<FormField>, dir: Directory, state: FilterState, rule: Rule): (r: Result<FilterState>)
    ensures r.Success? ==> forall t :: t in r.value.0 ==> t in state.0
    ensures r.Success? && Valid(state.1) ==> Valid(r.value.1)
    ensures r.Success? ==> forall k :: k in Keys(r.value.1) ==> k in Keys(state.1) || k != ""
  {
    match RuleField(formFields, rule.0)
    case None => Failure(AttributeError)
    case Some(field) =>
      if !(rule.1.Some? && rule.1.value.Text?) then Failure(AttributeError)
      else
        var value := rule.1.value.text;
        var tasks :- Filtered(state.0, value, Some(field.id));
        var fragment :- PrepareRegistryFromForm(field, value, dir);
        Success((tasks, if fragment.0 != "" then Put(state.1, fragment.0, fragment.1) else state.1))
  }

  /** The rules applied in order, each to the output of the one before. */
  function ApplyFilters(formFields: seq<FormField>, dir: Directory, start: FilterState, rules: seq<Rule>): Result<FilterState>
  {
    if |rules| == 0 then Success(start)
    else
      var state :- ApplyFilters(formFields, dir, start, rules[..|rules| - 1]);
      FilterStep(formFields, dir, state, rules[|rules| - 1])
  }

  /** What `to_filter_add(form_fields, tasks, filters_data, client)` returns:
      the tasks every rule keeps and the registry link of the recorded
      parameters. */
  function FilterAdd(formFields: seq<FormField>, tasks: seq<Task>, rules: seq<Rule>, dir: Directory): Result<(seq<Task>, string)>
  {
    var state :- ApplyFilters(formFields, dir, (tasks, []), rules);
    Success((state.0, Urlencode(state.1)))
  }

  lemma ApplyFiltersStep(formFields: seq<FormField>, dir: Directory, start: FilterState, rules: seq<Rule>, i: nat, state: FilterState)
    requires i < |rules| && ApplyFilters(formFields, dir, start, rules[..i]) == Success(state)
    ensures ApplyFilters(formFields, dir, start, rules[..i + 1]) == FilterStep(formFields, dir, state, rules[i])
  {
    assert rules[..i + 1][..i] == rules[..i];
  }

  lemma {:induction false} ApplyFiltersPrefixFailure(formFields: seq<FormField>, dir: Directory, start: FilterState, rules: seq<Rule>, n: nat)
    requires n <= |rules| && ApplyFilters(formFields, dir, start, rules[..n]).Failure?
    ensures ApplyFilters(formFields, dir, start, rules) == ApplyFilters(formFields, dir, start, rules[..n])
    decreases |rules|
  {
    if n < |rules| {
      var front := rules[..|rules| - 1];
      assert front[..n] == rules[..n];
      ApplyFiltersPrefixFailure(formFields, dir, start, front, n);
    } else {
      assert rules[..n] == rules;
    }
  }

  /** `to_filter_add(form_fields, tasks, filters_data, client)`. */
  method ToFilterAdd(formFields: seq<FormField>, tasks: seq<Task>, rules: seq<Rule>, dir: Directory)
    returns (r: Result<(seq<Task>, string)>)
    ensures r == FilterAdd(formFields, tasks, rules, dir)
  {
    var current := tasks;
    var registry: Dict<string, string> := [];
    var i := 0;
    while i < |rules|
      invariant 0 <= i <= |rules|
      invariant ApplyFilters(formFields, dir, (tasks, []), rules[..i]) == Success((current, registry))
    {
      ApplyFiltersStep(formFields, dir, (tasks, []), rules, i, (current, registry));
      var rule := rules[i];
      var field := RuleField(formFields, rule.0);
      if field.None? || !(rule.1.Some? && rule.1.value.Text?) {
        ApplyFiltersPrefixFailure(formFields, dir, (tasks, []), rules, i + 1);
        return Failure(AttributeError);
      }
      var value := rule.1.value.text;
      var filtered := FilterTasks(current, value, Some(field.value.id));
      if filtered.Failure? {
        ApplyFiltersPrefixFailure(formFields, dir, (tasks, []), rules, i + 1);
        return Failure(filtered.error);
      }
      var fragment := PrepareRegistryFromForm(field.value, value, dir);
      if fragment.Failure? {
        ApplyFiltersPrefixFailure(formFields, dir, (tasks, []), rules, i + 1);
        return Failure(fragment.error);
      }
      current := filtered.value;
      if fragment.value.0 != "" {
        registry := Put(registry, fragment.value.0, fragment.value.1);
      }
      i := i + 1;
    }
    assert rules[..i] == rules;
    return Success((current, Urlencode(registry)));
  }

  /** AND semantics: applying `p + q` is applying `p`, then applying `q` to
      what `p` left; the first failure ends it. */
  lemma {:induction false} ApplyFiltersChain(formFields: seq<FormField>, dir: Directory, start: FilterState, p: seq<Rule>, q: seq<Rule>)
    ensures ApplyFilters(formFields, dir, start, p + q) ==
      match ApplyFilters(formFields, dir, start, p)
      case Failure(e) => Failure(e)
      case Success(mid) => ApplyFilters(formFields, dir, mid, q)
  {
    if |q| == 0 {
      assert p + q == p;
    } else {
      var n := |q| - 1;
      assert (p + q)[..|p + q| - 1] == p + q[..n];
      assert (p + q)[|p + q| - 1] == q[n];
      ApplyFiltersChain(formFields, dir, start, p, q[..n]);
    }
  }

  /** The filters only ever remove tasks, keep the registry a dict, and
      record only non-empty keys. */
  lemma {:induction false} ApplyFiltersNarrows(formFields: seq<FormField>, dir: Directory, start: FilterState, rules: seq<Rule>)
    requires ApplyFilters(formFields, dir, start, rules).Success?
    ensures forall t :: t in ApplyFilters(formFields, dir, start, rules).value.0 ==> t in start.0
    ensures Valid(start.1) ==> Valid(ApplyFilters(formFields, dir, start, rules).value.1)
    ensures forall k :: k in Keys(ApplyFilters(formFields, dir, start, rules).value.1) ==>
      k in Keys(start.1) || k != ""
  {
    if |rules| > 0 {
      ApplyFiltersNarrows(formFields, dir, start, rules[..|rules| - 1]);
    }
  }

  /** The last rule's registry parameter wins over any earlier one with the
      same key; a rule whose key is empty records nothing. */
  lemma LaterRuleWins(formFields: seq<FormField>, dir: Directory, start: FilterState, rules: seq<Rule>, rule: Rule,
                      field: FormField, value: string)
    requires RuleField(formFields, rule.0) == Some(field) && rule.1 == Some(Text(value))
    requires ApplyFilters(formFields, dir, start, rules + [rule]).Success?
    ensures PrepareRegistryFromForm(field, value, dir).Success?
    ensures var (k, v) := PrepareRegistryFromForm(field, value, dir).value;
      var before := ApplyFilters(formFields, dir, start, rules).value.1;
      var after := ApplyFilters(formFields, dir, start, rules + [rule]).value.1;
      if k != "" then Get(after, k) == Some(v) else after == before
  {
    assert (rules + [rule])[..|rules|] == rules;
  }

  // ---------------------------------------------------------------------------
  // prepare_first_col

  /** The key tasks are grouped by: the normalised value of the first
      column's field and that value's registry fragment. */
  type GroupKey = (string, string)

  /** The name of the closing row and its key. */
  const TotalName := "Всего"
  const Total: GroupKey := (TotalName, "")

  /** The code a column takes its values from: its own code, or the code the
      configuration maps it to. */
  function SourceCode(col: FormField, config: Config): Option<string>
  {
    if col.info.code.Some? && col.info.code.value in config.mappingServiceCode then
      Some(config.mappingServiceCode[col.info.code.value])
    else col.info.code
  }

  /** The group key of one task: `(prepare_value(f), prepare_registry_from_field(f))`
      for its field `f` with id `sourceId`; a task without that field raises
      AttributeError in the second. */
  function TaskKey(t: Task, sourceId: Option<int>): (r: Result<GroupKey>)
    requires TaskWellTyped(t)
  {
    var f := ObjectById(t.fields, sourceId);
    var value :- PrepareValue(f);
    var link :- PrepareRegistryFromField(f);
    Success((value, link))
  }

  /** The keys of all tasks, in order; the first task that raises aborts. */
  function TaskKeys(tasks: seq<Task>, sourceId: Option<int>): (r: Result<seq<GroupKey>>)
    requires TasksWellTyped(tasks)
    ensures r.Success? ==> |r.value| == |tasks|
  {
    if |tasks| == 0 then Success([])
    else
      var prev :- TaskKeys(tasks[..|tasks| - 1], sourceId);
      var k :- TaskKey(tasks[|tasks| - 1], sourceId);
      Success(prev + [k])
  }

  /** The row dict `{first_col_id: value}` that starts a row. */
  function Stub(colId: int, name: string): Row
  {
    [(colId, Text(name))]
  }

  function Stubs(colId: int, keys: seq<GroupKey>): (r: seq<Row>)
    ensures |r| == |keys| && forall i :: 0 <= i < |keys| ==> r[i] == Stub(colId, keys[i].0)
  {
    seq(|keys|, i requires 0 <= i < |keys| => Stub(colId, keys[i].0))
  }

  /** The rows and groups for tasks with keys `keys`: one row per distinct
      key in first-seen order and the closing total row, and the tasks
      grouped by key with the total key then bound to every task. */
  function Grouped(colId: int, keys: seq<GroupKey>, tasks: seq<Task>): (seq<Row>, Dict<GroupKey, seq<Task>>)
    requires |keys| == |tasks|
  {
    (Stubs(colId, Dedup(keys)) + [Stub(colId, TotalName)], Put(GroupBy(keys, tasks), Total, tasks))
  }

  /** What `prepare_first_col` returns: nothing when the first column has no
      code, otherwise the rows and groups of the tasks' keys. */
  function FirstCol(firstCol: FormField, sourceFields: seq<FormField>, tasks: seq<Task>, config: Config)
    : Result<(seq<Row>, Dict<GroupKey, seq<Task>>)>
    requires TasksWellTyped(tasks)
  {
    var code := SourceCode(firstCol, config);
    if code.None? then Success(([], []))
    else
      var keys :- TaskKeys(tasks, GetIdByCode(sourceFields, code));
      Success(Grouped(firstCol.id, keys, tasks))
  }

  lemma TaskKeysStep(tasks: seq<Task>, sourceId: Option<int>, i: nat, keys: seq<GroupKey>, k: GroupKey)
    requires TasksWellTyped(tasks) && i < |tasks|
    requires TaskKeys(tasks[..i], sourceId) == Success(keys) && TaskKey(tasks[i], sourceId) == Success(k)
    ensures TaskKeys(tasks[..i + 1], sourceId) == Success(keys + [k])
  {
    assert tasks[..i + 1][..i] == tasks[..i];
  }

  /** One more task: the grouping takes it in as `if k in res:
      res[k].append(task) else: res[k] = [task]`, and a new key adds a row. */
  lemma FirstColStep(tasks: seq<Task>, i: nat, keys: seq<GroupKey>, k: GroupKey, colId: int)
    requires i < |tasks| && |keys| == i
    ensures GroupBy(keys + [k], tasks[..i + 1]) == Append(GroupBy(keys, tasks[..i]), k, tasks[i])
    ensures k in Keys(GroupBy(keys, tasks[..i])) <==> k in Dedup(keys)
    ensures Stubs(colId, Dedup(keys + [k])) ==
      Stubs(colId, Dedup(keys)) + (if k in Dedup(keys) then [] else [Stub(colId, k.0)])
  {
    assert tasks[..i + 1] == tasks[..i] + [tasks[i]];
    GroupByStep(keys, tasks[..i], k, tasks[i]);
    assert (keys + [k])[..|keys|] == keys;
  }

  /** The first task whose key raises aborts the whole grouping. */
  lemma TaskKeysFailAt(tasks: seq<Task>, sourceId: Option<int>, i: nat, keys: seq<GroupKey>)
    requires TasksWellTyped(tasks) && i < |tasks|
    requires TaskKeys(tasks[..i], sourceId) == Success(keys) && TaskKey(tasks[i], sourceId).Failure?
    ensures TaskKeys(tasks, sourceId) == Failure(TaskKey(tasks[i], sourceId).error)
  {
    assert tasks[..i + 1][..i] == tasks[..i];
    TaskKeysPrefixFailure(tasks, sourceId, i + 1);
  }

  lemma {:induction false} TaskKeysPrefixFailure(tasks: seq<Task>, sourceId: Option<int>, n: nat)
    requires TasksWellTyped(tasks)
    requires n <= |tasks| && TaskKeys(tasks[..n], sourceId).Failure?
    ensures TaskKeys(tasks, sourceId) == TaskKeys(tasks[..n], sourceId)
    decreases |tasks|
  {
    if n < |tasks| {
      var front := tasks[..|tasks| - 1];
      assert front[..n] == tasks[..n];
      TaskKeysPrefixFailure(front, sourceId, n);
    } else {
      assert tasks[..n] == tasks;
    }
  }

  /** `prepare_first_col(first_col, source_form_fields, tasks, config)`. */
  method PrepareFirstCol(firstCol: FormField, sourceFields: seq<FormField>, tasks: seq<Task>, config: Config)
    returns (r: Result<(seq<Row>, Dict<GroupKey, seq<Task>>)>)
    requires TasksWellTyped(tasks)
    ensures r == FirstCol(firstCol, sourceFields, tasks, config)
  {
    var res: Dict<GroupKey, seq<Task>> := [];
    var rows: seq<Row> := [];
    var code := SourceCode(firstCol, config);
    var firstColId := firstCol.id;
    if code.None? {
      return Success((rows, res));
    }
    var sourceId := GetIdByCode(sourceFields, code);
    ghost var keys: seq<GroupKey> := [];
    var i := 0;
    while i < |tasks|
      invariant 0 <= i <= |tasks|
      invariant TaskKeys(tasks[..i], sourceId) == Success(keys)
      invariant res == GroupBy(keys, tasks[..i])
      invariant rows == Stubs(firstColId, Dedup(keys))
    {
      var task := tasks[i];
      assert task in tasks;
      var key := TaskKey(task, sourceId);
      if key.Failure? {
        TaskKeysFailAt(tasks, sourceId, i, keys);
        return Failure(key.error);
      }
      TaskKeysStep(tasks, sourceId, i, keys, key.value);
      FirstColStep(tasks, i, keys, key.value, firstColId);
      if key.value !in Keys(res) {
        rows := rows + [Stub(firstColId, key.value.0)];
      }
      res := Append(res, key.value, task);
      keys := keys + [key.value];
      i := i + 1;
    }
    assert tasks[..i] == tasks;
    res := Put(res, Total, tasks);
    rows := rows + [Stub(firstColId, TotalName)];
    return Success((rows, res));
  }

  /** The groups and rows for the keys: the total key maps to every task; any
      other key maps to the tasks with that key, in order; the keys come in
      first-seen order with the total key last unless a task produced it; one
      row per distinct key, labelled by the key's value, then the total row. */
  lemma GroupedShape(colId: int, keys: seq<GroupKey>, tasks: seq<Task>)
    requires |keys| == |tasks|
    ensures var (rows, groups) := Grouped(colId, keys, tasks);
      && Valid(groups)
      && Get(groups, Total) == Some(tasks)
      && (forall k :: k != Total ==> Get(groups, k) == if k in keys then Some(Select(keys, tasks, k)) else None)
      && Keys(groups) == Dedup(keys) + (if Total in keys then [] else [Total])
      && |rows| == |Dedup(keys)| + 1
      && rows[|rows| - 1] == Stub(colId, TotalName)
      && (forall i :: 0 <= i < |rows| - 1 ==> rows[i] == Stub(colId, Keys(groups)[i].0))
  {
    var g := GroupBy(keys, tasks);
    assert Valid(g);
    forall k | k != Total
      ensures Get(Put(g, Total, tasks), k) == if k in keys then Some(Select(keys, tasks, k)) else None
    {
      GroupByGet(keys, tasks, k);
      if k in Keys(g) {
        assert k in Keys(Put(g, Total, tasks));
      }
    }
  }

  /** Without a collision with the total key, row `i` belongs to group `i`:
      the rows and groups line up one to one, the total group comes last, and
      the other groups hold every task exactly once between them. */
  lemma GroupedAligned(colId: int, keys: seq<GroupKey>, tasks: seq<Task>)
    requires |keys| == |tasks| && Total !in keys
    ensures var (rows, groups) := Grouped(colId, keys, tasks);
      && |rows| == |groups|
      && (forall i :: 0 <= i < |rows| ==> rows[i] == Stub(colId, groups[i].0.0))
      && groups[|groups| - 1] == (Total, tasks)
      && Size(groups[..|groups| - 1]) == |tasks|
  {
    var g := GroupBy(keys, tasks);
    assert Total !in Keys(g);
    assert Put(g, Total, tasks) == g + [(Total, tasks)];
    assert (g + [(Total, tasks)])[..|g|] == g;
    GroupBySize(keys, tasks);
  }

  /** When a task's own key is the total key, its group is replaced in place
      by the total group and the list of groups is one shorter than the list
      of rows, so the rows after it are paired with the wrong groups. */
  lemma GroupedCollision(colId: int, keys: seq<GroupKey>, tasks: seq<Task>)
    requires |keys| == |tasks| && Total in keys
    ensures var (rows, groups) := Grouped(colId, keys, tasks);
      |groups| + 1 == |rows| && Get(groups, Total) == Some(tasks)
  {
  }

  /** Each task is in the group of its own key, and a group other than the
      total one holds only tasks with that key. */
  lemma GroupedMembers(colId: int, keys: seq<GroupKey>, tasks: seq<Task>, k: GroupKey)
    requires |keys| == |tasks|
    ensures var groups := Grouped(colId, keys, tasks).1;
      (forall i :: 0 <= i < |tasks| && keys[i] == k ==> Get(groups, k).Some? && tasks[i] in Get(groups, k).value)
      && (k != Total && Get(groups, k).Some? ==>
        forall t :: t in Get(groups, k).value ==> exists i :: 0 <= i < |tasks| && keys[i] == k && tasks[i] == t)
  {
    SelectMembers(keys, tasks, k);
    GroupByGet(keys, tasks, k);
    var g := GroupBy(keys, tasks);
    if k != Total && k in Keys(g) {
      assert k in Keys(Put(g, Total, tasks));
    }
  }

  /** The groups other than the total one appear in the order in which their
      keys first occur among the tasks. */
  lemma GroupedOrder(colId: int, keys: seq<GroupKey>, tasks: seq<Task>)
    requires |keys| == |tasks|
    ensures var groups := Grouped(colId, keys, tasks).1;
      forall i, j :: 0 <= i < j < |Dedup(keys)| ==>
        Keys(groups)[i] in keys && Keys(groups)[j] in keys && IndexOf(keys, Keys(groups)[i]) < IndexOf(keys, Keys(groups)[j])
  {
    DedupFirstSeen(keys);
  }

  // ---------------------------------------------------------------------------
  // prepare_other_col

  /** What every cell of a report table depends on besides its column and
      group: the source form's fields, the configuration, the source form id
      and the registry link of the table's extra filters. */
  datatype ColumnContext = ColumnContext(sourceFields: seq<FormField>, config: Config, formId: int, link: string)

  /** The part of the registry link before the first `&`. */
  function RegistryHead(formId: int): string
  {
    "https://pyrus.com/t#rg" + IntToString(formId) + "?ao=true"
  }

  /** The registry of form `formId`, as a Pyrus web link. */
  function RegistryBase(formId: int): string
  {
    RegistryHead(formId) + "&tz=180&sm=0"
  }

  /** The registry-code cell: the registry link, narrowed by the group's
      fragment and then by the filters' link, each only when non-empty. */
  function RegistryUrl(formId: int, fragment: string, link: string): string
  {
    var withFragment := if fragment != "" then RegistryBase(formId) + "&" + fragment else RegistryBase(formId);
    if link != "" then withFragment + "&" + link else withFragment
  }

  /** The value of column `col` in the row of the group with key `key`: the
      group's size for the total code, the registry link for the registry
      code, otherwise the number of the group's tasks that the column's name
      selects in the column's source field. A column whose code and the
      configured total code are both absent counts as a total column. */
  function Cell(col: FormField, ctx: ColumnContext, key: GroupKey, group: seq<Task>): Result<Value>
  {
    var code := SourceCode(col, ctx.config);
    if code == ctx.config.totalCode then Success(Int(|group|))
    else if code == ctx.config.registryCode then Success(Text(RegistryUrl(ctx.formId, key.1, ctx.link)))
    else
      var kept :- Filtered(group, col.name, GetIdByCode(ctx.sourceFields, code));
      Success(Int(|kept|))
  }

  /** The cells of column `col`, one per group, in group order. */
  function ColumnCells(col: FormField, ctx: ColumnContext, groups: Dict<GroupKey, seq<Task>>): (r: seq<Result<Value>>)
    ensures |r| == |groups|
    ensures forall g :: 0 <= g < |groups| ==> r[g] == Cell(col, ctx, groups[g].0, groups[g].1)
  {
    seq(|groups|, g requires 0 <= g < |groups| => Cell(col, ctx, groups[g].0, groups[g].1))
  }

  /** The position of the first failing cell from `i` on, or the number of
      cells when none fails. */
  function FirstFailure<V>(cells: seq<Result<V>>, i: nat): (f: nat)
    requires i <= |cells|
    ensures i <= f <= |cells|
    ensures forall g :: i <= g < f ==> cells[g].Success?
    ensures f < |cells| ==> cells[f].Failure?
    decreases |cells| - i
  {
    if i == |cells| || cells[i].Failure? then i else FirstFailure(cells, i + 1)
  }

  /** The rows after the cells from `i` onwards are written with `write`
      into the rows with the same positions, in order, and whether a cell
      raised; the cells before a failing one stay written. */
  function Fill<R, V>(rows: seq<R>, write: (R, V) -> R, cells: seq<Result<V>>, i: nat): (r: (seq<R>, Outcome))
    requires |cells| <= |rows| && i <= |cells|
    ensures |r.0| == |rows|
    decreases |cells| - i
  {
    if i == |cells| then (rows, Pass)
    else
      match cells[i]
      case Failure(e) => (rows, Fail(e))
      case Success(v) => Fill(rows[i := write(rows[i], v)], write, cells, i + 1)
  }

  /** `row[id] = value`. */
  function Writer(id: int): (Row, Value) -> Row
  {
    (row: Row, v: Value) => Put(row, id, v)
  }

  /** The rows after columns `j` onwards are written one after the other. */
  function FillColumns(rows: seq<Row>, groups: Dict<GroupKey, seq<Task>>, cols: seq<FormField>, ctx: ColumnContext, j: nat)
    : (r: (seq<Row>, Outcome))
    requires |groups| <= |rows| && j <= |cols|
    ensures |r.0| == |rows|
    decreases |cols| - j
  {
    if j == |cols| then (rows, Pass)
    else
      var (next, outcome) := Fill(rows, Writer(cols[j].id), ColumnCells(cols[j], ctx, groups), 0);
      if outcome.Fail? then (next, outcome) else FillColumns(next, groups, cols, ctx, j + 1)
  }

  /** The body of the inner loop of `prepare_other_col`: the cell of column
      `col` for the group `tasks` with key `key`. */
  method ComputeCell(col: FormField, sourceFields: seq<FormField>, config: Config, formId: int, link: string,
                     key: GroupKey, tasks: seq<Task>)
    returns (r: Result<Value>)
    ensures r == Cell(col, ColumnContext(sourceFields, config, formId, link), key, tasks)
  {
    var code := SourceCode(col, config);
    if code == config.totalCode {
      r := Success(Int(|tasks|));
    } else if code == config.registryCode {
      var url := RegistryBase(formId);
      if key.1 != "" {
        url := url + "&" + key.1;
      }
      if link != "" {
        url := url + "&" + link;
      }
      r := Success(Text(url));
    } else {
      var kept := FilterTasks(tasks, col.name, GetIdByCode(sourceFields, code));
      if kept.Failure? {
        return Failure(kept.error);
      }
      r := Success(Int(|kept.value|));
    }
  }

  /** One column of `prepare_other_col`: the cell of each group, in group
      order, is written into the row with the group's position. */
  method WriteColumn(col: FormField, sourceFields: seq<FormField>, rows: array<Row>,
                     groups: Dict<GroupKey, seq<Task>>, config: Config, formId: int, link: string)
    returns (r: Outcome)
    requires |groups| <= rows.Length
    modifies rows
    ensures (rows[..], r) == Fill(old(rows[..]), Writer(col.id), ColumnCells(col, ColumnContext(sourceFields, config, formId, link), groups), 0)
  {
    ghost var cells := ColumnCells(col, ColumnContext(sourceFields, config, formId, link), groups);
    ghost var target := Fill(rows[..], Writer(col.id), cells, 0);
    var i := 0;
    while i < |groups|
      invariant 0 <= i <= |groups|
      invariant Fill(rows[..], Writer(col.id), cells, i) == target
    {
      var cell := ComputeCell(col, sourceFields, config, formId, link, groups[i].0, groups[i].1);
      if cell.Failure? {
        return Fail(cell.error);
      }
      rows[i] := Put(rows[i], col.id, cell.value);
      i := i + 1;
    }
    return Pass;
  }

  /** `prepare_other_col(columns, source_form_fields, rows, tasks_by_item,
      config, form_id, filter_registry_link)`: writes the columns one after
      the other, each into the row of each group, row `i` for the `i`-th
      group. The rows come from `prepare_first_col`, which makes at least as
      many rows as groups. */
  method PrepareOtherCol(columns: seq<FormField>, sourceFields: seq<FormField>, rows: array<Row>,
                         groups: Dict<GroupKey, seq<Task>>, config: Config, formId: int, link: string)
    returns (r: Outcome)
    requires |groups| <= rows.Length
    modifies rows
    ensures (rows[..], r) == FillColumns(old(rows[..]), groups, columns, ColumnContext(sourceFields, config, formId, link), 0)
  {
    ghost var ctx := ColumnContext(sourceFields, config, formId, link);
    var j := 0;
    while j < |columns|
      invariant 0 <= j <= |columns|
      invariant FillColumns(rows[..], groups, columns, ctx, j) == FillColumns(old(rows[..]), groups, columns, ctx, 0)
    {
      var outcome := WriteColumn(columns[j], sourceFields, rows, groups, config, formId, link);
      if outcome.Fail? {
        return outcome;
      }
      j := j + 1;
    }
    return Pass;
  }

  /** Filling writes exactly the rows from `i` up to the first failing cell,
      each with its own cell, and fails with that cell's error if there is
      one. */
  lemma {:induction false} FillWrites<R, V>(rows: seq<R>, write: (R, V) -> R, cells: seq<Result<V>>, i: nat)
    requires |cells| <= |rows| && i <= |cells|
    ensures var f := FirstFailure(cells, i);
      && Fill(rows, write, cells, i).1 == (if f == |cells| then Pass else Fail(cells[f].error))
      && forall g :: 0 <= g < |rows| ==>
           Fill(rows, write, cells, i).0[g] == if i <= g < f then write(rows[g], cells[g].value) else rows[g]
    decreases |cells| - i
  {
    if i < |cells| && cells[i].Success? {
      var next := rows[i := write(rows[i], cells[i].value)];
      FillWrites(next, write, cells, i + 1);
    }
  }

  /** A column is written completely exactly when every cell succeeds, and
      then row `g` holds cell `g` under the column's id. The rows stay dicts,
      and no other key of any row changes, even when a cell fails. */
  lemma ColumnWritten(rows: seq<Row>, id: int, cells: seq<Result<Value>>)
    requires |cells| <= |rows|
    requires forall g :: 0 <= g < |rows| ==> Valid(rows[g])
    ensures var (res, outcome) := Fill(rows, Writer(id), cells, 0);
      && (outcome.Pass? <==> forall g :: 0 <= g < |cells| ==> cells[g].Success?)
      && (outcome.Pass? ==> forall g, v :: 0 <= g < |cells| && cells[g] == Success(v) ==> Get(res[g], id) == Some(v))
      && (forall g :: 0 <= g < |rows| ==> Valid(res[g]))
      && (forall g, k :: 0 <= g < |rows| && k != id ==> Get(res[g], k) == Get(rows[g], k))
  {
    FillWrites(rows, Writer(id), cells, 0);
    var res := Fill(rows, Writer(id), cells, 0).0;
    forall g, k | 0 <= g < |rows| && k != id
      ensures Valid(res[g]) && Get(res[g], k) == Get(rows[g], k)
    {
      if res[g] != rows[g] {
        assert res[g] == Put(rows[g], id, cells[g].value);
      }
    }
    forall g | 0 <= g < |rows|
      ensures Valid(res[g])
    {
      if res[g] != rows[g] {
        assert res[g] == Put(rows[g], id, cells[g].value);
      }
    }
  }

  /** No column from `j` onwards has the id `k`. */
  predicate NotWrittenFrom(cols: seq<FormField>, j: nat, k: int) {
    forall c :: j <= c < |cols| ==> cols[c].id != k
  }

  /** Writing column `j` keeps the rows past the groups and every key that
      no column from `j` onwards writes, and the remaining columns are
      written after it unless one of its cells fails. */
  lemma FillColumnStep(rows: seq<Row>, groups: Dict<GroupKey, seq<Task>>, cols: seq<FormField>, ctx: ColumnContext, j: nat)
    requires |groups| <= |rows| && j < |cols|
    requires forall g :: 0 <= g < |rows| ==> Valid(rows[g])
    ensures |Fill(rows, Writer(cols[j].id), ColumnCells(cols[j], ctx, groups), 0).0| == |rows|
    ensures forall g :: 0 <= g < |rows| ==> Valid(Fill(rows, Writer(cols[j].id), ColumnCells(cols[j], ctx, groups), 0).0[g])
    ensures forall g :: |groups| <= g < |rows| ==>
      Fill(rows, Writer(cols[j].id), ColumnCells(cols[j], ctx, groups), 0).0[g] == rows[g]
    ensures forall k :: NotWrittenFrom(cols, j, k) ==> NotWrittenFrom(cols, j + 1, k)
    ensures forall g, k :: 0 <= g < |rows| && NotWrittenFrom(cols, j, k) ==>
      Get(Fill(rows, Writer(cols[j].id), ColumnCells(cols[j], ctx, groups), 0).0[g], k) == Get(rows[g], k)
    ensures var step := Fill(rows, Writer(cols[j].id), ColumnCells(cols[j], ctx, groups), 0);
      FillColumns(rows, groups, cols, ctx, j).0 ==
        if step.1.Pass? then FillColumns(step.0, groups, cols, ctx, j + 1).0 else step.0
  {
    var cells := ColumnCells(cols[j], ctx, groups);
    var next := Fill(rows, Writer(cols[j].id), cells, 0).0;
    ColumnWritten(rows, cols[j].id, cells);
    assert forall g :: |groups| <= g < |rows| ==> next[g] == rows[g] by {
      FillWrites(rows, Writer(cols[j].id), cells, 0);
    }
    forall g, k | 0 <= g < |rows| && NotWrittenFrom(cols, j, k)
      ensures Get(next[g], k) == Get(rows[g], k)
    {
      assert cols[j].id != k;
    }
  }

  /** Writing all the columns leaves the rows past the groups as they were,
      keeps every row a dict and changes no key that is not a column's id:
      in particular the first column, unless another column has its id. */
  lemma {:induction false} FillColumnsFrame(rows: seq<Row>, groups: Dict<GroupKey, seq<Task>>, cols: seq<FormField>, ctx: ColumnContext, j: nat)
    requires |groups| <= |rows| && j <= |cols|
    requires forall g :: 0 <= g < |rows| ==> Valid(rows[g])
    ensures forall g :: |groups| <= g < |rows| ==> FillColumns(rows, groups, cols, ctx, j).0[g] == rows[g]
    ensures forall g :: 0 <= g < |rows| ==> Valid(FillColumns(rows, groups, cols, ctx, j).0[g])
    ensures forall g, k :: 0 <= g < |rows| && NotWrittenFrom(cols, j, k) ==>
      Get(FillColumns(rows, groups, cols, ctx, j).0[g], k) == Get(rows[g], k)
    decreases |cols| - j
  {
    if j < |cols| {
      var next := Fill(rows, Writer(cols[j].id), ColumnCells(cols[j], ctx, groups), 0).0;
      FillColumnStep(rows, groups, cols, ctx, j);
      if Fill(rows, Writer(cols[j].id), ColumnCells(cols[j], ctx, groups), 0).1.Pass? {
        FillColumnsFrame(next, groups, cols, ctx, j + 1);
      }
    }
  }

  lemma IntToStringHasNo(n: int, c: char)
    requires !IsDigit(c) && c != '-'
    ensures c !in IntToString(n)
  {
    var d := NatToString(if n < 0 then -n else n);
    assert forall k :: 0 <= k < |d| ==> IsDigit(d[k]);
  }

  /** The registry link without narrowing splits into its head and the two
      fixed parameters. */
  lemma HeadHasNoAmpersand(formId: int)
    ensures '&' !in RegistryHead(formId)
  {
    var site: string := "https://pyrus.com/t#rg";
    var flags: string := "?ao=true";
    IntToStringHasNo(formId, '&');
    assert '&' !in site;
    assert '&' !in flags;
    assert RegistryHead(formId) == site + IntToString(formId) + flags;
  }

  lemma FixedParameters()
    ensures Split("tz=180" + ['&'] + "sm=0", '&') == ["tz=180", "sm=0"]
  {
    SplitNoSeparator("tz=180", '&');
    SplitNoSeparator("sm=0", '&');
    SplitConcat("tz=180", "sm=0", '&');
  }

  lemma RegistryBaseParameters(formId: int)
    ensures Split(RegistryBase(formId), '&') == [RegistryHead(formId), "tz=180", "sm=0"]
  {
    var head := RegistryHead(formId);
    var rest := "tz=180" + ['&'] + "sm=0";
    calc {
      Split(RegistryBase(formId), '&');
      { FixedSuffix(); assert RegistryBase(formId) == head + ['&'] + rest; }
      Split(head + ['&'] + rest, '&');
      { SplitConcat(head, rest, '&'); }
      Split(head, '&') + Split(rest, '&');
      { HeadHasNoAmpersand(formId); SplitNoSeparator(head, '&'); FixedParameters(); }
      [head] + ["tz=180", "sm=0"];
    }
  }

  /** The fixed parameters of the registry link, as pieces. */
  lemma FixedSuffix()
    ensures "&tz=180&sm=0" == ['&'] + ("tz=180" + ['&'] + "sm=0")
  {
  }

  /** Appending `&` and a non-empty string appends that string's pieces. */
  lemma SplitAppend(s: string, t: string)
    ensures Split(s + "&" + t, '&') == Split(s, '&') + Split(t, '&')
  {
    assert s + "&" + t == s + ['&'] + t;
    SplitConcat(s, t, '&');
  }

  /** The registry link's parameters, split at `&`, are the fixed ones, then
      those of the group's fragment, then those of the filters' link, each
      only when present. */
  lemma RegistryUrlParameters(formId: int, fragment: string, link: string)
    ensures Split(RegistryUrl(formId, fragment, link), '&') ==
      [RegistryHead(formId), "tz=180", "sm=0"]
      + (if fragment != "" then Split(fragment, '&') else [])
      + (if link != "" then Split(link, '&') else [])
  {
    var base := RegistryBase(formId);
    RegistryBaseParameters(formId);
    var withFragment := if fragment != "" then base + "&" + fragment else base;
    if fragment != "" {
      SplitAppend(base, fragment);
    }
    if link != "" {
      SplitAppend(withFragment, link);
    }
  }

  /** An ordinary column whose name repeats a value, `a,a`, counts the tasks
      `a` selects twice: the counts are not bounded by the group's size. */
  lemma CountCellRepeats(col: FormField, ctx: ColumnContext, key: GroupKey, group: seq<Task>, a: string)
    requires SourceCode(col, ctx.config) != ctx.config.totalCode
    requires SourceCode(col, ctx.config) != ctx.config.registryCode
    requires col.name == a + "," + a
    requires Filtered(group, a, GetIdByCode(ctx.sourceFields, SourceCode(col, ctx.config))).Success?
    ensures Cell(col, ctx, key, group) ==
      Success(Int(2 * |Filtered(group, a, GetIdByCode(ctx.sourceFields, SourceCode(col, ctx.config))).value|))
  {
    FilteredConcat(group, a, a, GetIdByCode(ctx.sourceFields, SourceCode(col, ctx.config)));
  }

  // ---------------------------------------------------------------------------
  // sort_table. The sort is stated for any row type and key function; the
  // report sorts dict rows by `item.get(field_id)`.

  /** `lambda item: item.get(field_id)`. */
  function SortKey(fieldId: int): Row -> Option<Value>
  {
    (row: Row) => Get(row, fieldId)
  }

  /** Python's `a < b` on two sort keys: integers compare with integers and
      strings with strings; any other pair, `None` included, raises
      TypeError. */
  function Less(a: Option<Value>, b: Option<Value>): (r: Result<bool>)
    ensures r.Success? <==> a.Some? && b.Some? && ((a.value.Int? && b.value.Int?) || (a.value.Text? && b.value.Text?))
  {
    match (a, b)
    case (Some(Int(x)), Some(Int(y))) => Success(x < y)
    case (Some(Text(x)), Some(Text(y))) => Success(StrLess(x, y))
    case _ => Failure(TypeError)
  }

  predicate Lt(a: Option<Value>, b: Option<Value>)
  {
    Less(a, b) == Success(true)
  }

  predicate IntKeyed<R(==)>(rows: seq<R>, key: R -> Option<Value>)
  {
    forall row | row in rows :: key(row).Some? && key(row).value.Int?
  }

  predicate TextKeyed<R(==)>(rows: seq<R>, key: R -> Option<Value>)
  {
    forall row | row in rows :: key(row).Some? && key(row).value.Text?
  }

  /** Python can sort the rows by the key without a comparison raising:
      fewer than two rows, or keys that are all integers or all strings. */
  predicate Comparable<R(==)>(rows: seq<R>, key: R -> Option<Value>)
  {
    |rows| < 2 || IntKeyed(rows, key) || TextKeyed(rows, key)
  }

  /** Row `x` inserted into rows in descending key order: after every row
      whose key is not less than its own, so that equal keys keep their
      order. */
  function Insert<R(==)>(s: seq<R>, x: R, key: R -> Option<Value>): (r: seq<R>)
    ensures |r| == |s| + 1
  {
    if |s| == 0 then [x]
    else if Lt(key(s[|s| - 1]), key(x)) then Insert(s[..|s| - 1], x, key) + [s[|s| - 1]]
    else s + [x]
  }

  /** `rows.sort(key=key, reverse=True)` when no comparison raises: Python's
      sort is stable, also in reverse. */
  function SortDesc<R(==)>(s: seq<R>, key: R -> Option<Value>): (r: seq<R>)
    ensures |r| == |s|
  {
    if |s| == 0 then [] else Insert(SortDesc(s[..|s| - 1], key), s[|s| - 1], key)
  }

  /** `sort_table(rows, field_id)`: the last row (the total) is popped, the
      others are sorted by the key in descending order, and the last row is
      put back. An empty table raises IndexError on the pop. */
  function SortedTable(rows: seq<Row>, fieldId: int): Result<seq<Row>>
  {
    if |rows| == 0 then Failure(IndexError)
    else if !Comparable(rows[..|rows| - 1], SortKey(fieldId)) then Failure(TypeError)
    else Success(SortDesc(rows[..|rows| - 1], SortKey(fieldId)) + [rows[|rows| - 1]])
  }

  predicate SortedDesc<R(==)>(s: seq<R>, key: R -> Option<Value>)
  {
    forall i, j :: 0 <= i < j < |s| ==> !Lt(key(s[i]), key(s[j]))
  }

  /** The rows of `s` whose key is `k`, in order. */
  function WithKey<R(==)>(s: seq<R>, k: Option<Value>, key: R -> Option<Value>): (r: seq<R>)
    ensures forall row | row in r :: row in s && key(row) == k
  {
    if |s| == 0 then []
    else WithKey(s[..|s| - 1], k, key) + (if key(s[|s| - 1]) == k then [s[|s| - 1]] else [])
  }

  // The order on keys

  lemma LtIrreflexive(a: Option<Value>)
    ensures !Lt(a, a)
  {
    if a.Some? && a.value.Text? {
      StrLessIrreflexive(a.value.text);
    }
  }

  lemma LtAsymmetric(a: Option<Value>, b: Option<Value>)
    requires Lt(a, b)
    ensures !Lt(b, a)
  {
    if a.value.Text? && Lt(b, a) {
      StrLessTransitive(a.value.text, b.value.text, a.value.text);
      StrLessIrreflexive(a.value.text);
    }
  }

  /** "Not less than" is transitive among keys of one kind. */
  lemma NotLtTransitive(a: Option<Value>, b: Option<Value>, c: Option<Value>)
    requires Less(a, b).Success? && Less(b, c).Success?
    requires !Lt(a, b) && !Lt(b, c)
    ensures !Lt(a, c)
  {
    if a.value.Text? && Lt(a, c) {
      var (x, y, z) := (a.value.text, b.value.text, c.value.text);
      if x != y {
        StrLessTotal(x, y);
        StrLessTransitive(y, x, z);
      }
    }
  }

  // Comparability

  lemma KindsOf<R>(rows: seq<R>, x: R, y: R, key: R -> Option<Value>)
    requires Comparable(rows, key) && |rows| >= 2 && x in rows && y in rows
    ensures Less(key(x), key(y)).Success?
  {
  }

  lemma ComparablePrefix<R>(rows: seq<R>, k: nat, key: R -> Option<Value>)
    requires Comparable(rows, key) && k <= |rows|
    ensures Comparable(rows[..k], key)
  {
    assert forall row | row in rows[..k] :: row in rows;
  }

  lemma IncomparableExtends<R>(rows: seq<R>, k: nat, key: R -> Option<Value>)
    requires k <= |rows| && !Comparable(rows[..k], key)
    ensures !Comparable(rows, key)
  {
    assert forall row | row in rows[..k] :: row in rows;
  }

  lemma ComparablePermutation<R>(s: seq<R>, t: seq<R>, key: R -> Option<Value>)
    requires multiset(s) == multiset(t)
    ensures Comparable(s, key) == Comparable(t, key)
  {
    assert |s| == |multiset(s)| == |t|;
    assert forall row :: row in s <==> row in multiset(s);
    assert forall row :: row in t <==> row in multiset(t);
  }

  /** A row whose key compares with the last key of comparable rows keeps
      them comparable. */
  lemma ComparableExtend<R>(s: seq<R>, x: R, key: R -> Option<Value>)
    requires Comparable(s, key) && |s| >= 1
    requires Less(key(s[|s| - 1]), key(x)).Success?
    ensures Comparable(s + [x], key)
  {
    assert forall row | row in s + [x] :: row in s || row == x;
  }

  /** Two keys that do not compare make rows holding both impossible to
      sort. */
  lemma IncomparablePair<R>(rows: seq<R>, p: nat, q: nat, key: R -> Option<Value>)
    requires p < q < |rows|
    requires Less(key(rows[p]), key(rows[q])).Failure?
    ensures !Comparable(rows, key)
  {
    assert rows[p] in rows && rows[q] in rows;
  }

  // Permutation, order, stability and idempotence of the sort

  lemma {:induction false} InsertPermutation<R>(s: seq<R>, x: R, key: R -> Option<Value>)
    ensures multiset(Insert(s, x, key)) == multiset(s) + multiset{x}
    decreases |s|
  {
    if |s| > 0 && Lt(key(s[|s| - 1]), key(x)) {
      var front := s[..|s| - 1];
      InsertPermutation(front, x, key);
      assert s == front + [s[|s| - 1]];
    }
  }

  lemma {:induction false} SortDescPermutation<R>(s: seq<R>, key: R -> Option<Value>)
    ensures multiset(SortDesc(s, key)) == multiset(s)
    decreases |s|
  {
    if |s| > 0 {
      var front := s[..|s| - 1];
      SortDescPermutation(front, key);
      InsertPermutation(SortDesc(front, key), s[|s| - 1], key);
      assert s == front + [s[|s| - 1]];
    }
  }

  /** Every row of `Insert(s, x)` but the last is not less than the moved
      row `last` placed after them. */
  lemma InsertBeforeLast<R>(s: seq<R>, x: R, key: R -> Option<Value>)
    requires |s| > 0 && SortedDesc(s, key) && Lt(key(s[|s| - 1]), key(x))
    ensures forall row | row in Insert(s[..|s| - 1], x, key) :: !Lt(key(row), key(s[|s| - 1]))
  {
    var front := s[..|s| - 1];
    var last := s[|s| - 1];
    InsertPermutation(front, x, key);
    forall row | row in Insert(front, x, key)
      ensures !Lt(key(row), key(last))
    {
      assert row in multiset(front) + multiset{x};
      if row == x {
        LtAsymmetric(key(last), key(x));
      } else {
        assert row in front;
        var k :| 0 <= k < |front| && front[k] == row;
        assert s[k] == row;
      }
    }
  }

  /** Inserting into rows sorted in descending order keeps them sorted, when
      all the keys compare. */
  lemma {:induction false} InsertSorted<R>(s: seq<R>, x: R, key: R -> Option<Value>)
    requires SortedDesc(s, key) && Comparable(s + [x], key)
    ensures SortedDesc(Insert(s, x, key), key)
    decreases |s|
  {
    if |s| > 0 {
      var m := |s| - 1;
      var last := s[m];
      if Lt(key(last), key(x)) {
        var front := s[..m];
        assert (s + [x])[..m] == front;
        ComparablePrefix(s + [x], m, key);
        assert forall row | row in front + [x] :: row in s + [x];
        InsertSorted(front, x, key);
        InsertBeforeLast(s, x, key);
        var t := Insert(front, x, key);
        assert forall i | 0 <= i < |t| :: t[i] in t;
      } else {
        assert last in s + [x] && x in s + [x];
        forall i | 0 <= i < m
          ensures !Lt(key(s[i]), key(x))
        {
          assert s[i] in s + [x];
          KindsOf(s + [x], s[i], last, key);
          KindsOf(s + [x], last, x, key);
          NotLtTransitive(key(s[i]), key(last), key(x));
        }
      }
    }
  }

  /** The sort orders comparable rows by descending key. */
  lemma {:induction false} SortDescSorted<R>(s: seq<R>, key: R -> Option<Value>)
    requires Comparable(s, key)
    ensures SortedDesc(SortDesc(s, key), key)
    decreases |s|
  {
    if |s| > 0 {
      var front, x := s[..|s| - 1], s[|s| - 1];
      var sorted := SortDesc(front, key);
      assert Comparable(front, key) by {
        ComparablePrefix(s, |s| - 1, key);
      }
      assert SortedDesc(sorted, key) by {
        SortDescSorted(front, key);
      }
      assert Comparable(sorted + [x], key) by {
        SortDescPermutation(front, key);
        assert s == front + [x];
        ComparablePermutation(sorted + [x], s, key);
      }
      InsertSorted(sorted, x, key);
    }
  }

  lemma {:induction false} WithKeyConcat<R>(s: seq<R>, t: seq<R>, k: Option<Value>, key: R -> Option<Value>)
    ensures WithKey(s + t, k, key) == WithKey(s, k, key) + WithKey(t, k, key)
    decreases |t|
  {
    if |t| > 0 {
      var front := t[..|t| - 1];
      var last := t[|t| - 1];
      var tail := if key(last) == k then [last] else [];
      assert (s + t)[..|s + t| - 1] == s + front;
      assert (s + t)[|s + t| - 1] == last;
      assert WithKey(s + t, k, key) == WithKey(s + front, k, key) + tail;
      assert WithKey(t, k, key) == WithKey(front, k, key) + tail;
      WithKeyConcat(s, front, k, key);
    } else {
      assert s + t == s;
    }
  }

  /** A row of key `k` and a row of another key may trade places without
      changing the rows of any one key. */
  lemma WithKeySwap<R>(p: seq<R>, a: R, b: R, k: Option<Value>, key: R -> Option<Value>)
    requires key(a) != key(b)
    ensures WithKey(p + [a] + [b], k, key) == WithKey(p + [b] + [a], k, key)
  {
    WithKeyConcat(p + [a], [b], k, key);
    WithKeyConcat(p, [a], k, key);
    WithKeyConcat(p + [b], [a], k, key);
    WithKeyConcat(p, [b], k, key);
    assert WithKey([a], k, key) == [] || WithKey([b], k, key) == [];
  }

  lemma {:induction false} InsertStable<R>(s: seq<R>, x: R, k: Option<Value>, key: R -> Option<Value>)
    ensures WithKey(Insert(s, x, key), k, key) == WithKey(s + [x], k, key)
    decreases |s|
  {
    if |s| > 0 && Lt(key(s[|s| - 1]), key(x)) {
      var front := s[..|s| - 1];
      var last := s[|s| - 1];
      calc {
        WithKey(Insert(s, x, key), k, key);
        WithKey(Insert(front, x, key) + [last], k, key);
        { WithKeyConcat(Insert(front, x, key), [last], k, key); }
        WithKey(Insert(front, x, key), k, key) + WithKey([last], k, key);
        { InsertStable(front, x, k, key); }
        WithKey(front + [x], k, key) + WithKey([last], k, key);
        { WithKeyConcat(front + [x], [last], k, key); }
        WithKey(front + [x] + [last], k, key);
        { LtIrreflexive(key(x));
          WithKeySwap(front, x, last, k, key); }
        WithKey(front + [last] + [x], k, key);
        { assert front + [last] == s; }
        WithKey(s + [x], k, key);
      }
    }
  }

  /** The sort is stable: the rows with any one key keep their order. */
  lemma {:induction false} SortDescStable<R>(s: seq<R>, k: Option<Value>, key: R -> Option<Value>)
    ensures WithKey(SortDesc(s, key), k, key) == WithKey(s, k, key)
    decreases |s|
  {
    if |s| > 0 {
      var front, x := s[..|s| - 1], s[|s| - 1];
      var sorted := SortDesc(front, key);
      calc {
        WithKey(SortDesc(s, key), k, key);
        WithKey(Insert(sorted, x, key), k, key);
        { InsertStable(sorted, x, k, key); }
        WithKey(sorted + [x], k, key);
        { WithKeyConcat(sorted, [x], k, key); }
        WithKey(sorted, k, key) + WithKey([x], k, key);
        { SortDescStable(front, k, key); }
        WithKey(front, k, key) + WithKey([x], k, key);
        { WithKeyConcat(front, [x], k, key); }
        WithKey(front + [x], k, key);
        { assert front + [x] == s; }
        WithKey(s, k, key);
      }
    }
  }

  /** Rows already in descending order are left as they are. */
  lemma {:induction false} SortDescOfSorted<R>(s: seq<R>, key: R -> Option<Value>)
    requires SortedDesc(s, key)
    ensures SortDesc(s, key) == s
    decreases |s|
  {
    if |s| > 0 {
      var front := s[..|s| - 1];
      assert SortedDesc(front, key);
      SortDescOfSorted(front, key);
      if |front| > 0 {
        assert !Lt(key(front[|front| - 1]), key(s[|s| - 1]));
      }
      assert front + [s[|s| - 1]] == s;
    }
  }

  /** What `sort_table` promises: it fails exactly on an empty table or on
      keys that do not compare; otherwise the rows are a permutation of the
      original, the last row stays last, the others are in descending key
      order, and sorting again changes nothing. */
  lemma SortedTableMeets(rows: seq<Row>, fieldId: int)
    ensures SortedTable(rows, fieldId).Failure? <==> |rows| == 0 || !Comparable(rows[..|rows| - 1], SortKey(fieldId))
    ensures SortedTable(rows, fieldId) == Failure(IndexError) <==> |rows| == 0
    ensures SortedTable(rows, fieldId).Success? ==>
      && multiset(SortedTable(rows, fieldId).value) == multiset(rows)
      && SortedTable(rows, fieldId).value[|rows| - 1] == rows[|rows| - 1]
      && SortedDesc(SortedTable(rows, fieldId).value[..|rows| - 1], SortKey(fieldId))
      && SortedTable(SortedTable(rows, fieldId).value, fieldId) == SortedTable(rows, fieldId)
  {
    if |rows| > 0 && Comparable(rows[..|rows| - 1], SortKey(fieldId)) {
      var key := SortKey(fieldId);
      var front := rows[..|rows| - 1];
      var sorted := SortDesc(front, key);
      var r := sorted + [rows[|rows| - 1]];
      SortDescPermutation(front, key);
      assert rows == front + [rows[|rows| - 1]];
      SortDescSorted(front, key);
      assert r[..|r| - 1] == sorted;
      ComparablePermutation(sorted, front, key);
      SortDescOfSorted(sorted, key);
    }
  }

  /** `sort_table` is stable: on success, the rows before the last with any
      one key keep their order. */
  lemma SortedTableStable(rows: seq<Row>, fieldId: int, k: Option<Value>)
    requires SortedTable(rows, fieldId).Success?
    ensures WithKey(SortedTable(rows, fieldId).value[..|rows| - 1], k, SortKey(fieldId))
         == WithKey(rows[..|rows| - 1], k, SortKey(fieldId))
  {
    var front := rows[..|rows| - 1];
    var r := SortedTable(rows, fieldId).value;
    assert r[..|rows| - 1] == SortDesc(front, SortKey(fieldId));
    SortDescStable(front, k, SortKey(fieldId));
  }

  /** The insertion of row `i` into the sorted rows before it. Only the
      first comparison can raise: once the new key compares with the last
      sorted key, it compares with all of them. */
  method InsertRow<R(==)>(a: array<R>, i: nat, key: R -> Option<Value>) returns (r: Outcome)
    requires i < a.Length && Comparable(a[..i], key)
    modifies a
    ensures r.Pass? <==> Comparable(old(a[..i + 1]), key)
    ensures r.Pass? ==> a[..] == Insert(old(a[..i]), old(a[i]), key) + old(a[i + 1..])
    ensures r.Fail? ==> r.error == TypeError && a[..] == old(a[..])
  {
    ghost var s := a[..i];
    var x := a[i];
    assert a[..i + 1] == s + [x];
    if i > 0 {
      var first := Less(key(a[i - 1]), key(x));
      if first.Failure? {
        IncomparablePair(s + [x], i - 1, i, key);
        return Fail(first.error);
      }
      ComparableExtend(s, x, key);
    }
    Sink(a, i, key);
    r := Pass;
  }

  /** Row `i` moved down past every row before it whose key is less, by
      swaps. */
  method Sink<R>(a: array<R>, i: nat, key: R -> Option<Value>)
    requires i < a.Length
    modifies a
    ensures a[..] == Insert(old(a[..i]), old(a[i]), key) + old(a[i + 1..])
  {
    ghost var s := a[..i];
    ghost var rest := a[i + 1..];
    var x := a[i];
    var j := i;
    assert s[..j] == s && s[j..] == [];
    assert a[..] == s[..j] + [x] + s[j..] + rest;
    while j > 0 && Lt(key(a[j - 1]), key(x))
      invariant 0 <= j <= i
      invariant a[..] == s[..j] + [x] + s[j..] + rest
      invariant Insert(s, x, key) == Insert(s[..j], x, key) + s[j..]
    {
      assert Insert(s, x, key) == Insert(s[..j - 1], x, key) + s[j - 1..] by {
        InsertStep(s, x, j, key);
      }
      ghost var next := s[..j - 1] + [x] + s[j - 1..] + rest;
      assert a[..][j - 1 := a[j]][j := a[j - 1]] == next by {
        SwapStep(a[..], s, x, rest, j);
      }
      a[j - 1], a[j] := a[j], a[j - 1];
      j := j - 1;
    }
    SinkDone(a[..], s, x, rest, j, key);
  }

  /** Where the swaps stop, the insertion is complete. */
  lemma SinkDone<R>(a: seq<R>, s: seq<R>, x: R, rest: seq<R>, j: nat, key: R -> Option<Value>)
    requires j <= |s| && a == s[..j] + [x] + s[j..] + rest
    requires Insert(s, x, key) == Insert(s[..j], x, key) + s[j..]
    requires j == 0 || !Lt(key(a[j - 1]), key(x))
    ensures a == Insert(s, x, key) + rest
  {
    if j > 0 {
      assert a[j - 1] == s[j - 1];
      assert s[..j][..j - 1] == s[..j - 1];
    }
    assert Insert(s[..j], x, key) == s[..j] + [x];
  }

  /** One swap of the insertion, on the specification. */
  lemma InsertStep<R>(s: seq<R>, x: R, j: nat, key: R -> Option<Value>)
    requires 0 < j <= |s| && Lt(key(s[j - 1]), key(x))
    ensures Insert(s[..j], x, key) + s[j..] == Insert(s[..j - 1], x, key) + s[j - 1..]
  {
    assert s[..j][..j - 1] == s[..j - 1];
    assert s[j - 1..] == [s[j - 1]] + s[j..];
  }

  /** One swap of the insertion, on the rows. */
  lemma SwapStep<R>(a: seq<R>, s: seq<R>, x: R, rest: seq<R>, j: nat)
    requires 0 < j <= |s| && a == s[..j] + [x] + s[j..] + rest
    ensures j < |a| && a[j - 1] == s[j - 1] && a[j] == x
    ensures a[j - 1 := x][j := s[j - 1]] == s[..j - 1] + [x] + s[j - 1..] + rest
  {
    assert s[..j] == s[..j - 1] + [s[j - 1]];
    assert s[j - 1..] == [s[j - 1]] + s[j..];
  }

  /** The facts one step of the outer loop of the insertion sort needs. */
  lemma SortPrefixStep<R>(t: seq<R>, i: nat, key: R -> Option<Value>)
    requires i < |t|
    ensures multiset(SortDesc(t[..i], key) + t[i..]) == multiset(t)
    ensures SortDesc(t[..i + 1], key) == Insert(SortDesc(t[..i], key), t[i], key)
    ensures Comparable(SortDesc(t[..i], key), key) == Comparable(t[..i], key)
    ensures Comparable(SortDesc(t[..i], key) + [t[i]], key) == Comparable(t[..i + 1], key)
  {
    var sorted := SortDesc(t[..i], key);
    SortDescPermutation(t[..i], key);
    ComparablePermutation(sorted, t[..i], key);
    assert t[..i + 1] == t[..i] + [t[i]];
    assert t == t[..i] + t[i..];
    ComparablePermutation(sorted + [t[i]], t[..i + 1], key);
  }

  /** The first `n` rows sorted in place by descending key, or TypeError
      when two of their keys do not compare; the rows stay a permutation
      either way. */
  method SortPrefix<R(==)>(a: array<R>, n: nat, key: R -> Option<Value>) returns (r: Outcome)
    requires n <= a.Length
    modifies a
    ensures r.Pass? <==> Comparable(old(a[..n]), key)
    ensures r.Pass? ==> a[..] == SortDesc(old(a[..n]), key) + old(a[n..])
    ensures r.Fail? ==> r.error == TypeError
    ensures multiset(a[..]) == multiset(old(a[..]))
  {
    ghost var original := a[..];
    var i := 0;
    while i < n
      invariant 0 <= i <= n
      invariant a[..] == SortDesc(original[..i], key) + original[i..]
      invariant Comparable(original[..i], key)
    {
      r := InsertNext(a, original, i, n, key);
      if r.Fail? {
        return;
      }
      i := i + 1;
    }
    SortedPrefixPermutation(original, n, key);
    r := Pass;
  }

  /** Sorting a prefix in place keeps the rows a permutation. */
  lemma SortedPrefixPermutation<R>(t: seq<R>, n: nat, key: R -> Option<Value>)
    requires n <= |t|
    ensures multiset(SortDesc(t[..n], key) + t[n..]) == multiset(t)
  {
    if n < |t| {
      SortPrefixStep(t, n, key);
    } else {
      SortDescPermutation(t, key);
      assert t[..n] == t && t[n..] == [];
    }
  }

  /** One step of the outer loop of `SortPrefix`: row `i` joins the sorted
      rows before it. */
  method InsertNext<R(==)>(a: array<R>, ghost original: seq<R>, i: nat, n: nat, key: R -> Option<Value>)
    returns (r: Outcome)
    requires i < n <= a.Length == |original|
    requires a[..] == SortDesc(original[..i], key) + original[i..] && Comparable(original[..i], key)
    modifies a
    ensures r.Pass? ==> a[..] == SortDesc(original[..i + 1], key) + original[i + 1..] && Comparable(original[..i + 1], key)
    ensures r.Fail? ==> r.error == TypeError && !Comparable(original[..n], key) && multiset(a[..]) == multiset(original)
  {
    ghost var sorted := SortDesc(original[..i], key);
    SortPrefixStep(original, i, key);
    ghost var before := a[..];
    SliceAround(before, sorted, original[i..]);
    assert original[i..][0] == original[i] && original[i..][1..] == original[i + 1..];
    r := InsertRow(a, i, key);
    if r.Fail? {
      IncomparablePrefix(original, i + 1, n, key);
    }
  }

  /** The slices of `p + t` around the first element of `t`. */
  lemma SliceAround<R>(s: seq<R>, p: seq<R>, t: seq<R>)
    requires s == p + t && |t| > 0
    ensures s[..|p|] == p && s[|p|] == t[0] && s[|p| + 1..] == t[1..]
    ensures s[..|p| + 1] == p + [t[0]]
  {
  }

  lemma IncomparablePrefix<R>(s: seq<R>, k: nat, n: nat, key: R -> Option<Value>)
    requires k <= n <= |s| && !Comparable(s[..k], key)
    ensures !Comparable(s[..n], key)
  {
    assert s[..n][..k] == s[..k];
    IncomparableExtends(s[..n], k, key);
  }

  /** `sort_table(rows, field_id)` on the rows in place. On a failure the
      rows are still a permutation of the original ones. */
  method SortTable(rows: array<Row>, fieldId: int) returns (r: Outcome)
    modifies rows
    ensures SortedTable(old(rows[..]), fieldId) == (if r.Pass? then Success(rows[..]) else Failure(r.error))
    ensures multiset(rows[..]) == multiset(old(rows[..]))
  {
    if rows.Length == 0 {
      return Fail(IndexError);
    }
    ghost var original := rows[..];
    var n := rows.Length - 1;
    r := SortPrefix(rows, n, SortKey(fieldId));
    assert original[n..] == [original[n]];
  }

  // ---------------------------------------------------------------------------
  // Building the tables (get_tables)

  /** The tasks `to_filter_add` keeps are tasks of the registry it was given. */
  lemma FilterAddNarrows(formFields: seq<FormField>, tasks: seq<Task>, rules: seq<Rule>, dir: Directory)
    requires FilterAdd(formFields, tasks, rules, dir).Success?
    ensures forall t :: t in FilterAdd(formFields, tasks, rules, dir).value.0 ==> t in tasks
  {
    ApplyFiltersNarrows(formFields, dir, (tasks, []), rules);
  }

  /** `prepare_first_col` makes at least as many rows as groups, so that
      `prepare_other_col` can write group `i` into row `i`. */
  lemma FirstColFits(firstCol: FormField, sourceFields: seq<FormField>, tasks: seq<Task>, config: Config)
    requires TasksWellTyped(tasks) && FirstCol(firstCol, sourceFields, tasks, config).Success?
    ensures |FirstCol(firstCol, sourceFields, tasks, config).value.1| <= |FirstCol(firstCol, sourceFields, tasks, config).value.0|
  {
    var code := SourceCode(firstCol, config);
    if code.Some? {
      var keys := TaskKeys(tasks, GetIdByCode(sourceFields, code)).value;
      GroupedShape(firstCol.id, keys, tasks);
    }
  }

  /** The new rows of report table `table`, whose source form `formId` has
      template fields `form` and registry tasks `tasks`: the tasks are
      narrowed by the table's rules if it has any, the first column groups
      them, the other columns are filled per group and, when a column has the
      code `total`, the rows are sorted by it. A table without columns raises
      IndexError at `columns[0]`. */
  function TableRowsFor(table: FormField, formId: int, form: seq<FormField>, tasks: seq<Task>, config: Config,
                        filters: Dict<int, seq<Rule>>, dir: Directory): Result<seq<Row>>
    requires TasksWellTyped(tasks)
  {
    var rules := Get(filters, table.id);
    var narrowed :- (if rules.Some? && |rules.value| > 0 then FilterAdd(form, tasks, rules.value, dir) else Success((tasks, "")));
    assert TasksWellTyped(narrowed.0) by {
      if rules.Some? && |rules.value| > 0 {
        FilterAddNarrows(form, tasks, rules.value, dir);
      }
    }
    RowsFromColumns(table.info.columns, form, narrowed.0, config, formId, narrowed.1)
  }

  /** The rows of a report table with columns `columns` made from the tasks
      `tasks` that survived its filters: the first column groups them, the
      other columns are filled per group and, when some column (the first
      included) has the code `total` and a non-zero id, the rows are sorted
      by that column. A table without columns raises IndexError. */
  function RowsFromColumns(columns: seq<FormField>, form: seq<FormField>, tasks: seq<Task>, config: Config,
                           formId: int, link: string): Result<seq<Row>>
    requires TasksWellTyped(tasks)
  {
    if |columns| == 0 then Failure(IndexError)
    else
      var first :- FirstCol(columns[0], form, tasks, config);
      assert |first.1| <= |first.0| by {
        FirstColFits(columns[0], form, tasks, config);
      }
      var (rows, outcome) := FillColumns(first.0, first.1, columns[1..], ColumnContext(form, config, formId, link), 0);
      if outcome.Fail? then Failure(outcome.error)
      else
        var sortedId := GetIdByCode(columns, Some("total"));
        if sortedId.Some? && sortedId.value != 0 then SortedTable(rows, sortedId.value) else Success(rows)
  }

  /** The body of the loop of `get_tables` once the source form is at hand:
      the rows are a Python list that `prepare_other_col` and `sort_table`
      change in place. */
  method BuildTable(table: FormField, formId: int, form: seq<FormField>, tasks: seq<Task>, config: Config,
                    filters: Dict<int, seq<Rule>>, dir: Directory)
    returns (r: Result<seq<Row>>)
    requires TasksWellTyped(tasks)
    ensures r == TableRowsFor(table, formId, form, tasks, config, filters, dir)
  {
    var kept := tasks;
    var link := "";
    var rules := Get(filters, table.id);
    if rules.Some? && |rules.value| > 0 {
      var narrowed := ToFilterAdd(form, tasks, rules.value, dir);
      if narrowed.Failure? {
        return Failure(narrowed.error);
      }
      FilterAddNarrows(form, tasks, rules.value, dir);
      kept, link := narrowed.value.0, narrowed.value.1;
    }
    r := BuildRows(table.info.columns, form, kept, config, formId, link);
  }

  /** The columns of one report table filled in on a Python list of rows. */
  method BuildRows(columns: seq<FormField>, form: seq<FormField>, tasks: seq<Task>, config: Config,
                   formId: int, link: string)
    returns (r: Result<seq<Row>>)
    requires TasksWellTyped(tasks)
    ensures r == RowsFromColumns(columns, form, tasks, config, formId, link)
  {
    var sortedId := GetIdByCode(columns, Some("total"));
    if |columns| == 0 {
      return Failure(IndexError);
    }
    var first := PrepareFirstCol(columns[0], form, tasks, config);
    if first.Failure? {
      return Failure(first.error);
    }
    FirstColFits(columns[0], form, tasks, config);
    var firstRows := first.value.0;
    var rows := new Row[|firstRows|](i requires 0 <= i < |firstRows| => firstRows[i]);
    assert rows[..] == firstRows;
    var outcome := PrepareOtherCol(columns[1..], form, rows, first.value.1, config, formId, link);
    if outcome.Fail? {
      return Failure(outcome.error);
    }
    if sortedId.Some? && sortedId.value != 0 {
      var sorted := SortTable(rows, sortedId.value);
      if sorted.Fail? {
        return Failure(sorted.error);
      }
    }
    return Success(rows[..]);
  }

  /** A cached source form: its template fields and its registry's tasks. */
  type Cache = map<int, (seq<FormField>, seq<Task>)>

  /** Fetching source form `formId`: `get_form` and then `get_registry`,
      whose missing task list counts as no tasks; either fetch fails when the
      platform does not have the form. Also the requests made. */
  function Fetch(client: Client, formId: int): (r: (Result<(seq<FormField>, seq<Task>)>, seq<Request>))
    requires client.Valid()
    ensures r.0.Success? ==> TasksWellTyped(r.0.value.1)
    ensures r.1 == if formId in client.forms then FetchLog([formId]) else [FormRequest(formId)]
    ensures r.0.Success? <==> formId in client.forms && formId in client.registries
    ensures r.0.Failure? ==> r.0.error == ApiError
    ensures r.0.Success? ==> r.0.value.0 == client.forms[formId]
    ensures r.0.Success? ==>
      r.0.value.1 == (if client.registries[formId].Some? then client.registries[formId].value else [])
  {
    if formId !in client.forms then (Failure(ApiError), [FormRequest(formId)])
    else if formId !in client.registries then (Failure(ApiError), [FormRequest(formId), RegistryRequest(formId)])
    else
      var tasks := if client.registries[formId].Some? then client.registries[formId].value else [];
      (Success((client.forms[formId], tasks)), [FormRequest(formId), RegistryRequest(formId)])
  }

  /** The requests that fetch the forms `ids` one after the other. */
  function FetchLog(ids: seq<int>): (log: seq<Request>)
    ensures |log| == 2 * |ids|
  {
    if |ids| == 0 then [] else [FormRequest(ids[0]), RegistryRequest(ids[0])] + FetchLog(ids[1..])
  }

  /** A way of building a table from its report field, its source form id,
      the form's template fields and the registry's tasks. */
  type Builder = (FormField, int, seq<FormField>, seq<Task>) -> Result<seq<Row>>

  /** How `get_tables` builds each table. The platform only returns
      well-typed tasks (`Client.Valid`), so the other branch is never taken. */
  function TableBuilder(config: Config, filters: Dict<int, seq<Rule>>, dir: Directory): Builder
  {
    (table: FormField, formId: int, form: seq<FormField>, tasks: seq<Task>) =>
      if TasksWellTyped(tasks) then TableRowsFor(table, formId, form, tasks, config, filters, dir)
      else Failure(AttributeError)
  }

  /** The source form `formId` from the cache, or else fetched. */
  function FetchCached(client: Client, cache: Cache, formId: int): (Result<(seq<FormField>, seq<Task>)>, seq<Request>)
    requires client.Valid()
  {
    if formId in cache then (Success(cache[formId]), []) else Fetch(client, formId)
  }

  /** What report `table` on source form `formId` yields: the failed
      fetch's error, or else what `build` makes of the cached or fetched
      form. */
  function TableFrom(client: Client, cache: Cache, build: Builder, table: FormField, formId: int): Result<seq<Row>>
    requires client.Valid()
  {
    var fetched := FetchCached(client, cache, formId).0;
    if fetched.Failure? then Failure(fetched.error) else build(table, formId, fetched.value.0, fetched.value.1)
  }

  /** The loop of `get_tables` from report `i` on, with the forms fetched so
      far in `cache`, the tables built so far in `built` and the requests
      made so far in `log`: all the tables built, in order, each with the id
      of its report field (the first error raised instead), and all the
      requests made. */
  function TablesFrom(client: Client, reports: seq<(FormField, nat)>, build: Builder, i: nat, cache: Cache,
                      built: seq<(int, seq<Row>)>, log: seq<Request>)
    : (r: (Result<seq<(int, seq<Row>)>>, seq<Request>))
    requires client.Valid() && i <= |reports|
    decreases |reports| - i
  {
    if i == |reports| then (Success(built), log)
    else
      var table := reports[i].0;
      var formId := reports[i].1 as int;
      var fetched := FetchCached(client, cache, formId);
      var rows := TableFrom(client, cache, build, table, formId);
      if rows.Failure? then (Failure(rows.error), log + fetched.1)
      else TablesFrom(client, reports, build, i + 1, cache[formId := fetched.0.value], built + [(table.id, rows.value)], log + fetched.1)
  }

  /** `tables[id] = rows` for each built table in turn. */
  function PutAll(built: seq<(int, seq<Row>)>): Dict<int, seq<Row>>
  {
    if |built| == 0 then [] else Put(PutAll(built[..|built| - 1]), built[|built| - 1].0, built[|built| - 1].1)
  }

  /** `get_tables(field_table_to_form_id, client, config, filters)`, each
      table built by `build`: the tables by id (the first error raised
      instead) and the requests made. */
  function Tables(client: Client, reports: seq<(FormField, nat)>, build: Builder)
    : (Result<Dict<int, seq<Row>>>, seq<Request>)
    requires client.Valid()
  {
    var (built, requests) := TablesFrom(client, reports, build, 0, map[], [], []);
    (if built.Failure? then Failure(built.error) else Success(PutAll(built.value)), requests)
  }

  /** The form ids of reports `i` onwards that are not in `seen`, each once,
      in first-seen order. */
  function NewIds(reports: seq<(FormField, nat)>, i: nat, seen: set<int>): (ids: seq<int>)
    requires i <= |reports|
    decreases |reports| - i
  {
    if i == |reports| then []
    else if reports[i].1 in seen then NewIds(reports, i + 1, seen)
    else [reports[i].1 as int] + NewIds(reports, i + 1, seen + {reports[i].1 as int})
  }

  /** The new ids are distinct, and they are exactly the form ids of the
      reports that are not in `seen`. */
  lemma {:induction false} NewIdsSpec(reports: seq<(FormField, nat)>, i: nat, seen: set<int>)
    requires i <= |reports|
    ensures Distinct(NewIds(reports, i, seen))
    ensures forall id :: id in NewIds(reports, i, seen) <==>
      id !in seen && exists j :: i <= j < |reports| && reports[j].1 == id
    decreases |reports| - i
  {
    if i < |reports| {
      var id := reports[i].1 as int;
      if id in seen {
        NewIdsSpec(reports, i + 1, seen);
      } else {
        NewIdsSpec(reports, i + 1, seen + {id});
      }
    }
  }

  lemma {:induction false} FetchLogConcat(a: seq<int>, b: seq<int>)
    ensures FetchLog(a + b) == FetchLog(a) + FetchLog(b)
  {
    if |a| > 0 {
      assert (a + b)[1..] == a[1..] + b;
      FetchLogConcat(a[1..], b);
    } else {
      assert a + b == b;
    }
  }

  /** The cache of `get_tables`: when every table is built, the requests are
      one `get_form` and one `get_registry` for each form id not yet cached,
      in the order the reports first name them. */
  lemma {:induction false} TablesFromFetches(client: Client, reports: seq<(FormField, nat)>, build: Builder, i: nat, cache: Cache,
                                             built: seq<(int, seq<Row>)>, log: seq<Request>)
    requires client.Valid() && i <= |reports|
    requires TablesFrom(client, reports, build, i, cache, built, log).0.Success?
    ensures TablesFrom(client, reports, build, i, cache, built, log).1 == log + FetchLog(NewIds(reports, i, cache.Keys))
    decreases |reports| - i
  {
    if i == |reports| {
      assert log + [] == log;
    } else {
      var formId := reports[i].1 as int;
      var fetched := FetchCached(client, cache, formId);
      var rows := TableFrom(client, cache, build, reports[i].0, formId);
      var next := cache[formId := fetched.0.value];
      var built' := built + [(reports[i].0.id, rows.value)];
      var first: seq<Request> := if formId in cache.Keys then [] else FetchLog([formId]);
      var rest := FetchLog(NewIds(reports, i + 1, cache.Keys + {formId}));
      assert fetched.1 == first;
      assert next.Keys == cache.Keys + {formId};
      assert TablesFrom(client, reports, build, i, cache, built, log) ==
        TablesFrom(client, reports, build, i + 1, next, built', log + first)
      by {
        TablesFromStep(client, reports, build, i, cache, built, log);
      }
      assert TablesFrom(client, reports, build, i + 1, next, built', log + first).1 == (log + first) + rest by {
        TablesFromFetches(client, reports, build, i + 1, next, built', log + first);
      }
      assert FetchLog(NewIds(reports, i, cache.Keys)) == first + rest by {
        NewIdsLog(reports, i, cache.Keys);
      }
      AppendAssoc(log, first, rest);
    }
  }

  /** The requests for the new ids from report `i` on: report `i`'s form
      unless it was seen, then those of the later reports. */
  lemma NewIdsLog(reports: seq<(FormField, nat)>, i: nat, seen: set<int>)
    requires i < |reports|
    ensures var id := reports[i].1 as int;
      FetchLog(NewIds(reports, i, seen)) ==
        (if id in seen then [] else FetchLog([id])) + FetchLog(NewIds(reports, i + 1, seen + {id}))
  {
    var id := reports[i].1 as int;
    if id in seen {
      assert seen + {id} == seen;
      assert [] + FetchLog(NewIds(reports, i + 1, seen)) == FetchLog(NewIds(reports, i + 1, seen));
    } else {
      FetchLogConcat([id], NewIds(reports, i + 1, seen + {id}));
    }
  }

  /** Each source form and its registry are fetched once, however many
      report tables draw on it: the form ids fetched are distinct and, by
      `NewIdsSpec`, they are all the reports' form ids. */
  lemma TablesFetchOnce(client: Client, reports: seq<(FormField, nat)>, build: Builder)
    requires client.Valid() && Tables(client, reports, build).0.Success?
    ensures var ids := NewIds(reports, 0, {});
      && Tables(client, reports, build).1 == FetchLog(ids)
      && Distinct(ids)
  {
    var empty: Cache := map[];
    assert empty.Keys == {};
    TablesFromFetches(client, reports, build, 0, empty, [], []);
    NewIdsSpec(reports, 0, {});
  }

  /** One table is built for each report, in order, under its field id. */
  lemma {:induction false} TablesFromIds(client: Client, reports: seq<(FormField, nat)>, build: Builder, i: nat, cache: Cache,
                                         built: seq<(int, seq<Row>)>, log: seq<Request>)
    requires client.Valid() && i <= |reports|
    requires TablesFrom(client, reports, build, i, cache, built, log).0.Success?
    ensures var all := TablesFrom(client, reports, build, i, cache, built, log).0.value;
      && |all| == |built| + |reports| - i
      && all[..|built|] == built
      && forall j :: |built| <= j < |all| ==> all[j].0 == reports[i + j - |built|].0.id
    decreases |reports| - i
  {
    if i < |reports| {
      var formId := reports[i].1 as int;
      var fetched := FetchCached(client, cache, formId);
      var rows := TableFrom(client, cache, build, reports[i].0, formId);
      var more := built + [(reports[i].0.id, rows.value)];
      var next := cache[formId := fetched.0.value];
      assert TablesFrom(client, reports, build, i, cache, built, log) ==
        TablesFrom(client, reports, build, i + 1, next, more, log + fetched.1)
      by {
        TablesFromStep(client, reports, build, i, cache, built, log);
      }
      TablesFromIds(client, reports, build, i + 1, next, more, log + fetched.1);
      var all := TablesFrom(client, reports, build, i + 1, next, more, log + fetched.1).0.value;
      assert all[..|built|] == all[..|more|][..|built|];
      forall j | |built| <= j < |all|
        ensures all[j].0 == reports[i + j - |built|].0.id
      {
        if j == |built| {
          assert all[j] == all[..|more|][j];
        }
      }
    } else {
      assert built[..|built|] == built;
    }
  }

  /** The dict holds the last table built under each id, and no other id. */
  lemma {:induction false} PutAllKeys(built: seq<(int, seq<Row>)>)
    ensures Valid(PutAll(built))
    ensures forall id :: id in Keys(PutAll(built)) <==> exists j :: 0 <= j < |built| && built[j].0 == id
  {
    if |built| > 0 {
      var front := built[..|built| - 1];
      var last := built[|built| - 1];
      assert built == front + [last];
      PutAllKeys(front);
      assert forall id :: id in Keys(PutAll(built)) <==> id in Keys(PutAll(front)) || id == last.0;
      forall id ensures id in Keys(PutAll(built)) <==> exists j :: 0 <= j < |built| && built[j].0 == id {
        BuiltSnoc(front, last, id);
      }
    }
  }

  /** An id was built in `front + [last]` iff it was built in `front` or is `last`'s. */
  lemma BuiltSnoc(front: seq<(int, seq<Row>)>, last: (int, seq<Row>), id: int)
    ensures (exists j :: 0 <= j < |front + [last]| && (front + [last])[j].0 == id) <==>
      (exists j :: 0 <= j < |front| && front[j].0 == id) || last.0 == id
  {
    var built := front + [last];
    if j :| 0 <= j < |built| && built[j].0 == id {
      if j < |front| {
        assert front[j].0 == id;
      }
    }
    if j :| 0 <= j < |front| && front[j].0 == id {
      assert built[j].0 == id;
    }
    if last.0 == id {
      assert built[|front|].0 == id;
    }
  }

  /** `get_tables` returns a table for each report table, by field id. */
  lemma TablesKeys(client: Client, reports: seq<(FormField, nat)>, build: Builder)
    requires client.Valid() && Tables(client, reports, build).0.Success?
    ensures var tables := Tables(client, reports, build).0.value;
      && Valid(tables)
      && forall id :: id in Keys(tables) <==> exists j :: 0 <= j < |reports| && reports[j].0.id == id
  {
    var built := TablesFrom(client, reports, build, 0, map[], [], []).0.value;
    TablesFromIds(client, reports, build, 0, map[], [], []);
    PutAllReports(built, reports);
  }

  /** Tables built one per report, in order, are put under exactly the
      reports' field ids. */
  lemma PutAllReports(built: seq<(int, seq<Row>)>, reports: seq<(FormField, nat)>)
    requires |built| == |reports| && forall j :: 0 <= j < |built| ==> built[j].0 == reports[j].0.id
    ensures Valid(PutAll(built))
    ensures forall id :: id in Keys(PutAll(built)) <==> exists j :: 0 <= j < |reports| && reports[j].0.id == id
  {
    PutAllKeys(built);
    forall id ensures id in Keys(PutAll(built)) <==> exists j :: 0 <= j < |reports| && reports[j].0.id == id {
      if j :| 0 <= j < |reports| && reports[j].0.id == id {
        assert built[j].0 == id;
      }
    }
  }

  /** One step of the loop of `get_tables`: report `i` is built from its
      source form, fetched or cached, and the loop goes on with the form
      cached. */
  lemma TablesFromStep(client: Client, reports: seq<(FormField, nat)>, build: Builder, i: nat, cache: Cache,
                       built: seq<(int, seq<Row>)>, log: seq<Request>)
    requires client.Valid() && i < |reports|
    ensures var fetched := FetchCached(client, cache, reports[i].1);
      var rows := TableFrom(client, cache, build, reports[i].0, reports[i].1);
      TablesFrom(client, reports, build, i, cache, built, log) ==
        if rows.Failure? then (Failure(rows.error), log + fetched.1)
        else TablesFrom(client, reports, build, i + 1, cache[reports[i].1 := fetched.0.value],
                        built + [(reports[i].0.id, rows.value)], log + fetched.1)
  {
  }

  /** The table rows `objs` that `get_rows` makes from `rows`: row `i` is
      numbered `i` and holds the cells of `rows[i]`. */
  predicate Realises(objs: seq<TableRow>, rows: seq<Row>) {
    |objs| == |rows| && forall i :: 0 <= i < |objs| ==> objs[i].rowId == i && objs[i].cells == Utils.Cells(rows[i])
  }

  /** The tables of table rows, by table id, realise the planned rows. */
  predicate Realised(tables: Dict<int, seq<TableRow>>, planned: Dict<int, seq<Row>>) {
    Keys(tables) == Keys(planned) && forall i :: 0 <= i < |tables| ==> Realises(tables[i].1, planned[i].1)
  }

  lemma RealisedPut(tables: Dict<int, seq<TableRow>>, planned: Dict<int, seq<Row>>, id: int, objs: seq<TableRow>, rows: seq<Row>)
    requires Realised(tables, planned) && Realises(objs, rows)
    ensures Realised(Put(tables, id, objs), Put(planned, id, rows))
  {
    if id in Keys(tables) {
      assert IndexOf(Keys(tables), id) == IndexOf(Keys(planned), id);
    } else {
      assert |tables| == |Keys(planned)|;
    }
  }

  lemma PutEntries<K, V>(d: Dict<K, V>, k: K, v: V)
    ensures forall e :: e in Put(d, k, v) ==> e in d || e == (k, v)
  {
  }

  /** `build` makes report `table`, on source form `formId`, as
      `TableRowsFor` does from the form the platform returns. */
  predicate AgreesOn(build: Builder, client: Client, table: FormField, formId: int, config: Config, filters: Dict<int, seq<Rule>>)
    requires client.Valid()
  {
    var fetched := Fetch(client, formId).0;
    fetched.Success? ==>
      build(table, formId, fetched.value.0, fetched.value.1) ==
        TableRowsFor(table, formId, fetched.value.0, fetched.value.1, config, filters, client.directory)
  }

  /** `build` makes every report table as `TableRowsFor` does. */
  predicate AgreesAll(build: Builder, client: Client, reports: seq<(FormField, nat)>, config: Config, filters: Dict<int, seq<Rule>>)
    requires client.Valid()
  {
    forall j {:trigger AgreesOn(build, client, reports[j].0, reports[j].1, config, filters)} |
      0 <= j < |reports| :: AgreesOn(build, client, reports[j].0, reports[j].1, config, filters)
  }

  /** The builder of `get_tables` agrees with `TableRowsFor` on every report. */
  lemma TableBuilderAgrees(client: Client, reports: seq<(FormField, nat)>, config: Config, filters: Dict<int, seq<Rule>>)
    requires client.Valid()
    ensures AgreesAll(TableBuilder(config, filters, client.directory), client, reports, config, filters)
  {
  }

  /** Every cached form is what the platform returns for it. */
  predicate CacheFaithful(client: Client, cache: Cache)
    requires client.Valid()
  {
    forall id | id in cache :: Fetch(client, id).0 == Success(cache[id])
  }

  /** The body of the loop of `get_tables` for report `i`: its source form,
      from the cache or else fetched, and its new rows. */
  method GetTable(client: Client, reports: seq<(FormField, nat)>, i: nat, cache: Cache, config: Config,
                  filters: Dict<int, seq<Rule>>, ghost build: Builder)
    returns (r: Result<seq<Row>>, next: Cache)
    requires client.Valid() && i < |reports| && CacheFaithful(client, cache)
    requires AgreesAll(build, client, reports, config, filters)
    modifies client
    ensures client.requests == old(client.requests) + FetchCached(client, cache, reports[i].1).1
    ensures r == TableFrom(client, cache, build, reports[i].0, reports[i].1)
    ensures r.Success? ==> next == cache[reports[i].1 := FetchCached(client, cache, reports[i].1).0.value]
    ensures CacheFaithful(client, next)
  {
    var table := reports[i].0;
    var formId := reports[i].1 as int;
    assert AgreesOn(build, client, table, formId, config, filters);
    assert FetchCached(client, cache, formId).0 == Fetch(client, formId).0;
    var form: seq<FormField>;
    var tasks: seq<Task>;
    if formId in cache {
      form, tasks := cache[formId].0, cache[formId].1;
    } else {
      var fetchedForm := client.GetForm(formId);
      if fetchedForm.Failure? {
        return Failure(fetchedForm.error), cache;
      }
      var registry := client.GetRegistry(formId);
      if registry.Failure? {
        return Failure(registry.error), cache;
      }
      form := fetchedForm.value;
      tasks := if registry.value.Some? then registry.value.value else [];
    }
    r := BuildTable(table, formId, form, tasks, config, filters, client.directory);
    next := cache[formId := (form, tasks)];
  }

  /** `tables[table.id] = utils.get_rows(rows)`. */
  method StoreTable(tables: Dict<int, seq<TableRow>>, ghost built: seq<(int, seq<Row>)>, id: int, rows: seq<Row>)
    returns (r: Dict<int, seq<TableRow>>)
    requires Realised(tables, PutAll(built))
    ensures Realised(r, PutAll(built + [(id, rows)]))
    ensures forall e, row :: e in r && row in e.1 ==> e in tables || fresh(row)
  {
    var rowsEnt := GetRows(rows);
    RealisedPut(tables, PutAll(built), id, rowsEnt, rows);
    PutEntries(tables, id, rowsEnt);
    assert (built + [(id, rows)])[..|built|] == built;
    r := Put(tables, id, rowsEnt);
  }

  /** One pass of the loop of `get_tables`: the table of report `i` is built
      and stored, or its error is raised. */
  method NextTable(reports: seq<(FormField, nat)>, i: nat, client: Client, config: Config, filters: Dict<int, seq<Rule>>,
                   ghost build: Builder, cache: Cache, tables: Dict<int, seq<TableRow>>,
                   ghost built: seq<(int, seq<Row>)>, ghost done: seq<Request>)
    returns (failed: Option<Exception>, next: Cache, nextTables: Dict<int, seq<TableRow>>, ghost nextBuilt: seq<(int, seq<Row>)>)
    requires client.Valid() && i < |reports| && CacheFaithful(client, cache)
    requires AgreesAll(build, client, reports, config, filters)
    requires Realised(tables, PutAll(built))
    modifies client
    ensures var requests := FetchCached(client, cache, reports[i].1).1;
      && client.requests == old(client.requests) + requests
      && (failed.Some? ==> TablesFrom(client, reports, build, i, cache, built, done) == (Failure(failed.value), done + requests))
      && (failed.None? ==>
            TablesFrom(client, reports, build, i, cache, built, done) ==
              TablesFrom(client, reports, build, i + 1, next, nextBuilt, done + requests))
    ensures failed.None? ==> CacheFaithful(client, next) && Realised(nextTables, PutAll(nextBuilt))
    ensures failed.None? ==> forall e, row :: e in nextTables && row in e.1 ==> e in tables || fresh(row)
  {
    var rows;
    rows, next := GetTable(client, reports, i, cache, config, filters, build);
    TablesFromStep(client, reports, build, i, cache, built, done);
    if rows.Failure? {
      return Some(rows.error), next, tables, built;
    }
    nextTables := StoreTable(tables, built, reports[i].0.id, rows.value);
    return None, next, nextTables, built + [(reports[i].0.id, rows.value)];
  }

  /** `get_tables(field_table_to_form_id, client, config, filters)`: the new
      table rows of each report table, under its field id. */
  method GetTables(reports: seq<(FormField, nat)>, client: Client, config: Config, filters: Dict<int, seq<Rule>>)
    returns (r: Result<Dict<int, seq<TableRow>>>)
    requires client.Valid()
    modifies client
    ensures var (planned, requests) := Tables(client, reports, TableBuilder(config, filters, client.directory));
      && client.requests == old(client.requests) + requests
      && (r.Failure? <==> planned.Failure?)
      && (r.Failure? ==> r.error == planned.error)
      && (r.Success? ==> Realised(r.value, planned.value))
    ensures r.Success? ==> forall e, row :: e in r.value && row in e.1 ==> fresh(row)
  {
    TableBuilderAgrees(client, reports, config, filters);
    r := GetTablesWith(reports, client, config, filters, TableBuilder(config, filters, client.directory));
  }

  /** The loop of `get_tables`, for a `build` that makes each report's table
      as `TableRowsFor` does. */
  method GetTablesWith(reports: seq<(FormField, nat)>, client: Client, config: Config, filters: Dict<int, seq<Rule>>,
                       ghost build: Builder)
    returns (r: Result<Dict<int, seq<TableRow>>>)
    requires client.Valid()
    requires AgreesAll(build, client, reports, config, filters)
    modifies client
    ensures var (planned, requests) := Tables(client, reports, build);
      && client.requests == old(client.requests) + requests
      && (r.Failure? <==> planned.Failure?)
      && (r.Failure? ==> r.error == planned.error)
      && (r.Success? ==> Realised(r.value, planned.value))
    ensures r.Success? ==> forall e, row :: e in r.value && row in e.1 ==> fresh(row)
  {
    var cache: Cache := map[];
    ghost var built: seq<(int, seq<Row>)> := [];
    ghost var done: seq<Request> := [];
    ghost var target := TablesFrom(client, reports, build, 0, cache, built, done);
    var tables: Dict<int, seq<TableRow>> := [];
    var i := 0;
    while i < |reports|
      invariant 0 <= i <= |reports| && CacheFaithful(client, cache)
      invariant client.requests == old(client.requests) + done
      invariant TablesFrom(client, reports, build, i, cache, built, done) == target
      invariant Realised(tables, PutAll(built))
      invariant forall e, row :: e in tables && row in e.1 ==> fresh(row)
    {
      ghost var requests := FetchCached(client, cache, reports[i].1).1;
      var failed, next, nextTables, nextBuilt := NextTable(reports, i, client, config, filters, build, cache, tables, built, done);
      if failed.Some? {
        assert client.requests == old(client.requests) + (done + requests) by {
          AppendAssoc(old(client.requests), done, requests);
        }
        return Failure(failed.value);
      }
      assert client.requests == old(client.requests) + (done + requests) by {
        AppendAssoc(old(client.requests), done, requests);
      }
      cache, tables, built := next, nextTables, nextBuilt;
      done := done + requests;
      i := i + 1;
    }
    return Success(tables);
  }

  /** `rewrite_tables(client, tables, task)`: `delete_table` posts the old
      rows of the tables, marked for deletion, and `comment_tables` posts
      the new ones. */
  method RewriteTables(client: Client, tables: Dict<int, seq<TableRow>>, task: BotTask) returns (r: Outcome)
    modifies client, TableRows(task.fields)
    ensures var cleared := ClearedTables(task.fields, Keys(tables));
      && (r.Fail? <==> cleared.Failure?)
      && (r.Fail? ==> r.error == cleared.error && client.requests == old(client.requests))
      && (r.Pass? ==>
            client.requests == old(client.requests) + [CommentRequest(task.id, cleared.value), CommentRequest(task.id, TableUpdates(tables))])
      && (r.Pass? ==> forall row :: row in TableRows(task.fields) ==>
            row.delete == (old(row.delete) || row in TableRows(cleared.value)))
  {
    r := DeleteTable(client, Keys(tables), task);
    if r.Fail? {
      return;
    }
    CommentTables(client, tables, task.id);
  }

  /** What `process_reports` computes before it writes: the rules of the
      filter table, the report tables of the template, and the new rows of
      each, with the requests made on the way. */
  function Planned(client: Client, config: Config, task: BotTask): (Result<Dict<int, seq<Row>>>, seq<Request>)
    requires client.Valid()
  {
    match AdditionalFilters(task.fields, config.filtersCode)
    case Failure(e) => (Failure(e), [])
    case Success(filters) =>
      match ReportTables(task.templateFields)
      case Failure(e) => (Failure(e), [])
      case Success(reports) =>
        Tables(client, reports, TableBuilder(config, FiltersToId(task.templateFields, filters), client.directory))
  }

  /** `process_reports(client, config, task)`: rebuilds every report table
      of the task from its source form and writes it back; `written` are the
      new tables posted. */
  method ProcessReports(client: Client, config: Config, task: BotTask) returns (r: Outcome, ghost written: Dict<int, seq<TableRow>>)
    requires client.Valid()
    modifies client, TableRows(task.fields)
    ensures var (planned, fetches) := Planned(client, config, task);
      if planned.Failure? then
        r == Fail(planned.error) && client.requests == old(client.requests) + fetches
      else
        var cleared := ClearedTables(task.fields, Keys(planned.value));
        && Realised(written, planned.value)
        && (cleared.Failure? ==> r == Fail(cleared.error) && client.requests == old(client.requests) + fetches)
        && (cleared.Success? ==> r == Pass)
        && (cleared.Success? ==>
              client.requests == old(client.requests) + fetches + [CommentRequest(task.id, cleared.value), CommentRequest(task.id, TableUpdates(written))])
        && (cleared.Success? ==> forall row :: row in TableRows(task.fields) ==>
              row.delete == (old(row.delete) || row in TableRows(cleared.value)))
  {
    written := [];
    var filters := GetAdditionalFilters(task.fields, config.filtersCode);
    if filters.Failure? {
      return Fail(filters.error), written;
    }
    var found := FindReportTables(task.templateFields, filters.value);
    if found.Failure? {
      return Fail(found.error), written;
    }
    var tables := GetTables(found.value.0, client, config, found.value.1);
    if tables.Failure? {
      return Fail(tables.error), written;
    }
    written := tables.value;
    r := RewriteTables(client, tables.value, task);
  }
}
