/** The Pyrus platform entities the report engine reads and writes, the
    pyrustools lookups it calls, the platform client (whose fetches are
    recorded so that the per-form cache can be stated), the bot configuration
    and `urllib.parse.urlencode`. */
module Entities {
  import opened Wrappers
  import opened Strings
  import opened OrderedDicts

  /** The `type` tag of a form field. */
  datatype FieldType =
    | PersonType | MultipleChoiceType | TextType | CatalogType | StepType
    | CheckmarkType | TableType | OtherType

  /** `ent.Person`: a contact; a role placeholder (`type == 'role'`) keeps the
      role's label in `lastName`. */
  datatype Person = Person(firstName: string, lastName: string, isRole: bool, id: int)

  /** `ent.Role`. */
  datatype Role = Role(name: string, id: int)

  /** `ent.Organization` of the contact directory. */
  datatype Organization = Organization(persons: seq<Person>, roles: seq<Role>)

  /** One option of a multiple-choice field (`info.options`). */
  datatype ChoiceOption = ChoiceOption(choiceId: int, choiceValue: string)

  /** One item of a catalog: its id and its column values. */
  datatype CatalogEntry = CatalogEntry(itemId: int, values: seq<string>)

  datatype Catalog = Catalog(items: seq<CatalogEntry>)

  /** The value of a task field. `Other` is any further value (a number with a
      fraction, a date, ...), carried with the text `str()` gives it. */
  datatype Value =
    | Text(text: string)
    | Int(n: int)
    | PersonValue(person: Person)
    | Choice(choiceNames: seq<string>, choiceId: int)
    | CatalogItem(values: seq<string>, itemId: int)
    | Table(rows: seq<TableRow>)
    | Other(rendering: string)

  /** `field.info`: the service code, the options of a multiple-choice field,
      the catalog of a catalog field and the columns of a table field. */
  datatype FieldInfo = FieldInfo(
    code: Option<string>,
    options: seq<ChoiceOption>,
    catalogId: int,
    columns: seq<FormField>)

  /** A form field: in a form template (with `info`) or in a task (with a
      value, `None` when empty). */
  datatype FormField = FormField(
    id: int,
    fieldType: FieldType,
    name: string,
    info: FieldInfo,
    value: Option<Value>)

  /** `ent.TableRow`: one row of a table field. Its `delete` flag is set in
      place when the table is cleared. */
  class TableRow {
    const rowId: int
    const cells: seq<FormField>
    var delete: bool

    constructor (rowId: int, cells: seq<FormField>)
      ensures this.rowId == rowId && this.cells == cells && !delete
    {
      this.rowId := rowId;
      this.cells := cells;
      delete := false;
    }
  }

  /** A task of a form registry: its id and its flat field list. */
  datatype Task = Task(id: int, fields: seq<FormField>)

  /** The task the bot runs on: its id, the flat fields of its form template
      and its own flat fields. */
  datatype BotTask = BotTask(id: int, templateFields: seq<FormField>, fields: seq<FormField>)

  /** The contact directory and the catalogs, as fetched from the platform by
      `get_contacts` and `get_catalog`. */
  datatype Directory = Directory(organizations: seq<Organization>, catalogs: map<int, Catalog>)

  /** A row of a report table under construction: an ordered dict from column
      id to cell value. */
  type Row = Dict<int, Value>

  /** `BotConfig`: the five settings read from the configuration file. */
  datatype Config = Config(
    allowFormIds: seq<int>,
    mappingServiceCode: map<string, string>,
    totalCode: Option<string>,
    registryCode: Option<string>,
    filtersCode: Option<string>)

  /** The platform delivers each value in the shape of its field's type; the
      code dereferences `value.id`, `value.choice_id` and `value.item_id`
      without checking. */
  predicate WellTyped(f: FormField) {
    match f.fieldType
    case PersonType => f.value.None? || f.value.value.PersonValue?
    case MultipleChoiceType => f.value.None? || f.value.value.Choice?
    case CatalogType => f.value.None? || f.value.value.CatalogItem?
    case TextType => f.value.None? || f.value.value.Text?
    case StepType => f.value.None? || f.value.value.Int?
    case _ => true
  }

  predicate TaskWellTyped(t: Task) {
    forall f | f in t.fields :: WellTyped(f)
  }

  predicate TasksWellTyped(tasks: seq<Task>) {
    forall t | t in tasks :: TaskWellTyped(t)
  }

  /** `str(value)` for the values that reach it: text, integers, tables and
      other values. A table is a Python list of row objects, whose repr the
      model does not reproduce: a non-empty one renders as a fixed text. */
  function Str(v: Value): string
    requires !(v.PersonValue? || v.Choice? || v.CatalogItem?)
  {
    match v
    case Text(s) => s
    case Int(n) => IntToString(n)
    case Table(rows) => if rows == [] then "[]" else "[table]"
    case Other(r) => r
  }

  /** `rows = value if value else []` followed by a loop over `rows`: the row
      objects of a table value. An empty text and the number 0 are falsy;
      any other non-table value fails as soon as the loop touches it. */
  function TableRowsOf(v: Option<Value>): (r: Result<seq<TableRow>>)
    ensures v.Some? && v.value.Table? ==> r == Success(v.value.rows)
    ensures v.None? ==> r == Success([])
  {
    match v
    case None => Success([])
    case Some(Table(rows)) => Success(rows)
    case Some(Text(s)) => if s == "" then Success([]) else Failure(AttributeError)
    case Some(Int(n)) => if n == 0 then Success([]) else Failure(TypeError)
    case Some(_) => Failure(TypeError)
  }

  // ---------------------------------------------------------------------------
  // pyrustools lookups. Their source is not part of this model; each is taken
  // to return the first field that matches, or None, and a field without a
  // code (or a lookup by a None id or code) matches nothing.

  /** `object_by_id(fields, id)`. */
  function ObjectById(fields: seq<FormField>, id: Option<int>): (r: Option<FormField>)
    ensures r.Some? ==> r.value in fields && id == Some(r.value.id)
    ensures r.None? ==> forall f | f in fields :: id != Some(f.id)
  {
    if |fields| == 0 then None
    else if id == Some(fields[0].id) then Some(fields[0])
    else ObjectById(fields[1..], id)
  }

  /** `object_by_code(fields, code)`. */
  function ObjectByCode(fields: seq<FormField>, code: Option<string>): (r: Option<FormField>)
    ensures r.Some? ==> r.value in fields && code.Some? && r.value.info.code == code
    ensures r.None? ==> forall f | f in fields :: code.None? || f.info.code != code
  {
    if |fields| == 0 then None
    else if code.Some? && fields[0].info.code == code then Some(fields[0])
    else ObjectByCode(fields[1..], code)
  }

  /** `object_by_id` returns the first field that carries the id. */
  lemma {:induction false} ObjectByIdFirst(fields: seq<FormField>, id: int, i: int)
    requires 0 <= i < |fields| && fields[i].id == id
    requires forall j :: 0 <= j < i ==> fields[j].id != id
    ensures ObjectById(fields, Some(id)) == Some(fields[i])
  {
    if i > 0 {
      ObjectByIdFirst(fields[1..], id, i - 1);
    }
  }

  /** `object_by_code` returns the first field that carries the code. */
  lemma {:induction false} ObjectByCodeFirst(fields: seq<FormField>, code: string, i: int)
    requires 0 <= i < |fields| && fields[i].info.code == Some(code)
    requires forall j :: 0 <= j < i ==> fields[j].info.code != Some(code)
    ensures ObjectByCode(fields, Some(code)) == Some(fields[i])
  {
    if i > 0 {
      ObjectByCodeFirst(fields[1..], code, i - 1);
    }
  }

  /** `get_id_by_code(fields, code)`. */
  function GetIdByCode(fields: seq<FormField>, code: Option<string>): Option<int>
  {
    match ObjectByCode(fields, code)
    case Some(f) => Some(f.id)
    case None => None
  }

  /** `set_value_to_field(field_id, value)`: a field update carrying a value. */
  function SetValueToField(id: int, v: Value): FormField
  {
    FormField(id, OtherType, "", FieldInfo(None, [], 0, []), Some(v))
  }

  // ---------------------------------------------------------------------------
  // urllib.parse.urlencode

  /** `urllib.parse.urlencode(d)` for a dict whose items are `pairs`, in order:
      `k=v` joined by `&`. Percent-encoding of the keys and values is not
      modelled. */
  function Urlencode(pairs: seq<(string, string)>): (r: string)
    ensures r == "" <==> |pairs| == 0
  {
    if |pairs| == 0 then ""
    else if |pairs| == 1 then pairs[0].0 + "=" + pairs[0].1
    else pairs[0].0 + "=" + pairs[0].1 + "&" + Urlencode(pairs[1..])
  }

  // ---------------------------------------------------------------------------
  // The platform client

  /** A call into the platform: a fetch of a form template or of a registry,
      or a comment on a task that carries field updates. */
  datatype Request =
    | FormRequest(formId: int)
    | RegistryRequest(formId: int)
    | CommentRequest(taskId: int, updates: seq<FormField>)

  /** The platform as the report engine sees it: the forms, registries and
      directory it can fetch, and the log of fetches and comments made so far.
      A missing form or registry makes the fetch fail. */
  class Client {
    const forms: map<int, seq<FormField>>
    const registries: map<int, Option<seq<Task>>>
    const directory: Directory
    var requests: seq<Request>

    constructor (
      forms: map<int, seq<FormField>>,
      registries: map<int, Option<seq<Task>>>,
      directory: Directory)
      ensures this.forms == forms && this.registries == registries
      ensures this.directory == directory && requests == []
    {
      this.forms := forms;
      this.registries := registries;
      this.directory := directory;
      requests := [];
    }

    /** Every task the platform can return has well-typed fields. */
    predicate Valid() {
      forall id | id in registries && registries[id].Some? :: TasksWellTyped(registries[id].value)
    }

    /** `client.get_form(form_id).flat_fields_static`. */
    method GetForm(formId: int) returns (r: Result<seq<FormField>>)
      modifies this
      ensures requests == old(requests) + [FormRequest(formId)]
      ensures r == if formId in forms then Success(forms[formId]) else Failure(ApiError)
    {
      requests := requests + [FormRequest(formId)];
      r := if formId in forms then Success(forms[formId]) else Failure(ApiError);
    }

    /** `client.get_registry(form_id).tasks`. */
    method GetRegistry(formId: int) returns (r: Result<Option<seq<Task>>>)
      modifies this
      ensures requests == old(requests) + [RegistryRequest(formId)]
      ensures r == if formId in registries then Success(registries[formId]) else Failure(ApiError)
    {
      requests := requests + [RegistryRequest(formId)];
      r := if formId in registries then Success(registries[formId]) else Failure(ApiError);
    }

    /** `client.comment_task_plus(task_id, field_updates=updates)`. */
    method CommentTask(taskId: int, updates: seq<FormField>)
      modifies this
      ensures requests == old(requests) + [CommentRequest(taskId, updates)]
    {
      requests := requests + [CommentRequest(taskId, updates)];
    }
  }
}
