/** The helpers of the report engine (utils.py): the form id inside a table
    code, the normalised text of a field value, the registry link fragments
    built from a task value and from a literal a user typed, the catalog and
    contact searches, the comma-list and range task filter, and the
    conversion of rows into table entities and the marking of old rows. */
module Utils {
  import opened Wrappers
  import opened Strings
  import opened OrderedDicts
  import opened Entities

  // ---------------------------------------------------------------------------
  // get_form_id_from_code

  /** `get_form_id_from_code(code)`: the `_`-separated token that follows the
      first token equal to `REPORT`, read as a number; 0 when there is no such
      token or it is not all digits. `list.index` raises ValueError when no
      token is exactly `REPORT`. */
  function GetFormIdFromCode(code: string): (r: Result<nat>)
    ensures r.Failure? <==> "REPORT" !in Split(code, '_')
    ensures r.Failure? ==> r.error == ValueError
  {
    var tokens := Split(code, '_');
    if "REPORT" !in tokens then Failure(ValueError)
    else
      var i := IndexOf(tokens, "REPORT");
      if i + 1 < |tokens| && IsDigits(tokens[i + 1]) then Success(DigitsValue(tokens[i + 1]))
      else Success(0)
  }

  predicate NoUnderscore(tokens: seq<string>) {
    forall i :: 0 <= i < |tokens| ==> '_' !in tokens[i]
  }

  /** A code whose tokens are `before`, `REPORT`, the decimal form of `n` and
      `after` yields `n`, whatever `after` holds. */
  lemma GetFormIdFromCodeFindsId(before: seq<string>, n: nat, after: seq<string>)
    requires "REPORT" !in before
    requires NoUnderscore(before) && NoUnderscore(after)
    ensures GetFormIdFromCode(Join(before + ["REPORT", NatToString(n)] + after, '_')) == Success(n)
  {
    DigitsOfNat(n);
    assert NoUnderscore(before + [NatToString(n)] + after) by {
      var rest := before + [NatToString(n)] + after;
      forall i | 0 <= i < |rest| ensures '_' !in rest[i] {
        if i == |before| {
          assert IsDigits(rest[i]);
        } else if i > |before| {
          assert rest[i] == after[i - |before| - 1];
        }
      }
    }
    ReportTokenAt(before, NatToString(n), after);
  }

  /** A token after `REPORT` that is not all digits yields 0. */
  lemma GetFormIdFromCodeNotDigits(before: seq<string>, token: string, after: seq<string>)
    requires "REPORT" !in before && !IsDigits(token)
    requires NoUnderscore(before + [token] + after)
    ensures GetFormIdFromCode(Join(before + ["REPORT", token] + after, '_')) == Success(0)
  {
    ReportTokenAt(before, token, after);
  }

  /** The code joined from `before`, `REPORT`, `token` and `after` splits back
      into those tokens, its first `REPORT` at `|before|`. */
  lemma ReportTokenAt(before: seq<string>, token: string, after: seq<string>)
    requires "REPORT" !in before && NoUnderscore(before + [token] + after)
    ensures var tokens := before + ["REPORT", token] + after;
      && Split(Join(tokens, '_'), '_') == tokens
      && "REPORT" in tokens
      && IndexOf(tokens, "REPORT") == |before|
      && tokens[|before| + 1] == token
  {
    var tokens := before + ["REPORT", token] + after;
    var rest := before + [token] + after;
    forall i | 0 <= i < |tokens| ensures '_' !in tokens[i] {
      if i < |before| {
        assert tokens[i] == rest[i];
      } else if i > |before| {
        assert tokens[i] == rest[i - 1];
      }
    }
    SplitJoin(tokens, '_');
    assert tokens[..|before|] == before;
    assert tokens[|before|] == "REPORT";
  }

  /** A code that ends with the token `REPORT` yields 0. */
  lemma GetFormIdFromCodeMissingId(before: seq<string>)
    requires "REPORT" !in before && NoUnderscore(before)
    ensures GetFormIdFromCode(Join(before + ["REPORT"], '_')) == Success(0)
  {
    var tokens := before + ["REPORT"];
    assert forall i :: 0 <= i < |tokens| ==> '_' !in tokens[i];
    SplitJoin(tokens, '_');
    assert tokens[..|before|] == before;
    assert IndexOf(tokens, "REPORT") == |before|;
  }

  /** `REPORT` inside a longer token is not a `REPORT` token: a code such as
      `REPORTS_5` contains the text `REPORT`, but its form id cannot be read. */
  lemma GetFormIdFromCodeNeedsWholeToken(word: string, rest: seq<string>)
    requires '_' !in word && word != "REPORT" && Contains(word, "REPORT")
    requires "REPORT" !in rest && NoUnderscore(rest)
    ensures Contains(Join([word] + rest, '_'), "REPORT")
    ensures GetFormIdFromCode(Join([word] + rest, '_')) == Failure(ValueError)
  {
    var tokens := [word] + rest;
    assert NoUnderscore(tokens);
    SplitJoin(tokens, '_');
    var code := Join(tokens, '_');
    assert code[..|word|] == word by {
      if |rest| > 0 {
        assert tokens[1..] == rest;
        assert code == word + ['_'] + Join(rest, '_');
      }
    }
    var i :| 0 <= i <= |word| - 6 && OccursAt(word, "REPORT", i);
    assert code[i..i + 6] == word[i..i + 6];
    assert OccursAt(code, "REPORT", i);
  }

  // ---------------------------------------------------------------------------
  // prepare_value

  /** The text an empty or missing field normalises to. */
  const NoValue := "Нет значения"

  /** A choice without names or a catalog item without values: taking its
      first element raises IndexError. */
  predicate HasNoFirst(v: Value) {
    (v.Choice? && |v.choiceNames| == 0) || (v.CatalogItem? && |v.values| == 0)
  }

  /** `prepare_value(field)`: the text shown for a field's value. */
  function PrepareValue(field: Option<FormField>): (r: Result<string>)
    ensures r.Failure? <==> field.Some? && field.value.value.Some? && HasNoFirst(field.value.value.value)
    ensures r.Failure? ==> r.error == IndexError
    ensures field.None? || field.value.value.None? ==> r == Success(NoValue)
    ensures field.Some? && field.value.value.Some? ==> var v := field.value.value.value;
      && (v.Choice? && |v.choiceNames| > 0 ==> r == Success(v.choiceNames[0]))
      && (v.CatalogItem? && |v.values| > 0 ==> r == Success(v.values[0]))
      && (v.Text? ==> r == Success(v.text))
      && (v.Int? ==> r == Success(IntToString(v.n)))
  {
    if field.None? || field.value.value.None? then Success(NoValue)
    else
      var v := field.value.value.value;
      match v
      case PersonValue(p) =>
        Success(if p.isRole then p.lastName else p.firstName + " " + p.lastName)
      case Choice(names, _) =>
        if |names| == 0 then Failure(IndexError) else Success(names[0])
      case CatalogItem(values, _) =>
        if |values| == 0 then Failure(IndexError) else Success(values[0])
      case _ => Success(Str(v))
  }

  /** The normalised text of an integer value reads back as that integer, so
      a range token compares the field's own number. */
  lemma PrepareValueOfInt(f: FormField, n: int)
    requires f.value == Some(Int(n))
    ensures PrepareValue(Some(f)).Success?
    ensures ParseInt(PrepareValue(Some(f)).value) == Some(n)
  {
    ParseIntToString(n);
  }

  /** A missing field or value never reads as an integer. */
  lemma PrepareValueAbsentNotInt(field: Option<FormField>)
    requires field.None? || field.value.value.None?
    ensures PrepareValue(field) == Success(NoValue)
    ensures ParseInt(NoValue).None?
  {
    var s := NoValue;
    assert s[0] == 'Н' && s[|s| - 1] == 'я';
    ParseIntNeedsDigit(s);
  }

  /** A string that starts with a letter does not read as an integer. */
  lemma ParseIntNeedsDigit(s: string)
    requires |s| > 0 && !IsSpace(s[0]) && !IsSpace(s[|s| - 1])
    requires !IsDigit(s[0]) && s[0] != '-' && s[0] != '+'
    ensures ParseInt(s).None?
  {
    StripFixpoint(s);
  }

  /** A person renders as its first and last name, a role as its name. */
  lemma PrepareValueOfPerson(f: FormField, p: Person)
    requires f.value == Some(PersonValue(p))
    ensures PrepareValue(Some(f)) == Success(if p.isRole then p.lastName else p.firstName + " " + p.lastName)
  {
  }

  // ---------------------------------------------------------------------------
  // prepare_registry_from_field

  /** The field types whose value produces a registry fragment. */
  predicate HasFragment(t: FieldType) {
    t.PersonType? || t.MultipleChoiceType? || t.TextType? || t.CatalogType? || t.StepType?
  }

  /** The key of a registry parameter: the type's prefix followed by the field
      id (`f'{key}{field.id}'`). */
  function FragmentKey(prefix: string, id: int): (k: string)
    ensures |k| > |prefix| && k[..|prefix|] == prefix
  {
    prefix + IntToString(id)
  }

  /** The one `(key, value)` pair a task field contributes to a registry
      link, if its type has one. */
  function FieldFragment(f: FormField): (r: Option<(string, string)>)
    requires WellTyped(f)
    ensures r.Some? <==> HasFragment(f.fieldType)
    ensures f.value.Some? ==> var v := f.value.value;
      && (f.fieldType.PersonType? ==> r == Some((FragmentKey("cid", f.id), IntToString(v.person.id))))
      && (f.fieldType.MultipleChoiceType? ==> r == Some((FragmentKey("mch", f.id), IntToString(v.choiceId))))
      && (f.fieldType.TextType? ==> r == Some((FragmentKey("str", f.id), v.text)))
      && (f.fieldType.CatalogType? ==> r == Some((FragmentKey("ctf", f.id), IntToString(v.itemId))))
      && (f.fieldType.StepType? ==> r == Some((FragmentKey("tst", f.id), IntToString(v.n))))
  {
    match f.fieldType
    case PersonType =>
      Some((FragmentKey("cid", f.id), if f.value.None? then "-1" else IntToString(f.value.value.person.id)))
    case MultipleChoiceType =>
      Some((FragmentKey("mch", f.id), if f.value.None? then "0" else IntToString(f.value.value.choiceId)))
    case TextType =>
      Some((FragmentKey("str", f.id), if f.value.None? then "" else f.value.value.text))
    case CatalogType =>
      Some((FragmentKey("ctf", f.id), if f.value.None? then "" else IntToString(f.value.value.itemId)))
    case StepType =>
      Some((FragmentKey("tst", f.id), if f.value.None? then "None" else IntToString(f.value.value.n)))
    case _ => None
  }

  /** `prepare_registry_from_field(field)`: the registry link fragment for a
      task field; `field.type` on a missing field raises AttributeError. */
  function PrepareRegistryFromField(field: Option<FormField>): (r: Result<string>)
    requires field.Some? ==> WellTyped(field.value)
    ensures r.Failure? <==> field.None?
    ensures r.Failure? ==> r.error == AttributeError
    ensures r.Success? ==> (r.value == "" <==> !HasFragment(field.value.fieldType))
  {
    if field.None? then Failure(AttributeError)
    else
      match FieldFragment(field.value)
      case Some(pair) => Success(Urlencode([pair]))
      case None => Success("")
  }

  /** An empty person field links to the registry of tasks without a contact
      (`cid<id>=-1`) and an empty catalog field to `ctf<id>=`. */
  lemma EmptyFieldFragments(f: FormField)
    requires f.value.None?
    ensures f.fieldType.PersonType? ==>
      PrepareRegistryFromField(Some(f)) == Success("cid" + IntToString(f.id) + "=-1")
    ensures f.fieldType.CatalogType? ==>
      PrepareRegistryFromField(Some(f)) == Success("ctf" + IntToString(f.id) + "=")
    ensures f.fieldType.MultipleChoiceType? ==>
      PrepareRegistryFromField(Some(f)) == Success("mch" + IntToString(f.id) + "=0")
  {
    var fr := FieldFragment(f);
    if fr.Some? {
      assert Urlencode([fr.value]) == fr.value.0 + "=" + fr.value.1;
      var k := IntToString(f.id);
      assert "cid" + k + "=" + "-1" == "cid" + k + "=-1";
      assert "ctf" + k + "=" + "" == "ctf" + k + "=";
      assert "mch" + k + "=" + "0" == "mch" + k + "=0";
    }
  }

  /** A field that holds a value links to the registry of tasks with that
      value: the person's id, the choice id, the text, the catalog item id
      or the step number. */
  lemma ValueFieldFragments(f: FormField)
    requires WellTyped(f) && f.value.Some?
    ensures var k := IntToString(f.id); var v := f.value.value;
      && (f.fieldType.PersonType? ==>
        PrepareRegistryFromField(Some(f)) == Success("cid" + k + "=" + IntToString(v.person.id)))
      && (f.fieldType.MultipleChoiceType? ==>
        PrepareRegistryFromField(Some(f)) == Success("mch" + k + "=" + IntToString(v.choiceId)))
      && (f.fieldType.TextType? ==>
        PrepareRegistryFromField(Some(f)) == Success("str" + k + "=" + v.text))
      && (f.fieldType.CatalogType? ==>
        PrepareRegistryFromField(Some(f)) == Success("ctf" + k + "=" + IntToString(v.itemId)))
      && (f.fieldType.StepType? ==>
        PrepareRegistryFromField(Some(f)) == Success("tst" + k + "=" + IntToString(v.n)))
  {
    var fr := FieldFragment(f);
    if fr.Some? {
      assert Urlencode([fr.value]) == fr.value.0 + "=" + fr.value.1;
    }
  }

  // ---------------------------------------------------------------------------
  // get_catalog_item

  /** An item that has a value at `pos` and that value is not `compareValue`:
      the scan moves past it. */
  predicate Misses(item: CatalogEntry, compareValue: string, pos: nat) {
    pos < |item.values| && item.values[pos] != compareValue
  }

  predicate AllMiss(items: seq<CatalogEntry>, compareValue: string, pos: nat) {
    forall j :: 0 <= j < |items| ==> Misses(items[j], compareValue, pos)
  }

  /** The loop of `get_catalog_item` over the items: the first item whose
      value at `pos` is `compareValue` gives its id, an item too short for
      `pos` raises IndexError, and -1 when every item misses. */
  function CatalogScan(items: seq<CatalogEntry>, compareValue: string, pos: nat): (r: Result<int>)
    ensures AllMiss(items, compareValue, pos) ==> r == Success(-1)
    ensures forall i :: 0 <= i < |items| && AllMiss(items[..i], compareValue, pos) ==>
      (pos < |items[i].values| && items[i].values[pos] == compareValue ==> r == Success(items[i].itemId))
      && (pos >= |items[i].values| ==> r == Failure(IndexError))
  {
    if |items| == 0 then Success(-1)
    else if pos >= |items[0].values| then Failure(IndexError)
    else if items[0].values[pos] == compareValue then Success(items[0].itemId)
    else
      var r := CatalogScan(items[1..], compareValue, pos);
      assert forall i :: 1 <= i < |items| && AllMiss(items[..i], compareValue, pos) ==>
        AllMiss(items[1..][..i - 1], compareValue, pos) by {
        forall i | 1 <= i < |items| && AllMiss(items[..i], compareValue, pos)
          ensures AllMiss(items[1..][..i - 1], compareValue, pos)
        {
          assert items[1..][..i - 1] == items[1..i];
        }
      }
      r
  }

  /** The item holds `compareValue` in column `pos` and has id `id`. */
  predicate Holds(item: CatalogEntry, compareValue: string, pos: nat, id: int) {
    pos < |item.values| && item.values[pos] == compareValue && item.itemId == id
  }

  /** `get_catalog_item(catalog, compare_value, pos)`: -1 when `pos` is not
      all digits, otherwise the scan at that position. */
  function GetCatalogItem(catalog: Catalog, compareValue: string, pos: string): (r: Result<int>)
    ensures !IsDigits(pos) ==> r == Success(-1)
    ensures r.Failure? ==> r.error == IndexError
    ensures r.Success? && r.value != -1 ==> IsDigits(pos)
    ensures r.Success? && r.value != -1 ==>
      exists i :: 0 <= i < |catalog.items| && Holds(catalog.items[i], compareValue, DigitsValue(pos), r.value)
  {
    if !IsDigits(pos) then Success(-1)
    else
      CatalogScanFound(catalog.items, compareValue, DigitsValue(pos));
      CatalogScan(catalog.items, compareValue, DigitsValue(pos))
  }

  lemma {:induction false} CatalogScanFound(items: seq<CatalogEntry>, compareValue: string, pos: nat)
    ensures var r := CatalogScan(items, compareValue, pos);
      r.Failure? ==> r.error == IndexError
    ensures var r := CatalogScan(items, compareValue, pos);
      r.Success? && r.value != -1 ==> exists i :: 0 <= i < |items| && Holds(items[i], compareValue, pos, r.value)
  {
    if |items| > 0 && pos < |items[0].values| && items[0].values[pos] != compareValue {
      CatalogScanFound(items[1..], compareValue, pos);
      var r := CatalogScan(items[1..], compareValue, pos);
      if r.Success? && r.value != -1 {
        var i :| 0 <= i < |items[1..]| && Holds(items[1..][i], compareValue, pos, r.value);
        assert items[i + 1] == items[1..][i];
      }
    }
  }

  // ---------------------------------------------------------------------------
  // unit_from_organization

  /** Where `unit_from_organization` looks: the `roles` or the `persons` of each
      organisation. */
  datatype Unit = Roles | Persons

  /** The name and id of each member of one organisation: a role by its
      name, a person by `'first last'`. */
  function Members(org: Organization, unit: Unit): (m: seq<(string, int)>)
    ensures unit.Roles? ==> |m| == |org.roles|
    ensures unit.Persons? ==> |m| == |org.persons|
    ensures unit.Roles? ==> forall i :: 0 <= i < |org.roles| ==> m[i] == (org.roles[i].name, org.roles[i].id)
    ensures unit.Persons? ==> forall i :: 0 <= i < |org.persons| ==>
      m[i] == (org.persons[i].firstName + " " + org.persons[i].lastName, org.persons[i].id)
  {
    match unit
    case Roles =>
      seq(|org.roles|, i requires 0 <= i < |org.roles| => (org.roles[i].name, org.roles[i].id))
    case Persons =>
      seq(|org.persons|, i requires 0 <= i < |org.persons| =>
        (org.persons[i].firstName + " " + org.persons[i].lastName, org.persons[i].id))
  }

  /** The members of all organisations, organisation by organisation. */
  function Units(orgs: seq<Organization>, unit: Unit): seq<(string, int)>
  {
    if |orgs| == 0 then [] else Members(orgs[0], unit) + Units(orgs[1..], unit)
  }

  predicate NoLabel(entries: seq<(string, int)>, name: string) {
    forall j :: 0 <= j < |entries| ==> entries[j].0 != name
  }

  /** The id of the first entry labelled `label`, or -1. */
  function FirstId(entries: seq<(string, int)>, name: string): (r: int)
    ensures NoLabel(entries, name) ==> r == -1
    ensures forall i :: 0 <= i < |entries| && entries[i].0 == name && NoLabel(entries[..i], name) ==>
      r == entries[i].1
  {
    if |entries| == 0 then -1
    else if entries[0].0 == name then entries[0].1
    else
      assert forall i :: 1 <= i < |entries| && NoLabel(entries[..i], name) ==>
        NoLabel(entries[1..][..i - 1], name) by {
        forall i | 1 <= i < |entries| && NoLabel(entries[..i], name)
          ensures NoLabel(entries[1..][..i - 1], name)
        {
          assert entries[1..][..i - 1] == entries[1..i];
        }
      }
      FirstId(entries[1..], name)
  }

  /** `unit_from_organization(orgs, unit, value)`: the id of the first role
      (or person) labelled `value`, organisations scanned in order; -1 when
      none is. */
  function UnitFromOrganization(orgs: seq<Organization>, unit: Unit, value: string): (r: int)
    ensures NoLabel(Units(orgs, unit), value) ==> r == -1
    ensures r != -1 ==> (exists i :: 0 <= i < |Units(orgs, unit)| && Units(orgs, unit)[i] == (value, r))
  {
    FirstIdFound(Units(orgs, unit), value);
    FirstId(Units(orgs, unit), value)
  }

  lemma {:induction false} FirstIdFound(entries: seq<(string, int)>, name: string)
    ensures FirstId(entries, name) != -1 ==>
      exists i :: 0 <= i < |entries| && entries[i] == (name, FirstId(entries, name))
  {
    if |entries| > 0 && entries[0].0 != name {
      FirstIdFound(entries[1..], name);
      if FirstId(entries, name) != -1 {
        var i :| 0 <= i < |entries[1..]| && entries[1..][i] == (name, FirstId(entries, name));
        assert entries[i + 1] == entries[1..][i];
      }
    }
  }

  /** A match in an earlier organisation wins over any match in a later one. */
  lemma UnitFromOrganizationEarlierWins(org: Organization, rest: seq<Organization>, unit: Unit, value: string)
    requires !NoLabel(Members(org, unit), value)
    ensures UnitFromOrganization([org] + rest, unit, value) == FirstId(Members(org, unit), value)
  {
    var m := Members(org, unit);
    assert Units([org] + rest, unit) == m + Units(rest, unit) by {
      assert ([org] + rest)[1..] == rest;
    }
    var i :| 0 <= i < |m| && m[i].0 == value;
    FirstIdPrefix(m, Units(rest, unit), value, i);
  }

  lemma {:induction false} FirstIdPrefix(m: seq<(string, int)>, t: seq<(string, int)>, name: string, i: int)
    requires 0 <= i < |m| && m[i].0 == name
    ensures FirstId(m + t, name) == FirstId(m, name)
  {
    if m[0].0 != name {
      assert (m + t)[1..] == m[1..] + t;
      FirstIdPrefix(m[1..], t, name, i - 1);
    }
  }

  // ---------------------------------------------------------------------------
  // prepare_registry_from_form

  /** The choice id of the first option whose text is `value`. */
  function FirstChoiceId(options: seq<ChoiceOption>, value: string): (r: Option<int>)
    ensures r.Some? ==> exists i :: 0 <= i < |options| && options[i] == ChoiceOption(r.value, value)
    ensures r.None? ==> forall i :: 0 <= i < |options| ==> options[i].choiceValue != value
  {
    if |options| == 0 then None
    else if options[0].choiceValue == value then Some(options[0].choiceId)
    else
      var r := FirstChoiceId(options[1..], value);
      assert r.Some? ==> exists i :: 0 <= i < |options| && options[i] == ChoiceOption(r.value, value) by {
        if r.Some? {
          var i :| 0 <= i < |options[1..]| && options[1..][i] == ChoiceOption(r.value, value);
          assert options[i + 1] == options[1..][i];
        }
      }
      r
  }

  /** The pair a literal typed by a user contributes to a registry link when
      it matches nothing: the caller skips an empty key. */
  const NoMatch: (string, string) := ("", "")

  /** `value.split(',')` padded with the default position `'0'`; the stripped
      pieces the source computes are discarded, so the pieces keep their
      spaces. */
  function CatalogQuery(value: string): (r: seq<string>)
    ensures |r| >= 2
    ensures ',' !in value ==> r == [value, "0"]
    ensures ',' in value ==> Join(r, ',') == value
    ensures forall i :: 0 <= i < |r| ==> ',' !in r[i]
  {
    var parts := Split(value, ',');
    SplitPieces(value, ',');
    JoinSplit(value, ',');
    if |parts| == 1 then parts + ["0"] else parts
  }

  /** A string splits into one piece, itself, exactly when it does not hold
      the separator. */
  lemma SplitPieces(s: string, c: char)
    ensures |Split(s, c)| == 1 <==> c !in s
    ensures c !in s ==> Split(s, c) == [s]
  {
    if c in s {
      SplitWithSeparator(s, c);
    } else {
      SplitNoSeparator(s, c);
    }
  }

  /** The catalog branch: fetch the field's catalog, unpack the literal into
      a compared value and a position (ValueError when it has more than two
      pieces) and look the item up. */
  function CatalogLookup(field: FormField, value: string, dir: Directory): (r: Result<int>)
    ensures r == Failure(ApiError) <==> field.info.catalogId !in dir.catalogs
    ensures r == Failure(ValueError) <==> field.info.catalogId in dir.catalogs && |CatalogQuery(value)| != 2
    ensures r.Failure? ==> r.error == ApiError || r.error == ValueError || r.error == IndexError
    ensures r.Success? ==> field.info.catalogId in dir.catalogs && |CatalogQuery(value)| == 2
    ensures r.Success? && r.value != -1 ==> var q := CatalogQuery(value);
      && IsDigits(q[1])
      && (exists i :: 0 <= i < |dir.catalogs[field.info.catalogId].items| &&
            Holds(dir.catalogs[field.info.catalogId].items[i], q[0], DigitsValue(q[1]), r.value))
    ensures field.info.catalogId in dir.catalogs && |CatalogQuery(value)| == 2 ==> var q := CatalogQuery(value);
      (!IsDigits(q[1]) || AllMiss(dir.catalogs[field.info.catalogId].items, q[0], DigitsValue(q[1]))) ==> r == Success(-1)
  {
    if field.info.catalogId !in dir.catalogs then Failure(ApiError)
    else
      var query := CatalogQuery(value);
      if |query| != 2 then Failure(ValueError)
      else GetCatalogItem(dir.catalogs[field.info.catalogId], query[0], query[1])
  }

  /** The prefix `prepare_registry_from_form` gives the key of each field
      type; the types without one key on the bare field id. */
  function FormPrefix(t: FieldType): string
  {
    match t
    case TextType => "str"
    case MultipleChoiceType => "mch"
    case PersonType => "cid"
    case CatalogType => "ctf"
    case CheckmarkType => "chk"
    case StepType => "tst"
    case _ => ""
  }

  /** `prepare_registry_from_form(field, value, client)`: the registry
      parameter that selects the tasks whose field `field` holds the literal
      `value`. */
  function PrepareRegistryFromForm(field: FormField, value: string, dir: Directory): (r: Result<(string, string)>)
    ensures r.Failure? ==> field.fieldType.CatalogType?
    ensures r.Success? && r.value.0 == "" ==> (r.value == NoMatch
      && (field.fieldType.MultipleChoiceType? || field.fieldType.PersonType? || field.fieldType.CatalogType?))
    ensures r.Success? && r.value.0 != "" ==> r.value.0 == FragmentKey(FormPrefix(field.fieldType), field.id)
  {
    var key := FragmentKey(FormPrefix(field.fieldType), field.id);
    match field.fieldType
    case TextType => Success((key, value))
    case MultipleChoiceType =>
      (match FirstChoiceId(field.info.options, value)
       case None => Success(NoMatch)
       case Some(c) => Success((key, IntToString(c))))
    case PersonType =>
      var role := UnitFromOrganization(dir.organizations, Roles, value);
      var person := UnitFromOrganization(dir.organizations, Persons, value);
      if role == -1 && person == -1 then Success(NoMatch)
      else Success((key, IntToString(if role != -1 then role else person)))
    case CatalogType =>
      var item :- CatalogLookup(field, value, dir);
      if item == -1 then Success(NoMatch) else Success((key, IntToString(item)))
    case CheckmarkType => Success((key, if value == "checked" then "true" else "false"))
    case _ => Success((key, ""))
  }

  /** A literal that matches nothing gives the empty pair: a choice text no
      option carries, a name no role and no person has, or a catalog value
      no item holds at the requested position. */
  lemma UnmatchedLiteral(field: FormField, value: string, dir: Directory)
    ensures (field.fieldType.MultipleChoiceType? &&
             forall i :: 0 <= i < |field.info.options| ==> field.info.options[i].choiceValue != value) ==>
      PrepareRegistryFromForm(field, value, dir) == Success(NoMatch)
    ensures (field.fieldType.PersonType? &&
             NoLabel(Units(dir.organizations, Roles), value) && NoLabel(Units(dir.organizations, Persons), value)) ==>
      PrepareRegistryFromForm(field, value, dir) == Success(NoMatch)
    ensures (field.fieldType.CatalogType? && field.info.catalogId in dir.catalogs && ',' !in value &&
             AllMiss(dir.catalogs[field.info.catalogId].items, value, 0)) ==>
      PrepareRegistryFromForm(field, value, dir) == Success(NoMatch)
  {
    if field.fieldType.CatalogType? && ',' !in value {
      assert CatalogQuery(value) == [value, "0"];
      assert IsDigits("0") && DigitsValue("0") == 0 by {
        DigitsOfNat(0);
      }
    }
  }

  /** A text literal is used as it is, and a step field keys on its id with
      an empty value. */
  lemma TextStepLiteral(field: FormField, value: string, dir: Directory)
    ensures field.fieldType.TextType? ==>
      PrepareRegistryFromForm(field, value, dir) == Success(("str" + IntToString(field.id), value))
    ensures field.fieldType.StepType? ==>
      PrepareRegistryFromForm(field, value, dir) == Success(("tst" + IntToString(field.id), ""))
  {
  }

  /** A choice literal selects the first option with that text. */
  lemma MatchedChoice(field: FormField, value: string, dir: Directory, k: int)
    requires field.fieldType.MultipleChoiceType?
    requires 0 <= k < |field.info.options| && field.info.options[k].choiceValue == value
    requires forall j :: 0 <= j < k ==> field.info.options[j].choiceValue != value
    ensures PrepareRegistryFromForm(field, value, dir) ==
      Success(("mch" + IntToString(field.id), IntToString(field.info.options[k].choiceId)))
  {
    FirstChoiceIdAt(field.info.options, value, k);
  }

  /** A name no role has selects the first person with that name. */
  lemma MatchedPerson(field: FormField, value: string, dir: Directory)
    requires field.fieldType.PersonType? && NoLabel(Units(dir.organizations, Roles), value)
    requires UnitFromOrganization(dir.organizations, Persons, value) != -1
    ensures PrepareRegistryFromForm(field, value, dir) ==
      Success(("cid" + IntToString(field.id), IntToString(UnitFromOrganization(dir.organizations, Persons, value))))
  {
  }

  /** A catalog literal without a position selects the first item whose first
      value it is (an item whose id is -1 reads as no match). */
  lemma MatchedCatalog(field: FormField, value: string, dir: Directory, i: int)
    requires field.fieldType.CatalogType? && field.info.catalogId in dir.catalogs && ',' !in value
    requires 0 <= i < |dir.catalogs[field.info.catalogId].items|
    requires var items := dir.catalogs[field.info.catalogId].items;
      Holds(items[i], value, 0, items[i].itemId) && AllMiss(items[..i], value, 0) && items[i].itemId != -1
    ensures PrepareRegistryFromForm(field, value, dir) ==
      Success(("ctf" + IntToString(field.id), IntToString(dir.catalogs[field.info.catalogId].items[i].itemId)))
  {
    var items := dir.catalogs[field.info.catalogId].items;
    assert CatalogQuery(value) == [value, "0"];
    assert IsDigits("0") && DigitsValue("0") == 0 by {
      DigitsOfNat(0);
    }
    assert CatalogScan(items, value, 0) == Success(items[i].itemId);
    assert CatalogLookup(field, value, dir) == Success(items[i].itemId);
  }

  /** A role named like the literal is preferred over a person with that
      name. */
  lemma RolePreferred(field: FormField, value: string, dir: Directory)
    requires field.fieldType.PersonType?
    requires UnitFromOrganization(dir.organizations, Roles, value) != -1
    ensures PrepareRegistryFromForm(field, value, dir)
      == Success(("cid" + IntToString(field.id), IntToString(UnitFromOrganization(dir.organizations, Roles, value))))
  {
  }

  /** Only the literal `checked` selects ticked checkmarks. */
  lemma CheckmarkLiteral(field: FormField, value: string, dir: Directory)
    requires field.fieldType.CheckmarkType?
    ensures PrepareRegistryFromForm(field, value, dir).Success?
    ensures PrepareRegistryFromForm(field, value, dir).value.1 == "true" <==> value == "checked"
  {
  }

  /** The literal of a text field gives the same fragment as a task whose
      field holds that text. */
  lemma TextFragmentsAgree(field: FormField, s: string, dir: Directory)
    requires field.fieldType.TextType? && field.value == Some(Text(s))
    ensures PrepareRegistryFromForm(field, s, dir).Success?
    ensures PrepareRegistryFromField(Some(field)) == Success(Urlencode([PrepareRegistryFromForm(field, s, dir).value]))
  {
  }

  /** The option text of a multiple-choice field gives the same fragment as a
      task that chose that option, when the option text is not shared with an
      earlier option. */
  lemma ChoiceFragmentsAgree(field: FormField, k: int, dir: Directory)
    requires field.fieldType.MultipleChoiceType?
    requires 0 <= k < |field.info.options|
    requires forall j :: 0 <= j < k ==> field.info.options[j].choiceValue != field.info.options[k].choiceValue
    requires field.value.Some? && field.value.value.Choice?
    requires field.value.value.choiceId == field.info.options[k].choiceId
    ensures PrepareRegistryFromForm(field, field.info.options[k].choiceValue, dir).Success?
    ensures PrepareRegistryFromField(Some(field))
      == Success(Urlencode([PrepareRegistryFromForm(field, field.info.options[k].choiceValue, dir).value]))
  {
    FirstChoiceIdAt(field.info.options, field.info.options[k].choiceValue, k);
  }

  lemma {:induction false} FirstChoiceIdAt(options: seq<ChoiceOption>, value: string, k: int)
    requires 0 <= k < |options| && options[k].choiceValue == value
    requires forall j :: 0 <= j < k ==> options[j].choiceValue != value
    ensures FirstChoiceId(options, value) == Some(options[k].choiceId)
  {
    if k > 0 {
      FirstChoiceIdAt(options[1..], value, k - 1);
    }
  }

  /** The name of a person, typed as the literal, gives the same fragment as
      a task whose field holds that person, when no role carries the name and
      the person is the first one with it. */
  lemma PersonFragmentsAgree(field: FormField, p: Person, dir: Directory)
    requires field.fieldType.PersonType? && field.value == Some(PersonValue(p))
    requires NoLabel(Units(dir.organizations, Roles), p.firstName + " " + p.lastName)
    requires UnitFromOrganization(dir.organizations, Persons, p.firstName + " " + p.lastName) == p.id
    requires p.id != -1
    ensures PrepareRegistryFromForm(field, p.firstName + " " + p.lastName, dir).Success?
    ensures PrepareRegistryFromField(Some(field))
      == Success(Urlencode([PrepareRegistryFromForm(field, p.firstName + " " + p.lastName, dir).value]))
  {
  }

  /** The pieces of a catalog literal are not trimmed: `x, 1` looks for the
      position ` 1`, which is not all digits, so nothing is found. */
  lemma CatalogLiteralNotTrimmed(field: FormField, x: string, dir: Directory)
    requires field.fieldType.CatalogType? && field.info.catalogId in dir.catalogs
    requires ',' !in x
    ensures PrepareRegistryFromForm(field, x + ", 1", dir) == Success(NoMatch)
  {
    SplitConcat(x, " 1", ',');
    SplitNoSeparator(x, ',');
    SplitNoSeparator(" 1", ',');
    assert x + ", 1" == x + [','] + " 1";
    assert !IsDigits(" 1") by {
      assert !IsDigit(" 1"[0]);
    }
  }

  // ---------------------------------------------------------------------------
  // filter_tasks

  /** The normalised value of the task's field `fieldId`. */
  function TaskValue(t: Task, fieldId: Option<int>): Result<string>
  {
    PrepareValue(ObjectById(t.fields, fieldId))
  }

  /** The task's value is exactly `token`. */
  predicate IsExact(t: Task, token: string, fieldId: Option<int>) {
    TaskValue(t, fieldId) == Success(token)
  }

  /** The task's value reads as an integer between `lo` and `hi`, both
      included. */
  predicate InRange(t: Task, lo: int, hi: int, fieldId: Option<int>) {
    var v := TaskValue(t, fieldId);
    v.Success? && ParseInt(v.value).Some? && lo <= ParseInt(v.value).value <= hi
  }

  /** The condition of the exact-token comprehension for one task. */
  function ExactTest(t: Task, token: string, fieldId: Option<int>): (r: Result<bool>)
    ensures r.Failure? <==> TaskValue(t, fieldId).Failure?
    ensures r == Success(true) <==> IsExact(t, token, fieldId)
  {
    var v :- TaskValue(t, fieldId);
    Success(v == token)
  }

  /** The condition of the range comprehension for one task: `int()` reads
      the task's value, then the bounds (`bounds` is None when either bound
      does not read), and raises ValueError on the first that does not. */
  function RangeTest(t: Task, bounds: Option<(int, int)>, fieldId: Option<int>): (r: Result<bool>)
    ensures r.Failure? <==>
      (TaskValue(t, fieldId).Failure? || ParseInt(TaskValue(t, fieldId).value).None? || bounds.None?)
    ensures r == Success(true) <==> bounds.Some? && InRange(t, bounds.value.0, bounds.value.1, fieldId)
  {
    var v :- TaskValue(t, fieldId);
    match (ParseInt(v), bounds)
    case (Some(n), Some((lo, hi))) => Success(lo <= n <= hi)
    case _ => Failure(ValueError)
  }

  /** `[t for t in tasks if test(t)]`: the tasks that pass, in order; the
      first test that raises aborts the comprehension. */
  function KeepWhere(tasks: seq<Task>, test: Task -> Result<bool>): (r: Result<seq<Task>>)
    ensures r.Failure? <==> exists i :: 0 <= i < |tasks| && test(tasks[i]).Failure?
    ensures r.Success? ==> |r.value| <= |tasks|
    ensures r.Success? ==> forall t :: t in r.value ==> t in tasks && test(t) == Success(true)
    ensures r.Success? ==> forall i :: 0 <= i < |tasks| && test(tasks[i]) == Success(true) ==>
      tasks[i] in r.value
  {
    if |tasks| == 0 then Success([])
    else
      var keep :- test(tasks[0]);
      var rest := KeepWhere(tasks[1..], test);
      assert forall i :: 1 <= i < |tasks| ==> tasks[i] == tasks[1..][i - 1];
      if rest.Failure? then rest
      else
        var r := (if keep then [tasks[0]] else []) + rest.value;
        assert forall t :: t in r ==> t == tasks[0] || t in rest.value;
        Success(r)
  }

  /** A task that passes is kept as many times as it occurs, one that does
      not is dropped. */
  lemma {:induction false} KeepWhereCounts(tasks: seq<Task>, test: Task -> Result<bool>)
    requires KeepWhere(tasks, test).Success?
    ensures forall i :: 0 <= i < |tasks| ==>
      multiset(KeepWhere(tasks, test).value)[tasks[i]] ==
        if test(tasks[i]) == Success(true) then multiset(tasks)[tasks[i]] else 0
  {
    if |tasks| > 0 {
      var keep := test(tasks[0]).value;
      KeepWhereCounts(tasks[1..], test);
      assert tasks == [tasks[0]] + tasks[1..];
      KeepWhereCount(tasks[0], tasks[1..], test, keep, KeepWhere(tasks[1..], test).value);
    }
  }

  /** The multiplicities of one step of `KeepWhere`: the head is kept when it
      passes, and the rest already has the right counts. */
  lemma KeepWhereCount(head: Task, tail: seq<Task>, test: Task -> Result<bool>, keep: bool, rest: seq<Task>)
    requires test(head) == Success(keep)
    requires forall t :: t in rest ==> t in tail
    requires forall i :: 0 <= i < |tail| ==>
      multiset(rest)[tail[i]] == if test(tail[i]) == Success(true) then multiset(tail)[tail[i]] else 0
    ensures forall i :: 0 <= i < |[head] + tail| ==>
      multiset((if keep then [head] else []) + rest)[([head] + tail)[i]] ==
        if test(([head] + tail)[i]) == Success(true) then multiset([head] + tail)[([head] + tail)[i]] else 0
  {
    var h: seq<Task> := if keep then [head] else [];
    var tasks := [head] + tail;
    forall i | 0 <= i < |tasks|
      ensures multiset(h + rest)[tasks[i]] == if test(tasks[i]) == Success(true) then multiset(tasks)[tasks[i]] else 0
    {
      var t := tasks[i];
      assert multiset(h + rest)[t] == multiset(h)[t] + multiset(rest)[t];
      assert multiset(tasks)[t] == multiset([head])[t] + multiset(tail)[t];
      if t in tail {
        var j :| 0 <= j < |tail| && tail[j] == t;
        assert multiset(rest)[t] == if test(t) == Success(true) then multiset(tail)[t] else 0;
      } else {
        assert t !in rest;
        assert multiset(tail)[t] == 0 && multiset(rest)[t] == 0;
      }
    }
  }

  lemma AppendAssoc<T>(a: seq<T>, b: seq<T>, c: seq<T>)
    ensures (a + b) + c == a + (b + c)
  {
  }

  /** Keeping the tasks of `a + b` keeps those of `a`, then those of `b`;
      a raising test in `a` comes first. */
  lemma {:induction false} KeepWhereAppend(a: seq<Task>, b: seq<Task>, test: Task -> Result<bool>)
    ensures KeepWhere(a + b, test) ==
      (match (KeepWhere(a, test), KeepWhere(b, test))
       case (Success(x), Success(y)) => Success(x + y)
       case (Failure(e), _) => Failure(e)
       case (_, Failure(e)) => Failure(e))
  {
    if |a| == 0 {
      assert a + b == b;
      var y := KeepWhere(b, test);
      if y.Success? {
        assert [] + y.value == y.value;
      }
    } else {
      assert (a + b)[0] == a[0] && (a + b)[1..] == a[1..] + b;
      KeepWhereAppend(a[1..], b, test);
      var x := KeepWhere(a[1..], test);
      var y := KeepWhere(b, test);
      var t := test(a[0]);
      if t.Success? && x.Success? && y.Success? {
        var h: seq<Task> := if t.value then [a[0]] else [];
        AppendAssoc(h, x.value, y.value);
      }
    }
  }

  /** The two bounds of a range token, when both read as integers. */
  function Bounds(start: string, end: string): Option<(int, int)>
  {
    match (ParseInt(start), ParseInt(end))
    case (Some(lo), Some(hi)) => Some((lo, hi))
    case _ => None
  }

  /** The tasks one trimmed token selects: a token with a `-` is a range whose
      two trimmed ends are the bounds (any other number of pieces fails to
      unpack), any other token an exact value. */
  function TokenMatches(tasks: seq<Task>, token: string, fieldId: Option<int>): (r: Result<seq<Task>>)
    ensures r.Success? ==> forall t :: t in r.value ==> t in tasks
  {
    if '-' in token then
      var ends := StripAll(Split(token, '-'));
      if |ends| != 2 then Failure(ValueError)
      else KeepWhere(tasks, t => RangeTest(t, Bounds(ends[0], ends[1]), fieldId))
    else KeepWhere(tasks, t => ExactTest(t, token, fieldId))
  }

  /** The matches of each token, concatenated in token order; the first
      token that raises aborts. */
  function Concatenated(tokens: seq<string>, matches: string -> Result<seq<Task>>): Result<seq<Task>>
  {
    if |tokens| == 0 then Success([])
    else
      var acc :- Concatenated(tokens[..|tokens| - 1], matches);
      var m :- matches(tokens[|tokens| - 1]);
      Success(acc + m)
  }

  /** When every token selects only tasks of `tasks`, so do all of them. */
  lemma {:induction false} ConcatenatedWithin(tokens: seq<string>, matches: string -> Result<seq<Task>>, tasks: seq<Task>)
    requires forall tok :: matches(tok).Success? ==> forall t :: t in matches(tok).value ==> t in tasks
    ensures Concatenated(tokens, matches).Success? ==>
      forall t :: t in Concatenated(tokens, matches).value ==> t in tasks
  {
    if |tokens| > 0 {
      ConcatenatedWithin(tokens[..|tokens| - 1], matches, tasks);
    }
  }

  /** The tokens of `p + q` select what `p` selects followed by what `q`
      selects; a failure in `p` comes first. */
  lemma {:induction false} ConcatenatedAppend(p: seq<string>, q: seq<string>, matches: string -> Result<seq<Task>>)
    ensures Concatenated(p + q, matches) ==
      (match (Concatenated(p, matches), Concatenated(q, matches))
       case (Success(x), Success(y)) => Success(x + y)
       case (Failure(e), _) => Failure(e)
       case (_, Failure(e)) => Failure(e))
  {
    if |q| == 0 {
      assert p + q == p;
      var x := Concatenated(p, matches);
      if x.Success? {
        assert x.value + [] == x.value;
      }
    } else {
      var n := |q| - 1;
      var pq := p + q;
      assert pq[..|pq| - 1] == p + q[..n];
      assert pq[|pq| - 1] == q[n];
      ConcatenatedAppend(p, q[..n], matches);
      var x := Concatenated(p, matches);
      var front := Concatenated(q[..n], matches);
      var m := matches(q[n]);
      if x.Success? && front.Success? && m.Success? {
        assert x.value + front.value + m.value == x.value + (front.value + m.value);
      }
    }
  }

  /** One more token: its matches follow those of the tokens before it. */
  lemma ConcatenatedStep(tokens: seq<string>, i: nat, matches: string -> Result<seq<Task>>, acc: seq<Task>)
    requires i < |tokens| && Concatenated(tokens[..i], matches) == Success(acc)
    ensures Concatenated(tokens[..i + 1], matches) ==
      (match matches(tokens[i])
       case Success(m) => Success(acc + m)
       case Failure(e) => Failure(e))
  {
    assert tokens[..i + 1][..i] == tokens[..i];
  }

  /** A token that raises ends the concatenation with its error. */
  lemma {:induction false} ConcatenatedPrefixFailure(tokens: seq<string>, n: nat, matches: string -> Result<seq<Task>>)
    requires n <= |tokens| && Concatenated(tokens[..n], matches).Failure?
    ensures Concatenated(tokens, matches) == Concatenated(tokens[..n], matches)
    decreases |tokens|
  {
    if n < |tokens| {
      var front := tokens[..|tokens| - 1];
      assert front[..n] == tokens[..n];
      ConcatenatedPrefixFailure(front, n, matches);
    } else {
      assert tokens[..n] == tokens;
    }
  }

  /** The selection of one trimmed token, as a function value. */
  function TokenMatcher(tasks: seq<Task>, fieldId: Option<int>): string -> Result<seq<Task>>
  {
    token => TokenMatches(tasks, token, fieldId)
  }

  /** What `filter_tasks(tasks, value, field_id)` returns: the matches of the
      trimmed comma-separated tokens of `value`, concatenated; every task it
      returns is one of `tasks`. */
  function Filtered(tasks: seq<Task>, value: string, fieldId: Option<int>): (r: Result<seq<Task>>)
    ensures r.Success? ==> forall t :: t in r.value ==> t in tasks
  {
    ConcatenatedWithin(StripAll(Split(value, ',')), TokenMatcher(tasks, fieldId), tasks);
    Concatenated(StripAll(Split(value, ',')), TokenMatcher(tasks, fieldId))
  }

  /** The loop of `filter_tasks`: for each token in order, the tasks it
      selects are appended; the first token that raises aborts the loop. */
  method ConcatenateMatches(tokens: seq<string>, matches: string -> Result<seq<Task>>) returns (r: Result<seq<Task>>)
    ensures r == Concatenated(tokens, matches)
  {
    var acc: seq<Task> := [];
    var i := 0;
    while i < |tokens|
      invariant 0 <= i <= |tokens|
      invariant Concatenated(tokens[..i], matches) == Success(acc)
    {
      ConcatenatedStep(tokens, i, matches, acc);
      var m := matches(tokens[i]);
      if m.Failure? {
        ConcatenatedPrefixFailure(tokens, i + 1, matches);
        return Failure(m.error);
      }
      acc := acc + m.value;
      i := i + 1;
    }
    assert tokens[..i] == tokens;
    return Success(acc);
  }

  /** `filter_tasks(tasks, value, field_id)`: the value is split at commas
      and trimmed, and each token's selection is appended in order. */
  method FilterTasks(tasks: seq<Task>, value: string, fieldId: Option<int>) returns (r: Result<seq<Task>>)
    ensures r == Filtered(tasks, value, fieldId)
  {
    var tokens := StripAll(Split(value, ','));
    r := ConcatenateMatches(tokens, TokenMatcher(tasks, fieldId));
  }

  /** Filtering by `a,b` selects the tasks `a` selects followed by those `b`
      selects; a failure of either fails the whole. */
  lemma FilteredConcat(tasks: seq<Task>, a: string, b: string, fieldId: Option<int>)
    ensures Filtered(tasks, a + "," + b, fieldId) ==
      (match (Filtered(tasks, a, fieldId), Filtered(tasks, b, fieldId))
       case (Success(x), Success(y)) => Success(x + y)
       case (Failure(e), _) => Failure(e)
       case (_, Failure(e)) => Failure(e))
  {
    assert a + "," + b == a + [','] + b;
    SplitConcat(a, b, ',');
    StripAllConcat(Split(a, ','), Split(b, ','));
    ConcatenatedAppend(StripAll(Split(a, ',')), StripAll(Split(b, ',')), TokenMatcher(tasks, fieldId));
  }

  /** A value without commas is one token: the value, trimmed. */
  lemma FilteredOneToken(tasks: seq<Task>, value: string, fieldId: Option<int>)
    requires ',' !in value
    ensures Filtered(tasks, value, fieldId) == TokenMatches(tasks, Strip(value), fieldId)
  {
    SplitNoSeparator(value, ',');
    assert StripAll([value]) == [Strip(value)];
    assert [Strip(value)][..0] == [];
    var m := TokenMatches(tasks, Strip(value), fieldId);
    assert Concatenated([Strip(value)], TokenMatcher(tasks, fieldId)) ==
      (if m.Failure? then Failure(m.error) else Success([] + m.value));
    if m.Success? {
      assert [] + m.value == m.value;
    }
  }

  /** A value without commas and dashes selects exactly the tasks whose
      normalised value is the trimmed value, and fails only where a value
      cannot be normalised. */
  lemma FilteredExact(tasks: seq<Task>, value: string, fieldId: Option<int>)
    requires ',' !in value && '-' !in Strip(value)
    ensures Filtered(tasks, value, fieldId).Failure? <==>
      exists i :: 0 <= i < |tasks| && TaskValue(tasks[i], fieldId).Failure?
    ensures Filtered(tasks, value, fieldId).Success? ==> forall t :: t in Filtered(tasks, value, fieldId).value ==>
      t in tasks && IsExact(t, Strip(value), fieldId)
    ensures Filtered(tasks, value, fieldId).Success? ==>
      forall i :: 0 <= i < |tasks| && IsExact(tasks[i], Strip(value), fieldId) ==>
        tasks[i] in Filtered(tasks, value, fieldId).value
    ensures Filtered(tasks, value, fieldId).Success? ==> forall i :: 0 <= i < |tasks| ==>
      multiset(Filtered(tasks, value, fieldId).value)[tasks[i]] ==
        if IsExact(tasks[i], Strip(value), fieldId) then multiset(tasks)[tasks[i]] else 0
    ensures Filtered(tasks, value, fieldId) == KeepWhere(tasks, t => ExactTest(t, Strip(value), fieldId))
  {
    FilteredOneToken(tasks, value, fieldId);
    var test := (t: Task) => ExactTest(t, Strip(value), fieldId);
    assert TokenMatches(tasks, Strip(value), fieldId) == KeepWhere(tasks, test);
    assert forall t :: test(t) == ExactTest(t, Strip(value), fieldId);
    if KeepWhere(tasks, test).Success? {
      KeepWhereCounts(tasks, test);
    }
  }

  /** A value `x-y` selects exactly the tasks whose value reads as an integer
      between the bounds `x` and `y`; with at least one task both bounds must
      read as integers. */
  lemma FilteredRange(tasks: seq<Task>, x: string, y: string, fieldId: Option<int>)
    requires ',' !in x && ',' !in y && '-' !in x && '-' !in y
    requires |x| > 0 && |y| > 0 && !IsSpace(x[0]) && !IsSpace(y[|y| - 1])
    requires Filtered(tasks, x + "-" + y, fieldId).Success?
    ensures |tasks| > 0 ==> Bounds(Strip(x), Strip(y)).Some?
    ensures Bounds(Strip(x), Strip(y)).Some? ==>
      var (lo, hi) := Bounds(Strip(x), Strip(y)).value;
      var r := Filtered(tasks, x + "-" + y, fieldId).value;
      (forall t :: t in r ==> t in tasks && InRange(t, lo, hi, fieldId))
      && (forall i :: 0 <= i < |tasks| && InRange(tasks[i], lo, hi, fieldId) ==> tasks[i] in r)
  {
    FilteredRangeKeep(tasks, x, y, fieldId);
    var test := t => RangeTest(t, Bounds(Strip(x), Strip(y)), fieldId);
    if |tasks| > 0 {
      assert !test(tasks[0]).Failure?;
    }
  }

  /** A value `x-y` is the one range token with the trimmed ends as bounds:
      it keeps the tasks in range in the order of `tasks`. */
  lemma FilteredRangeKeep(tasks: seq<Task>, x: string, y: string, fieldId: Option<int>)
    requires ',' !in x && ',' !in y && '-' !in x && '-' !in y
    requires |x| > 0 && |y| > 0 && !IsSpace(x[0]) && !IsSpace(y[|y| - 1])
    ensures Filtered(tasks, x + "-" + y, fieldId) == KeepWhere(tasks, t => RangeTest(t, Bounds(Strip(x), Strip(y)), fieldId))
  {
    var v := x + "-" + y;
    RangeTokenSplits(x, y);
    FilteredOneToken(tasks, v, fieldId);
  }

  /** A value `lo-hi` keeps each task in range as many times as it occurs,
      in the order of `tasks`, so the length of the result is the count of
      tasks in range. */
  lemma FilteredRangeCounts(tasks: seq<Task>, x: string, y: string, fieldId: Option<int>, lo: int, hi: int)
    requires ',' !in x && ',' !in y && '-' !in x && '-' !in y
    requires |x| > 0 && |y| > 0 && !IsSpace(x[0]) && !IsSpace(y[|y| - 1])
    requires Filtered(tasks, x + "-" + y, fieldId).Success?
    requires Bounds(Strip(x), Strip(y)) == Some((lo, hi))
    ensures forall i :: 0 <= i < |tasks| ==>
      multiset(Filtered(tasks, x + "-" + y, fieldId).value)[tasks[i]] ==
        if InRange(tasks[i], lo, hi, fieldId) then multiset(tasks)[tasks[i]] else 0
  {
    FilteredRangeKeep(tasks, x, y, fieldId);
    var test := t => RangeTest(t, Bounds(Strip(x), Strip(y)), fieldId);
    assert Filtered(tasks, x + "-" + y, fieldId) == KeepWhere(tasks, test);
    KeepWhereCounts(tasks, test);
    assert forall i :: 0 <= i < |tasks| ==> (test(tasks[i]) == Success(true) <==> InRange(tasks[i], lo, hi, fieldId));
  }

  /** The token `x-y` is already trimmed and splits into the trimmed ends. */
  lemma RangeTokenSplits(x: string, y: string)
    requires ',' !in x && ',' !in y && '-' !in x && '-' !in y
    requires |x| > 0 && |y| > 0 && !IsSpace(x[0]) && !IsSpace(y[|y| - 1])
    ensures ',' !in x + "-" + y && '-' in x + "-" + y
    ensures Strip(x + "-" + y) == x + "-" + y
    ensures StripAll(Split(x + "-" + y, '-')) == [Strip(x), Strip(y)]
  {
    var v := x + "-" + y;
    assert ',' !in v && v[|x|] == '-';
    StripFixpoint(v);
    SplitPair(x, y, '-');
    assert StripAll([x, y]) == [Strip(x), Strip(y)];
  }

  /** Two separator-free pieces joined by the separator split back into the
      two. */
  lemma SplitPair(x: string, y: string, c: char)
    requires c !in x && c !in y
    ensures Split(x + [c] + y, c) == [x, y]
  {
    SplitConcat(x, y, c);
    SplitNoSeparator(x, c);
    SplitNoSeparator(y, c);
  }

  /** A token with two dashes cannot be unpacked into two bounds and fails
      even when there are no tasks; this covers a negative lower bound such
      as `-5-3`. */
  lemma FilteredTwoDashes(tasks: seq<Task>, x: string, y: string, z: string, fieldId: Option<int>)
    requires ',' !in x && ',' !in y && ',' !in z
    requires (|x| > 0 && !IsSpace(x[0])) && (|z| > 0 && !IsSpace(z[|z| - 1]))
    ensures Filtered(tasks, x + "-" + y + "-" + z, fieldId) == Failure(ValueError)
  {
    var v := x + "-" + y + "-" + z;
    assert ',' !in v;
    FilteredOneToken(tasks, v, fieldId);
    StripFixpoint(v);
    assert v[|x|] == '-' && v[|x| + 1 + |y|] == '-';
    SplitTwoSeparators(v, '-', |x|, |x| + 1 + |y|);
  }

  /** A string with two occurrences of the separator has at least three pieces. */
  lemma SplitTwoSeparators(t: string, c: char, i: int, j: int)
    requires 0 <= i < j < |t| && t[i] == c && t[j] == c
    ensures |Split(t, c)| >= 3
  {
    assert t == t[..i] + [c] + t[i + 1..];
    SplitConcat(t[..i], t[i + 1..], c);
    assert t[i + 1..][j - i - 1] == c;
    SplitWithSeparator(t[i + 1..], c);
  }

  // ---------------------------------------------------------------------------
  // get_rows, delete_table and comment_tables

  /** The cells of a table row built from a row dict, one per key in order. */
  function Cells(row: Row): (cells: seq<FormField>)
    ensures |cells| == |row|
    ensures forall j :: 0 <= j < |row| ==> cells[j] == SetValueToField(row[j].0, row[j].1)
  {
    seq(|row|, j requires 0 <= j < |row| => SetValueToField(row[j].0, row[j].1))
  }

  /** `get_rows(rows)`: one new table row per row dict, numbered by position. */
  method GetRows(rows: seq<Row>) returns (r: seq<TableRow>)
    ensures |r| == |rows|
    ensures forall i :: 0 <= i < |r| ==> fresh(r[i])
    ensures forall i :: 0 <= i < |r| ==> r[i].rowId == i && r[i].cells == Cells(rows[i]) && !r[i].delete
    ensures forall i, j :: 0 <= i < j < |r| ==> r[i] != r[j]
  {
    r := [];
    var i := 0;
    while i < |rows|
      invariant 0 <= i <= |rows| && |r| == i
      invariant forall k :: 0 <= k < i ==> fresh(r[k])
      invariant forall k :: 0 <= k < i ==> r[k].rowId == k && r[k].cells == Cells(rows[k]) && !r[k].delete
      invariant forall k, l :: 0 <= k < l < i ==> r[k] != r[l]
    {
      var row := new TableRow(i, Cells(rows[i]));
      r := r + [row];
      i := i + 1;
    }
  }

  /** The row objects held by the table values among `fields`. */
  function TableRows(fields: seq<FormField>): set<TableRow>
  {
    set f, row | f in fields && f.value.Some? && f.value.value.Table? && row in f.value.value.rows :: row
  }

  /** The task field with id `id` exists and its value reads as table rows. */
  predicate Clearable(fields: seq<FormField>, id: int) {
    ObjectById(fields, Some(id)).Some? && TableRowsOf(ObjectById(fields, Some(id)).value.value).Success?
  }

  /** `g` is the task field with id `id`, its value replaced by the rows that
      value holds. */
  predicate ClearedField(fields: seq<FormField>, id: int, g: FormField) {
    Clearable(fields, id) &&
    g == ObjectById(fields, Some(id)).value.(value := Some(Table(TableRowsOf(ObjectById(fields, Some(id)).value.value).value)))
  }

  /** The field updates `delete_table` posts: for each table id, the task
      field with that id, its value replaced by its rows (none when the value
      is empty). A missing field raises AttributeError. */
  function ClearedTables(fields: seq<FormField>, ids: seq<int>): (r: Result<seq<FormField>>)
    ensures r.Success? ==> |r.value| == |ids|
    ensures r.Success? ==> forall i :: 0 <= i < |ids| ==>
      (r.value[i].id == ids[i] && r.value[i].value.Some? && r.value[i].value.value.Table?)
    ensures r.Success? ==> TableRows(r.value) <= TableRows(fields)
  {
    if |ids| == 0 then Success([])
    else
      var prev :- ClearedTables(fields, ids[..|ids| - 1]);
      match ObjectById(fields, Some(ids[|ids| - 1]))
      case None => Failure(AttributeError)
      case Some(f) =>
        var rows :- TableRowsOf(f.value);
        var g := f.(value := Some(Table(rows)));
        assert TableRows([g]) <= TableRows(fields) by {
          forall row | row in TableRows([g]) ensures row in TableRows(fields) {
            assert row in rows;
          }
        }
        assert TableRows(prev + [g]) == TableRows(prev) + TableRows([g]);
        Success(prev + [g])
  }

  /** Update `i` is the task field table id `i` names, holding that field's
      own rows; the clearing fails, with AttributeError or TypeError, exactly
      when some table id names no field or a field whose value holds no
      rows. */
  lemma {:induction false} ClearedTablesFields(fields: seq<FormField>, ids: seq<int>)
    ensures ClearedTables(fields, ids).Success? ==>
      forall i :: 0 <= i < |ids| ==> ClearedField(fields, ids[i], ClearedTables(fields, ids).value[i])
    ensures ClearedTables(fields, ids).Failure? <==> exists i :: 0 <= i < |ids| && !Clearable(fields, ids[i])
    ensures ClearedTables(fields, ids).Failure? ==>
      ClearedTables(fields, ids).error == AttributeError || ClearedTables(fields, ids).error == TypeError
  {
    if |ids| > 0 {
      var front := ids[..|ids| - 1];
      ClearedTablesFields(fields, front);
      assert forall i :: 0 <= i < |front| ==> front[i] == ids[i];
    }
  }

  /** The rows the cleared tables carry are exactly the rows of the task
      fields the table ids name, which `delete_table` marks deleted. */
  lemma ClearedRows(fields: seq<FormField>, ids: seq<int>)
    requires ClearedTables(fields, ids).Success?
    ensures forall row :: row in TableRows(ClearedTables(fields, ids).value) <==>
      exists i :: 0 <= i < |ids| && Clearable(fields, ids[i]) && row in TableRowsOf(ObjectById(fields, Some(ids[i])).value.value).value
  {
    var r := ClearedTables(fields, ids).value;
    ClearedTablesFields(fields, ids);
    forall row ensures row in TableRows(r) <==>
      exists i :: 0 <= i < |ids| && Clearable(fields, ids[i]) && row in TableRowsOf(ObjectById(fields, Some(ids[i])).value.value).value
    {
      if row in TableRows(r) {
        var f :| f in r && f.value.Some? && f.value.value.Table? && row in f.value.value.rows;
        var i :| 0 <= i < |r| && r[i] == f;
        assert ClearedField(fields, ids[i], r[i]);
      }
      if i :| 0 <= i < |ids| && Clearable(fields, ids[i]) && row in TableRowsOf(ObjectById(fields, Some(ids[i])).value.value).value {
        assert ClearedField(fields, ids[i], r[i]);
        assert r[i] in r;
      }
    }
  }

  /** Adding a task field, its value replaced by its rows, to the updates
      adds exactly those rows, which are rows of the task. */
  lemma AddCleared(fields: seq<FormField>, f: FormField, rows: seq<TableRow>, updates: seq<FormField>)
    requires f in fields && TableRowsOf(f.value) == Success(rows)
    ensures TableRows(updates + [f.(value := Some(Table(rows)))]) == TableRows(updates) + set row | row in rows
    ensures forall row :: row in rows ==> row in TableRows(fields)
  {
    var g := f.(value := Some(Table(rows)));
    assert TableRows(updates + [g]) == TableRows(updates) + TableRows([g]);
    assert forall row :: row in rows <==> row in TableRows([g]);
  }

  /** A failure on a prefix of the table ids is the failure of all of them. */
  lemma {:induction false} ClearedTablesPrefixFailure(fields: seq<FormField>, ids: seq<int>, n: nat)
    requires n <= |ids| && ClearedTables(fields, ids[..n]).Failure?
    ensures ClearedTables(fields, ids) == ClearedTables(fields, ids[..n])
    decreases |ids|
  {
    if n < |ids| {
      var front := ids[..|ids| - 1];
      assert front[..n] == ids[..n];
      ClearedTablesPrefixFailure(fields, front, n);
    } else {
      assert ids[..n] == ids;
    }
  }

  /** What clearing table id `ids[i]` does after the ids before it cleared to
      `updates`: a missing field or a field without rows ends the clearing
      with its error, and otherwise the field with its rows is appended. */
  lemma ClearedTablesNext(fields: seq<FormField>, ids: seq<int>, i: nat, updates: seq<FormField>)
    requires i < |ids| && ClearedTables(fields, ids[..i]) == Success(updates)
    ensures ObjectById(fields, Some(ids[i])).None? ==> ClearedTables(fields, ids) == Failure(AttributeError)
    ensures ObjectById(fields, Some(ids[i])).Some? ==>
      var f := ObjectById(fields, Some(ids[i])).value;
      (TableRowsOf(f.value).Failure? ==> ClearedTables(fields, ids) == Failure(TableRowsOf(f.value).error))
      && (TableRowsOf(f.value).Success? ==>
        ClearedTables(fields, ids[..i + 1]) == Success(updates + [f.(value := Some(Table(TableRowsOf(f.value).value)))]))
  {
    assert ids[..i + 1][..i] == ids[..i];
    if ClearedTables(fields, ids[..i + 1]).Failure? {
      ClearedTablesPrefixFailure(fields, ids, i + 1);
    }
  }

  /** `for row in rows: row.delete = True`. */
  method MarkDeleted(rows: seq<TableRow>)
    modifies set row | row in rows
    ensures forall row :: row in rows ==> row.delete
  {
    var k := 0;
    while k < |rows|
      invariant 0 <= k <= |rows|
      invariant forall j :: 0 <= j < k ==> rows[j].delete
    {
      rows[k].delete := true;
      k := k + 1;
    }
  }

  /** The loop of `delete_table`: marks every row of each table `tableIds`
      names as deleted and collects the fields with their rows; it stops at
      the first id whose field is missing or holds no rows. */
  method ClearTables(fields: seq<FormField>, tableIds: seq<int>) returns (r: Result<seq<FormField>>)
    modifies TableRows(fields)
    ensures r == ClearedTables(fields, tableIds)
    ensures r.Success? ==> forall row :: row in TableRows(fields) ==>
      row.delete == (old(row.delete) || row in TableRows(r.value))
    ensures forall row :: row in TableRows(fields) && old(row.delete) ==> row.delete
  {
    var updates: seq<FormField> := [];
    ghost var cleared: set<TableRow> := {};
    var i := 0;
    while i < |tableIds|
      invariant 0 <= i <= |tableIds|
      invariant ClearedTables(fields, tableIds[..i]) == Success(updates)
      invariant cleared == TableRows(updates)
      invariant forall row :: row in TableRows(fields) ==> row.delete == (old(row.delete) || row in cleared)
    {
      ClearedTablesNext(fields, tableIds, i, updates);
      var table := ObjectById(fields, Some(tableIds[i]));
      if table.None? {
        return Failure(AttributeError);
      }
      var rows := TableRowsOf(table.value.value);
      if rows.Failure? {
        return Failure(rows.error);
      }
      var g := table.value.(value := Some(Table(rows.value)));
      AddCleared(fields, table.value, rows.value, updates);
      MarkDeleted(rows.value);
      updates := updates + [g];
      cleared := cleared + set row | row in rows.value;
      i := i + 1;
    }
    assert tableIds[..i] == tableIds;
    return Success(updates);
  }

  /** `delete_table(client, tables, task)`: marks every row of each table
      `tableIds` names as deleted, then posts the cleared tables as one
      comment on the task. Rows of other fields are left as they were. */
  method DeleteTable(client: Client, tableIds: seq<int>, task: BotTask) returns (r: Outcome)
    modifies client, TableRows(task.fields)
    ensures r.Fail? <==> ClearedTables(task.fields, tableIds).Failure?
    ensures r.Fail? ==> r.error == ClearedTables(task.fields, tableIds).error
    ensures r.Fail? ==> client.requests == old(client.requests)
    ensures r.Pass? ==>
      client.requests == old(client.requests) + [CommentRequest(task.id, ClearedTables(task.fields, tableIds).value)]
    ensures r.Pass? ==> forall row :: row in TableRows(task.fields) ==>
      row.delete == (old(row.delete) || row in TableRows(ClearedTables(task.fields, tableIds).value))
    ensures forall row :: row in TableRows(task.fields) && old(row.delete) ==> row.delete
  {
    var updates := ClearTables(task.fields, tableIds);
    if updates.Failure? {
      return Fail(updates.error);
    }
    client.CommentTask(task.id, updates.value);
    return Pass;
  }

  /** The field updates `comment_tables` posts: each table id with its new
      rows. */
  function TableUpdates(tables: Dict<int, seq<TableRow>>): (u: seq<FormField>)
    ensures |u| == |tables|
    ensures forall i :: 0 <= i < |tables| ==>
      u[i].id == tables[i].0 && u[i].value == Some(Table(tables[i].1))
  {
    seq(|tables|, i requires 0 <= i < |tables| => SetValueToField(tables[i].0, Table(tables[i].1)))
  }

  /** `comment_tables(client, tables, task_id)`: posts the new tables as one
      comment. */
  method CommentTables(client: Client, tables: Dict<int, seq<TableRow>>, taskId: int)
    modifies client
    ensures client.requests == old(client.requests) + [CommentRequest(taskId, TableUpdates(tables))]
  {
    client.CommentTask(taskId, TableUpdates(tables));
  }
}
