/** Forms over an entity, the JSON Schema generated from them, and how that schema
    relates to what records may hold. Keywords are those of JSON Schema 2020-12. */
module FormSchema {
  import opened Text
  import opened EntitySchema
  import opened RecordValues

  datatype JsonType = NumberType | BooleanType | ArrayType | StringType

  datatype Choice = Anything | OneOf(options: seq<string>)

  /** The schema of one property: type, format, enum, and the enum of string items. */
  datatype Property = Property(title: string, typ: JsonType, format: string, enum: Choice, items: Choice,
    default: Value)

  function FieldSchema(field: Field, title: string): Property {
    var kind := field.Kind();
    var typ := if kind.Number? || kind.Money? then NumberType else if kind.Boolean? then BooleanType
               else if kind.MultiSelect? then ArrayType else StringType;
    var format := if kind.Date? then "date" else if kind.DateTime? then "date-time"
                  else if kind.Email? then "email" else if kind.Url? then "uri" else "";
    Property(title, typ, format,
             if kind.Select? then OneOf(field.options) else Anything,
             if kind.MultiSelect? then OneOf(field.options) else Anything,
             field.default)
  }

  predicate HasType(v: Value, typ: JsonType) {
    match typ
    case NumberType => v.Num?
    case BooleanType => v.Bool?
    case ArrayType => v.Arr?
    case StringType => v.Str?
  }

  /** Validation by the type, enum and items keywords. */
  predicate Satisfies(p: Property, v: Value) {
    && HasType(v, p.typ)
    && (p.enum.OneOf? ==> IsOption(v, p.enum.options))
    && (p.items.OneOf? && v.Arr? ==> forall i :: 0 <= i < |v.items| ==> IsOption(v.items[i], p.items.options))
  }

  // ---- Forms ----------------------------------------------------------------------------

  datatype Component = Component(fieldName: string, widget: string, caption: string, required: bool, position: nat,
    props: set<string>)

  /** Which kinds of field each widget can edit. */
  const WIDGETS: seq<(string, seq<Kind>)> := [
    ("input", [String, Email, Url]), ("textarea", [String, LongText]), ("date", [Date]), ("datetime", [DateTime]),
    ("select", [Select]), ("multiselect", [MultiSelect]), ("money", [Money, Number]), ("user", [User]),
    ("image", [Image]), ("attachment", [Attachment]), ("checkbox", [Boolean])]

  predicate Supports(widgets: seq<(string, seq<Kind>)>, widget: string, kind: Kind) {
    widgets != [] && if widgets[0].0 == widget then kind in widgets[0].1 else Supports(widgets[1..], widget, kind)
  }

  predicate WidgetSupports(widget: string, kind: Kind) {
    Supports(WIDGETS, widget, kind)
  }

  predicate SafeProp(key: string) {
    && 1 <= |key| <= 32 && LowerLetter(key[0])
    && forall i :: 0 < i < |key| ==> LowerOrDigit(key[i]) || key[i] == '_'
  }

  type FieldMap = map<string, Field>

  function MapOf(fields: seq<Field>): FieldMap {
    if fields == [] then map[] else
      var f := fields[|fields| - 1];
      MapOf(fields[..|fields| - 1])[f.name := f]
  }

  function Cleaned(lib: Library, c: Component, index: nat): Component {
    c.(fieldName := TrimSpace(c.fieldName), widget := lib.lower(TrimSpace(c.widget)), caption := TrimSpace(c.caption),
      position := index)
  }

  function Caption(c: Component, field: Field): string {
    if c.caption == "" then field.caption else c.caption
  }

  predicate ComponentFits(byName: FieldMap, c: Component) {
    && c.fieldName in byName
    && WidgetSupports(c.widget, byName[c.fieldName].Kind())
    && ByteLen(Caption(c, byName[c.fieldName])) <= 120
    && forall key :: key in c.props ==> SafeProp(key)
  }

  datatype Form = Form(components: seq<Component>, properties: map<string, Property>, required: seq<string>) | Rejected

  function Finished(c: Component, field: Field): Component {
    c.(caption := Caption(c, field), required := c.required || field.required)
  }

  function AddComponent(byName: FieldMap, form: Form, c: Component): Form {
    if form.Rejected? || !ComponentFits(byName, c) || c.fieldName in form.properties then Rejected else
      var field := byName[c.fieldName];
      Form(form.components + [Finished(c, field)],
           form.properties[c.fieldName := FieldSchema(field, Caption(c, field))],
           if c.required || field.required then form.required + [c.fieldName] else form.required)
  }

  function Build(lib: Library, byName: FieldMap, components: seq<Component>): Form {
    if components == [] then Form([], map[], []) else
      var n := |components| - 1;
      AddComponent(byName, Build(lib, byName, components[..n]), Cleaned(lib, components[n], n))
  }

  function Generated(lib: Library, fields: seq<Field>, components: seq<Component>): Form {
    if 1 <= |components| <= 100 then Build(lib, MapOf(fields), components) else Rejected
  }

  lemma BuildNext(lib: Library, byName: FieldMap, all: seq<Component>, i: nat)
    requires i < |all|
    ensures Build(lib, byName, all[..i + 1]) == AddComponent(byName, Build(lib, byName, all[..i]),
        Cleaned(lib, all[i], i))
  {
    assert all[..i + 1][..i] == all[..i];
  }

  lemma {:induction false} RejectedStays(lib: Library, byName: FieldMap, all: seq<Component>, i: nat)
    requires i <= |all| && Build(lib, byName, all[..i]).Rejected?
    ensures Build(lib, byName, all).Rejected?
    decreases |all| - i
  {
    if i < |all| {
      BuildNext(lib, byName, all, i);
      RejectedStays(lib, byName, all, i + 1);
    } else {
      assert all[..i] == all;
    }
  }

  /** One turn of the loop: check the cleaned component, then complete it from its field. */
  method FinishComponent(byName: FieldMap, c: Component, seen: set<string>)
    returns (ok: bool, finished: Component, property: Property)
    ensures ok == (ComponentFits(byName, c) && c.fieldName !in seen)
    ensures ok ==> c.fieldName in byName && c.fieldName !in seen && forall key :: key in c.props ==> SafeProp(key)
    ensures ok ==> WidgetSupports(c.widget, byName[c.fieldName].Kind()) && ByteLen(finished.caption) <= 120
    ensures ok ==> finished == Finished(c, byName[c.fieldName])
    ensures ok ==> property == FieldSchema(byName[c.fieldName], finished.caption)
  {
    finished, property := c, Property(c.caption, StringType, "", Anything, Anything, Null);
    ok := ComponentFits(byName, c) && c.fieldName !in seen;
    if ok {
      var field := byName[c.fieldName];
      if finished.caption == "" {
        finished := finished.(caption := field.caption);
      }
      property := FieldSchema(field, finished.caption);
      if c.required || field.required {
        finished := finished.(required := true);
      }
    }
  }

  /** The components are rewritten in place; the answer is the schema. */
  method ValidateAndGenerate(lib: Library, fields: seq<Field>, components: array<Component>) returns (form: Form)
    modifies components
    ensures form == Generated(lib, fields, old(components[..]))
    ensures form.Form? ==> components[..] == form.components
  {
    if components.Length == 0 || components.Length > 100 {
      return Rejected;
    }
    var byName := MapOf(fields);
    var properties: map<string, Property> := map[];
    var required: seq<string> := [];
    ghost var all := components[..];
    var i := 0;
    while i < components.Length
      invariant 0 <= i <= components.Length
      invariant Build(lib, byName, all[..i]) == Form(components[..i], properties, required)
      invariant forall j :: i <= j < components.Length ==> components[j] == all[j]
    {
      var c := Cleaned(lib, components[i], i);
      BuildNext(lib, byName, all, i);
      var ok, finished, property := FinishComponent(byName, c, properties.Keys);
      components[i] := finished;
      if !ok {
        RejectedStays(lib, byName, all, i + 1);
        return Rejected;
      }
      properties := properties[c.fieldName := property];
      if finished.required {
        required := required + [c.fieldName];
      }
      assert components[..i + 1] == components[..i] + [finished];
      i := i + 1;
    }
    assert components[..i] == components[..] && all[..i] == all;
    return Form(components[..], properties, required);
  }

  // ---- What a generated schema lists --------------------------------------------------------

  lemma {:induction false} MapIsFromFields(fields: seq<Field>, name: string) returns (i: nat)
    requires name in MapOf(fields)
    ensures i < |fields| && fields[i].name == name && MapOf(fields)[name] == fields[i]
  {
    var n := |fields| - 1;
    if fields[n].name == name { i := n; } else { i := MapIsFromFields(fields[..n], name); }
  }

  /** The fields the components are about. */
  function NamesOf(components: seq<Component>): seq<string> {
    if components == [] then [] else
      NamesOf(components[..|components| - 1]) + [TrimSpace(components[|components| - 1].fieldName)]
  }

  /** Those the form itself marks as required. */
  function Asked(components: seq<Component>): set<string> {
    if components == [] then {} else
      var c := components[|components| - 1];
      Asked(components[..|components| - 1]) + if c.required then {TrimSpace(c.fieldName)} else {}
  }

  predicate Distinct(names: seq<string>) {
    names == [] || (names[|names| - 1] !in names[..|names| - 1] && Distinct(names[..|names| - 1]))
  }

  predicate AllComponentsFit(lib: Library, byName: FieldMap, components: seq<Component>) {
    components == [] ||
      var n := |components| - 1;
      AllComponentsFit(lib, byName, components[..n]) && ComponentFits(byName, Cleaned(lib, components[n], n))
  }

  predicate IsSchemaOf(p: Property, field: Field) {
    p == FieldSchema(field, p.title)
  }

  ghost predicate Lists(byName: FieldMap, components: seq<Component>, form: Form) {
    && form.Form?
    && (forall name :: name in form.properties <==> name in NamesOf(components))
    && (forall name :: name in form.properties ==> name in byName && IsSchemaOf(form.properties[name], byName[name]))
    && (forall name :: name in form.required
         <==> name in form.properties && (name in Asked(components) || byName[name].required))
    && (forall name :: name in Asked(components) ==> name in NamesOf(components))
  }

  lemma OneMoreListed(lib: Library, byName: FieldMap, components: seq<Component>, before: Form)
    requires components != [] && Lists(byName, components[..|components| - 1], before)
    requires var n := |components| - 1;
      ComponentFits(byName, Cleaned(lib, components[n], n)) && TrimSpace(components[n].fieldName) !in before.properties
    ensures var n := |components| - 1; Lists(byName, components,
        AddComponent(byName, before, Cleaned(lib, components[n], n)))
  {
    var n := |components| - 1;
    var c := Cleaned(lib, components[n], n);
    var names := NamesOf(components[..n]);
    assert forall name :: name in names + [c.fieldName] <==> name in names || name == c.fieldName;
    var p := FieldSchema(byName[c.fieldName], Caption(c, byName[c.fieldName]));
    assert IsSchemaOf(p, byName[c.fieldName]);
  }

  /** A form is accepted exactly when each component fits and no field is used twice; its
      schema then has one property per component and requires what the form or the
      entity requires. */
  lemma {:induction false} FormMeaning(lib: Library, byName: FieldMap, components: seq<Component>)
    ensures var form := Build(lib, byName, components);
      form.Form? <==> AllComponentsFit(lib, byName, components) && Distinct(NamesOf(components))
    ensures Build(lib, byName, components).Form? ==> Lists(byName, components, Build(lib, byName, components))
  {
    if components != [] {
      var n := |components| - 1;
      var front := components[..n];
      FormMeaning(lib, byName, front);
      var before, c := Build(lib, byName, front), Cleaned(lib, components[n], n);
      assert NamesOf(components)[..n] == NamesOf(front) by { NamesLength(front); }
      NamesLength(components);
      if before.Form? && ComponentFits(byName, c) && c.fieldName !in before.properties {
        OneMoreListed(lib, byName, components, before);
      }
    }
  }

  lemma {:induction false} NamesLength(components: seq<Component>)
    ensures |NamesOf(components)| == |components|
  {
    if components != [] { NamesLength(components[..|components| - 1]); }
  }

  // ---- What is stored of a form ------------------------------------------------------------

  /** A stored component is the submitted one, trimmed, numbered, with the field's caption
      where it had none, and required where the form or the entity requires it. */
  ghost predicate Completes(lib: Library, byName: FieldMap, i: nat, c: Component, done: Component) {
    && done.fieldName == TrimSpace(c.fieldName) && done.fieldName in byName
    && done.widget == lib.lower(TrimSpace(c.widget)) && done.position == i && done.props == c.props
    && done.caption == (if TrimSpace(c.caption) != "" then TrimSpace(c.caption) else byName[done.fieldName].caption)
    && done.required == (c.required || byName[done.fieldName].required)
  }

  /** Its property has that caption as its title and the field's default. */
  ghost predicate Titles(byName: FieldMap, done: Component, p: Property) {
    done.fieldName in byName && p.title == done.caption && p.default == byName[done.fieldName].default
  }

  /** The names of the required components, in the order of the form. */
  function RequiredNames(components: seq<Component>): seq<string> {
    if components == [] then [] else
      var last := components[|components| - 1];
      RequiredNames(components[..|components| - 1]) + if last.required then [last.fieldName] else []
  }

  ghost predicate StoredAs(lib: Library, byName: FieldMap, components: seq<Component>, form: Form) {
    && form.Form? && |form.components| == |components| && form.required == RequiredNames(form.components)
    && forall i :: 0 <= i < |components| ==>
         var done := form.components[i];
         && Completes(lib, byName, i, components[i], done)
         && done.fieldName in form.properties && Titles(byName, done, form.properties[done.fieldName])
  }

  lemma OneMoreStored(lib: Library, byName: FieldMap, components: seq<Component>, before: Form)
    requires components != [] && StoredAs(lib, byName, components[..|components| - 1], before)
    requires var n := |components| - 1;
      ComponentFits(byName, Cleaned(lib, components[n], n)) && TrimSpace(components[n].fieldName) !in before.properties
    ensures var n := |components| - 1;
      StoredAs(lib, byName, components, AddComponent(byName, before, Cleaned(lib, components[n], n)))
  {
    var n := |components| - 1;
    var after := AddComponent(byName, before, Cleaned(lib, components[n], n));
    assert after.components[..n] == before.components;
    forall i | 0 <= i < n
      ensures Completes(lib, byName, i, components[i], after.components[i])
      ensures after.components[i].fieldName in after.properties
      ensures Titles(byName, after.components[i], after.properties[after.components[i].fieldName])
    {
      assert components[..n][i] == components[i] && after.components[i] == before.components[i];
    }
  }

  /** What an accepted form stores, component by component, and what it requires. */
  lemma {:induction false} FormsAreStoredAsSubmitted(lib: Library, byName: FieldMap, components: seq<Component>)
    requires Build(lib, byName, components).Form?
    ensures StoredAs(lib, byName, components, Build(lib, byName, components))
  {
    if components != [] {
      var n := |components| - 1;
      FormsAreStoredAsSubmitted(lib, byName, components[..n]);
      OneMoreStored(lib, byName, components, Build(lib, byName, components[..n]));
    }
  }

  /** When components make a form, and what then is stored and listed. */
  ghost predicate IsTheForm(lib: Library, byName: FieldMap, components: seq<Component>, form: Form) {
    && (form.Form? <==>
          && 1 <= |components| <= 100
          && AllComponentsFit(lib, byName, components) && Distinct(NamesOf(components)))
    && (form.Form? ==> StoredAs(lib, byName, components, form) && Lists(byName, components, form))
  }

  lemma GeneratedIsTheForm(lib: Library, fields: seq<Field>, components: seq<Component>)
    ensures IsTheForm(lib, MapOf(fields), components, Generated(lib, fields, components))
  {
    FormMeaning(lib, MapOf(fields), components);
    if Build(lib, MapOf(fields), components).Form? { FormsAreStoredAsSubmitted(lib, MapOf(fields), components); }
  }

  // ---- The triangle ---------------------------------------------------------------------------

  /** The format keyword, taken as an assertion. */
  predicate MeetsFormat(lib: Library, p: Property, v: Value) {
    match p.format
    case "" => true
    case "date" => v.Str? && lib.isDate(v.text)
    case "date-time" => v.Str? && lib.isDateTime(v.text)
    case "email" => v.Str? && lib.isEmail(v.text)
    case "uri" => v.Str? && lib.isUrl(v.text)
    case _ => false
  }

  /** What the record check demands beyond all keywords: amounts of money, and no blank text. */
  predicate BeyondKeywords(lib: Library, field: Field, v: Value) {
    match field.Kind()
    case Money => v.Num? ==> lib.printsAsMoney(v.number)
    case String => v.Str? ==> !AllSpace(v.text)
    case LongText => v.Str? ==> !AllSpace(v.text)
    case User => v.Str? ==> !AllSpace(v.text)
    case Image => v.Str? ==> !AllSpace(v.text)
    case Attachment => v.Str? ==> !AllSpace(v.text)
    case Unsupported => v.Str? ==> !AllSpace(v.text)
    case _ => true
  }

  /** The record check is the property's keywords, its format, and exactly those demands. */
  lemma RecordCheckIsSchemaAndMore(lib: Library, field: Field, title: string, v: Value)
    ensures var p := FieldSchema(field, title);
      ValueFits(lib, field, v) <==> Satisfies(p, v) && MeetsFormat(lib, p, v) && BeyondKeywords(lib, field, v)
  {
    if v.Str? { TrimEmptyIffBlank(v.text); }
  }

  /** And a choice is one of the options as they were written. */
  lemma ChoicesAreOptions(lib: Library, field: Field, v: Value)
    ensures field.Kind().Select? ==> (ValueFits(lib, field, v) <==> v.Str? && v.text in field.options)
    ensures field.Kind().MultiSelect? ==>
      (ValueFits(lib, field, v) <==> v.Arr? && forall x :: x in v.items ==> x.Str? && x.text in field.options)
  {
    if v.Arr? && AllOptions(v, field.options) {
      forall x | x in v.items ensures x.Str? && x.text in field.options {
        var i :| 0 <= i < |v.items| && v.items[i] == x;
        assert IsOption(v.items[i], field.options);
      }
    }
  }

  /** The default check is the property's keywords and nothing else. */
  lemma DefaultCheckIsSchema(field: Field, title: string)
    requires !field.default.Null?
    ensures DefaultFits(field) <==> Satisfies(FieldSchema(field, title), field.default)
  {
  }

  /** Every value a record of an accepted entity holds, default or given, satisfies the
      property of every accepted form that lists its field. */
  lemma StoredValuesFitTheForm(lib: Library, fields: seq<Field>, raw: Values, components: seq<Component>, name: string)
    requires FieldsFit(fields) && Record(lib, fields, raw).Accepted? && Generated(lib, fields, components).Form?
    requires name in Generated(lib, fields, components).properties && name in Record(lib, fields, raw).values
    ensures Satisfies(Generated(lib, fields, components).properties[name], Record(lib, fields, raw).values[name])
  {
    var byName := MapOf(fields);
    var form := Generated(lib, fields, components);
    FormMeaning(lib, byName, components);
    RecordHolds(lib, fields, raw);
    var title := form.properties[name].title;
    var i := MapIsFromFields(fields, name);
    var field := fields[i];
    assert FieldFits(field) && Acceptable(lib, field, raw);
    assert Present(field, raw) && Record(lib, fields, raw).values[name] == Kept(field, raw);
    if Given(field, raw) {
      RecordCheckIsSchemaAndMore(lib, field, title, raw[name]);
    } else {
      DefaultCheckIsSchema(field, title);
    }
  }

  /** Validation of the whole object: required, additionalProperties and every property. */
  predicate ObjectSatisfies(form: Form, values: Values)
    requires form.Form?
  {
    GivesAsked(form, values) && ListsAll(form, values) && ListedFit(form, values)
  }

  predicate GivesAsked(form: Form, values: Values)
    requires form.Form?
  {
    forall name :: name in form.required ==> name in values
  }

  predicate ListsAll(form: Form, values: Values)
    requires form.Form?
  {
    forall name :: name in values ==> name in form.properties
  }

  predicate ListedFit(form: Form, values: Values)
    requires form.Form?
  {
    forall name :: name in values && name in form.properties ==> Satisfies(form.properties[name], values[name])
  }

  predicate LeavesNothingOut(fields: seq<Field>, raw: Values, components: seq<Component>) {
    forall i :: 0 <= i < |fields| && Present(fields[i], raw) ==> fields[i].name in NamesOf(components)
  }

  predicate AsksForNothingMissing(fields: seq<Field>, raw: Values, components: seq<Component>) {
    forall i :: 0 <= i < |fields| && fields[i].name in Asked(components) ==> Present(fields[i], raw)
  }

  lemma NothingLeftOut(fields: seq<Field>, raw: Values, components: seq<Component>, values: Values, form: Form)
    requires Holds(fields, raw, values) && Lists(MapOf(fields), components, form)
    ensures ListsAll(form, values) <==> LeavesNothingOut(fields, raw, components)
  {
    if LeavesNothingOut(fields, raw, components) {
      forall name | name in values ensures name in form.properties {
        assert name in Names(fields);
        var i :| 0 <= i < |fields| && fields[i].name == name;
        assert Present(fields[i], raw);
      }
    }
  }

  lemma NothingMissing(lib: Library, fields: seq<Field>, raw: Values, components: seq<Component>, values: Values,
    form: Form)
    requires NamesApart(fields) && Holds(fields, raw, values) && AllAcceptable(lib, fields, raw)
        && Lists(MapOf(fields), components, form)
    ensures GivesAsked(form, values) <==> AsksForNothingMissing(fields, raw, components)
  {
    var byName := MapOf(fields);
    if AsksForNothingMissing(fields, raw, components) {
      forall name | name in form.required ensures name in values {
        var i := MapIsFromFields(fields, name);
        assert Acceptable(lib, fields[i], raw);
      }
    }
    if GivesAsked(form, values) {
      forall i | 0 <= i < |fields| && fields[i].name in Asked(components) ensures Present(fields[i], raw) {
        assert fields[i].name in form.required;
      }
    }
  }

  /** A stored record as a whole satisfies a form's schema exactly when the form leaves out
      no field the record has, and asks only for fields the record has. */
  lemma WholeObjectExactly(lib: Library, fields: seq<Field>, raw: Values, components: seq<Component>)
    requires FieldsFit(fields) && Record(lib, fields, raw).Accepted? && Generated(lib, fields, components).Form?
    ensures ObjectSatisfies(Generated(lib, fields, components), Record(lib, fields, raw).values)
      <==> LeavesNothingOut(fields, raw, components) && AsksForNothingMissing(fields, raw, components)
  {
    var form, values := Generated(lib, fields, components), Record(lib, fields, raw).values;
    FormMeaning(lib, MapOf(fields), components);
    RecordHolds(lib, fields, raw);
    AllStoredFit(lib, fields, raw, components);
    NothingLeftOut(fields, raw, components, values, form);
    NothingMissing(lib, fields, raw, components, values, form);
  }

  lemma AllStoredFit(lib: Library, fields: seq<Field>, raw: Values, components: seq<Component>)
    requires FieldsFit(fields) && Record(lib, fields, raw).Accepted? && Generated(lib, fields, components).Form?
    ensures ListedFit(Generated(lib, fields, components), Record(lib, fields, raw).values)
  {
    var form, values := Generated(lib, fields, components), Record(lib, fields, raw).values;
    forall name | name in values && name in form.properties ensures Satisfies(form.properties[name], values[name]) {
      StoredValuesFitTheForm(lib, fields, raw, components, name);
    }
  }

  /** So a form can ask for more than its entity: an accepted record need not satisfy it. */
  lemma FormsCanAskForMore(lib: Library) returns (fields: seq<Field>, components: seq<Component>)
    requires lib.lower("textarea") == "textarea"
    ensures FieldsFit(fields) && Record(lib, fields, map[]) == Accepted(map[])
        && Generated(lib, fields, components).Form?
    ensures !ObjectSatisfies(Generated(lib, fields, components), map[])
  {
    fields := [Field("note", "N", "text", false, Null, [], 0)];
    components := [Component("note", "textarea", "", true, 0, {})];
    NoteFits(fields);
    NoteRecord(lib, fields);
    NoteForm(lib, fields, components);
  }

  lemma NoteFits(fields: seq<Field>)
    requires fields == [Field("note", "N", "text", false, Null, [], 0)]
    ensures FieldsFit(fields)
  {
    assert "N"[1..] == "";
    assert ByteLen("N") == 1;
    assert OptionsFit(fields[0]);
    assert IsFieldName("note");
    assert |"id"| == 2 && |"tenant_id"| == 9 && |"created_at"| == 10 && |"updated_at"| == 10 && |"deleted_at"| == 10;
  }

  lemma NoteRecord(lib: Library, fields: seq<Field>)
    requires fields == [Field("note", "N", "text", false, Null, [], 0)]
    ensures Record(lib, fields, map[]) == Accepted(map[])
  {
    assert fields[..0] == [];
    assert FillAll(lib, fields[..0], map[]) == Accepted(map[]);
  }

  lemma NoteComponentFits(field: Field, c: Component)
    requires field == Field("note", "N", "text", false, Null, [], 0)
        && c == Component("note", "textarea", "", true, 0, {})
    ensures ComponentFits(map["note" := field], c)
  {
    assert "N"[1..] == "" && ByteLen("N") == 1;
    assert field.Kind() == LongText;
  }

  lemma NoteIsClean(lib: Library, c: Component)
    requires lib.lower("textarea") == "textarea" && c == Component("note", "textarea", "", true, 0, {})
    ensures Cleaned(lib, c, 0) == c
  {
    TrimLeavesTrimmed("note");
    TrimLeavesTrimmed("textarea");
  }

  lemma OneComponent(lib: Library, byName: FieldMap, c: Component)
    requires ComponentFits(byName, Cleaned(lib, c, 0)) && Cleaned(lib, c, 0) == c && c.required
    ensures var form := Build(lib, byName, [c]); form.Form? && c.fieldName in form.required
  {
    assert [c][..0] == [];
  }

  lemma NoteForm(lib: Library, fields: seq<Field>, components: seq<Component>)
    requires lib.lower("textarea") == "textarea"
    requires fields == [Field("note", "N", "text", false, Null, [], 0)]
    requires components == [Component("note", "textarea", "", true, 0, {})]
    ensures Build(lib, MapOf(fields), components).Form? && "note" in Build(lib, MapOf(fields), components).required
  {
    assert fields[..0] == [];
    assert MapOf(fields) == map["note" := fields[0]];
    NoteIsClean(lib, components[0]);
    NoteComponentFits(fields[0], components[0]);
    OneComponent(lib, MapOf(fields), components[0]);
  }
}
