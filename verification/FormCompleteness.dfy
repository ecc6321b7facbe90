/** Every entity can be filled in: for each accepted entity there is a form over all its
    fields whose schema every accepted record satisfies as a whole. */
module FormCompleteness {
  import opened Text
  import opened EntitySchema
  import opened RecordValues
  import opened FormSchema

  /** A widget that can edit the kind. */
  function WidgetFor(kind: Kind): string {
    match kind
    case String => "input"
    case Email => "input"
    case Url => "input"
    case LongText => "textarea"
    case Date => "date"
    case DateTime => "datetime"
    case Select => "select"
    case MultiSelect => "multiselect"
    case Money => "money"
    case Number => "money"
    case User => "user"
    case Image => "image"
    case Attachment => "attachment"
    case Boolean => "checkbox"
    case Unsupported => ""
  }

  /** Lowering leaves the names of the widgets alone. */
  ghost predicate KeepsWidgets(lib: Library) {
    forall kind: Kind :: lib.lower(WidgetFor(kind)) == WidgetFor(kind)
  }

  lemma EveryKindHasAWidget(kind: Kind)
    requires !kind.Unsupported?
    ensures WidgetSupports(WidgetFor(kind), kind) && TrimSpace(WidgetFor(kind)) == WidgetFor(kind)
  {
    TrimLeavesTrimmed(WidgetFor(kind));
    SupportsByPosition(WIDGETS, WidgetFor(kind), kind, match kind
      case String => 0
      case Email => 0
      case Url => 0
      case LongText => 1
      case Date => 2
      case DateTime => 3
      case Select => 4
      case MultiSelect => 5
      case Money => 6
      case Number => 6
      case User => 7
      case Image => 8
      case Attachment => 9
      case _ => 10);
  }

  lemma {:induction false} SupportsByPosition(widgets: seq<(string, seq<Kind>)>, widget: string, kind: Kind, i: nat)
    requires i < |widgets| && widgets[i].0 == widget && kind in widgets[i].1
    requires forall j :: 0 <= j < i ==> widgets[j].0 != widget
    ensures Supports(widgets, widget, kind)
  {
    if i > 0 { SupportsByPosition(widgets[1..], widget, kind, i - 1); }
  }

  function ComponentFor(field: Field): Component {
    Component(field.name, WidgetFor(field.Kind()), "", false, 0, {})
  }

  lemma FieldNamesAreTrimmed(field: Field)
    requires FieldFits(field)
    ensures TrimSpace(field.name) == field.name
  {
    TrimLeavesTrimmed(field.name);
  }

  lemma ComponentForFits(lib: Library, byName: FieldMap, field: Field, i: nat)
    requires KeepsWidgets(lib) && FieldFits(field) && field.name in byName && byName[field.name] == field
    ensures ComponentFits(byName, Cleaned(lib, ComponentFor(field), i))
  {
    FieldNamesAreTrimmed(field);
    EveryKindHasAWidget(field.Kind());
    TrimLeavesTrimmed("");
    assert lib.lower(WidgetFor(field.Kind())) == WidgetFor(field.Kind());
  }

  lemma {:induction false} MapFinds(fields: seq<Field>, i: nat)
    requires NamesApart(fields) && i < |fields|
    ensures fields[i].name in MapOf(fields) && MapOf(fields)[fields[i].name] == fields[i]
  {
    if i < |fields| - 1 {
      assert fields[..|fields| - 1][i] == fields[i];
      MapFinds(fields[..|fields| - 1], i);
    }
  }

  /** The components are about the fields, each of them once, and ask for nothing. */
  ghost predicate Covers(fields: seq<Field>, components: seq<Component>) {
    && |NamesOf(components)| == |fields| && Asked(components) == {} && Distinct(NamesOf(components))
    && forall i :: 0 <= i < |fields| ==> NamesOf(components)[i] == fields[i].name
  }

  lemma NamesOfNext(components: seq<Component>, c: Component)
    ensures NamesOf(components + [c]) == NamesOf(components) + [TrimSpace(c.fieldName)]
    ensures Asked(components + [c]) == Asked(components) + if c.required then {TrimSpace(c.fieldName)} else {}
  {
    assert (components + [c])[..|components|] == components;
  }

  lemma DistinctNext(names: seq<string>, name: string)
    requires Distinct(names) && name !in names
    ensures Distinct(names + [name])
  {
    assert (names + [name])[..|names|] == names;
  }

  lemma CoversNext(front: seq<Field>, components: seq<Component>, field: Field)
    requires Covers(front, components) && FieldFits(field) && forall i :: 0 <= i < |front|
                                                               ==> front[i].name != field.name
    ensures Covers(front + [field], components + [ComponentFor(field)])
  {
    FieldNamesAreTrimmed(field);
    NamesOfNext(components, ComponentFor(field));
    assert field.name !in NamesOf(components);
    DistinctNext(NamesOf(components), field.name);
  }

  lemma FitsNext(lib: Library, byName: FieldMap, components: seq<Component>, c: Component)
    requires AllComponentsFit(lib, byName, components) && ComponentFits(byName, Cleaned(lib, c, |components|))
    ensures AllComponentsFit(lib, byName, components + [c])
  {
    assert (components + [c])[..|components|] == components;
  }

  /** One component for each of the first `n` fields. */
  ghost predicate Fills(lib: Library, fields: seq<Field>, n: nat, components: seq<Component>)
    requires n <= |fields|
  {
    |components| == n && Covers(fields[..n], components) && AllComponentsFit(lib, MapOf(fields), components)
  }

  lemma OneMoreCovered(fields: seq<Field>, n: nat, components: seq<Component>)
    requires FitTogether(fields) && n < |fields| && Covers(fields[..n], components)
    ensures Covers(fields[..n + 1], components + [ComponentFor(fields[n])])
  {
    assert FieldFits(fields[n]);
    forall i | 0 <= i < n ensures fields[..n][i].name != fields[n].name {
      assert fields[..n][i] == fields[i];
    }
    CoversNext(fields[..n], components, fields[n]);
    assert fields[..n + 1] == fields[..n] + [fields[n]];
  }

  lemma OneMoreFits(lib: Library, fields: seq<Field>, n: nat, components: seq<Component>)
    requires KeepsWidgets(lib) && FitTogether(fields) && n < |fields|
    requires |components| == n && AllComponentsFit(lib, MapOf(fields), components)
    ensures AllComponentsFit(lib, MapOf(fields), components + [ComponentFor(fields[n])])
  {
    MapFinds(fields, n);
    ComponentForFits(lib, MapOf(fields), fields[n], n);
    FitsNext(lib, MapOf(fields), components, ComponentFor(fields[n]));
  }

  lemma {:induction false} CompleteForm(lib: Library, fields: seq<Field>, n: nat) returns (components: seq<Component>)
    requires KeepsWidgets(lib) && FitTogether(fields) && n <= |fields|
    ensures Fills(lib, fields, n, components)
  {
    if n == 0 {
      components := [];
    } else {
      components := CompleteForm(lib, fields, n - 1);
      OneMoreCovered(fields, n - 1, components);
      OneMoreFits(lib, fields, n - 1, components);
      components := components + [ComponentFor(fields[n - 1])];
    }
  }

  lemma CompleteFormIsAccepted(lib: Library, fields: seq<Field>, components: seq<Component>)
    requires 1 <= |fields| <= 100 && Fills(lib, fields, |fields|, components)
    ensures Generated(lib, fields, components).Form?
  {
    FormMeaning(lib, MapOf(fields), components);
  }

  lemma CompleteFormAsksForAll(lib: Library, fields: seq<Field>, components: seq<Component>, raw: Values)
    requires Fills(lib, fields, |fields|, components)
    ensures LeavesNothingOut(fields, raw, components) && AsksForNothingMissing(fields, raw, components)
  {
    assert fields[..|fields|] == fields;
    forall i | 0 <= i < |fields| ensures fields[i].name in NamesOf(components) {
      assert NamesOf(components)[i] == fields[i].name;
    }
  }

  /** For every accepted entity there is a form that is accepted, and whatever the entity
      accepts as a record, defaults filled in, satisfies its schema as a whole. */
  lemma EveryEntityHasACompleteForm(lib: Library, fields: seq<Field>) returns (components: seq<Component>)
    requires FieldsFit(fields) && KeepsWidgets(lib)
    ensures Generated(lib, fields, components).Form?
    ensures forall raw :: Record(lib, fields, raw).Accepted? ==>
      ObjectSatisfies(Generated(lib, fields, components), Record(lib, fields, raw).values)
  {
    components := CompleteForm(lib, fields, |fields|);
    CompleteFormIsAccepted(lib, fields, components);
    forall raw | Record(lib, fields, raw).Accepted?
      ensures ObjectSatisfies(Generated(lib, fields, components), Record(lib, fields, raw).values)
    {
      CompleteFormAsksForAll(lib, fields, components, raw);
      WholeObjectExactly(lib, fields, raw, components);
    }
  }
}
