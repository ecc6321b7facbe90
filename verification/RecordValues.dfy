/** What a record may hold: the check of each value against its field, and the values
    that are stored, defaults included. */
module RecordValues {
  import opened Text
  import opened EntitySchema

  type Values = map<string, Value>

  datatype Stored = Accepted(values: Values) | Invalid

  predicate NotBlank(v: Value) {
    v.Str? && TrimSpace(v.text) != ""
  }

  predicate ValueFits(lib: Library, field: Field, v: Value) {
    match field.Kind()
    case Number => v.Num?
    case Money => v.Num? && lib.printsAsMoney(v.number)
    case Boolean => v.Bool?
    case Date => v.Str? && lib.isDate(v.text)
    case DateTime => v.Str? && lib.isDateTime(v.text)
    case Select => IsOption(v, field.options)
    case MultiSelect => AllOptions(v, field.options)
    case Email => v.Str? && lib.isEmail(v.text)
    case Url => v.Str? && lib.isUrl(v.text)
    case _ => NotBlank(v)
  }

  /** A value counts as given unless it is missing, null or the empty string. */
  predicate Given(field: Field, raw: Values) {
    field.name in raw && raw[field.name] != Null && raw[field.name] != Str("")
  }

  /** One field's turn. */
  function Fill(lib: Library, before: Stored, field: Field, raw: Values): Stored {
    if before.Invalid? then Invalid
    else if Given(field, raw) then
      if ValueFits(lib, field, raw[field.name]) then Accepted(before.values[field.name := raw[field.name]]) else Invalid
    else if !field.default.Null? then Accepted(before.values[field.name := field.default])
    else if field.required then Invalid
    else before
  }

  function FillAll(lib: Library, fields: seq<Field>, raw: Values): Stored {
    if fields == [] then Accepted(map[]) else
      Fill(lib, FillAll(lib, fields[..|fields| - 1], raw), fields[|fields| - 1], raw)
  }

  function Names(fields: seq<Field>): set<string> {
    set i | 0 <= i < |fields| :: fields[i].name
  }

  function Record(lib: Library, fields: seq<Field>, raw: Values): Stored {
    if raw.Keys <= Names(fields) then FillAll(lib, fields, raw) else Invalid
  }

  method ValidateValue(lib: Library, field: Field, v: Value) returns (ok: bool)
    ensures ok == ValueFits(lib, field, v)
  {
    match field.Kind()
    case Number => return v.Num?;
    case Money => return v.Num? && lib.printsAsMoney(v.number);
    case Boolean => return v.Bool?;
    case Date => return v.Str? && lib.isDate(v.text);
    case DateTime => return v.Str? && lib.isDateTime(v.text);
    case Select => return v.Str? && v.text in field.options;
    case MultiSelect =>
      if !v.Arr? {
        return false;
      }
      var i := 0;
      while i < |v.items|
        invariant 0 <= i <= |v.items|
        invariant forall j :: 0 <= j < i ==> IsOption(v.items[j], field.options)
      {
        if !IsOption(v.items[i], field.options) {
          return false;
        }
        i := i + 1;
      }
      return true;
    case Email => return v.Str? && lib.isEmail(v.text);
    case Url => return v.Str? && lib.isUrl(v.text);
    case _ => return NotBlank(v);
  }

  lemma {:induction false} InvalidStays(lib: Library, fields: seq<Field>, raw: Values, i: nat)
    requires i <= |fields| && FillAll(lib, fields[..i], raw).Invalid?
    ensures FillAll(lib, fields, raw).Invalid?
  {
    if i < |fields| {
      var n := |fields| - 1;
      assert fields[..n][..i] == fields[..i];
      InvalidStays(lib, fields[..n], raw, i);
    } else {
      assert fields[..i] == fields;
    }
  }

  method ValidateRecord(lib: Library, fields: seq<Field>, raw: Values) returns (r: Stored)
    ensures r == Record(lib, fields, raw)
  {
    if !(raw.Keys <= Names(fields)) {
      return Invalid;
    }
    var values: Values := map[];
    var i := 0;
    while i < |fields|
      invariant 0 <= i <= |fields|
      invariant FillAll(lib, fields[..i], raw) == Accepted(values)
    {
      var field := fields[i];
      assert fields[..i + 1][..i] == fields[..i];
      var after := Fill(lib, Accepted(values), field, raw);
      assert FillAll(lib, fields[..i + 1], raw) == after;
      if !Given(field, raw) {
        if !field.default.Null? {
          values := values[field.name := field.default];
        } else if field.required {
          InvalidStays(lib, fields, raw, i + 1);
          return Invalid;
        }
      } else {
        var ok := ValidateValue(lib, field, raw[field.name]);
        if !ok {
          InvalidStays(lib, fields, raw, i + 1);
          return Invalid;
        }
        values := values[field.name := raw[field.name]];
      }
      i := i + 1;
    }
    assert fields[..i] == fields;
    return Accepted(values);
  }

  // ---- What is stored -----------------------------------------------------------------

  predicate Present(field: Field, raw: Values) {
    Given(field, raw) || !field.default.Null?
  }

  function Kept(field: Field, raw: Values): Value
    requires Present(field, raw)
  {
    if Given(field, raw) then raw[field.name] else field.default
  }

  predicate Acceptable(lib: Library, field: Field, raw: Values) {
    if Given(field, raw) then ValueFits(lib, field, raw[field.name]) else !field.default.Null? || !field.required
  }

  predicate AllAcceptable(lib: Library, fields: seq<Field>, raw: Values) {
    forall i :: 0 <= i < |fields| ==> Acceptable(lib, fields[i], raw)
  }

  predicate Holds(fields: seq<Field>, raw: Values, values: Values) {
    && (forall i :: 0 <= i < |fields| ==> (fields[i].name in values <==> Present(fields[i], raw)))
    && (forall i :: 0 <= i < |fields| && Present(fields[i], raw) ==> values[fields[i].name] == Kept(fields[i], raw))
    && (forall name :: name in values ==> name in Names(fields))
  }

  /** With distinct names, a record is accepted exactly when every field accepts what it
      was given or does without; and it then holds, for each field, the value given or
      the default, and nothing else. */
  lemma {:induction false} RecordHolds(lib: Library, fields: seq<Field>, raw: Values)
    requires NamesApart(fields)
    ensures FillAll(lib, fields, raw).Accepted? <==> AllAcceptable(lib, fields, raw)
    ensures FillAll(lib, fields, raw).Accepted? ==> Holds(fields, raw, FillAll(lib, fields, raw).values)
  {
    if fields != [] {
      var n := |fields| - 1;
      var front := fields[..n];
      RecordHolds(lib, front, raw);
      assert fields == front + [fields[n]];
      assert AllAcceptable(lib, fields, raw) <==> AllAcceptable(lib, front, raw) && Acceptable(lib, fields[n], raw);
      if FillAll(lib, fields, raw).Accepted? {
        OneMoreHolds(lib, front, fields[n], raw);
      }
    }
  }

  lemma OneMoreHolds(lib: Library, front: seq<Field>, field: Field, raw: Values)
    requires FillAll(lib, front, raw).Accepted? && Holds(front, raw, FillAll(lib, front, raw).values)
    requires forall i :: 0 <= i < |front| ==> front[i].name != field.name
    requires Fill(lib, FillAll(lib, front, raw), field, raw).Accepted?
    ensures Holds(front + [field], raw, Fill(lib, FillAll(lib, front, raw), field, raw).values)
  {
    var fields := front + [field];
    assert forall i :: 0 <= i < |front| ==> fields[i] == front[i];
    assert fields[|front|].name in Names(fields);
    forall name | name in Names(front) ensures name in Names(fields) {
      var i :| 0 <= i < |front| && front[i].name == name;
      assert fields[i].name == name;
    }
    assert field.name !in FillAll(lib, front, raw).values;
  }

  /** The value of a field that a stored record must show: what was given, unless that was
      null or the empty string, and otherwise the default. */
  function Shown(field: Field, raw: Values): Value {
    if field.name in raw && raw[field.name] != Null && raw[field.name] != Str("") then raw[field.name]
      else field.default
  }

  /** A stored record shows exactly its fields' values: nothing for a field that has neither,
      which is never a required one, and nothing the entity has no field for. */
  lemma StoredRecordShows(lib: Library, fields: seq<Field>, raw: Values, name: string)
    requires NamesApart(fields) && Record(lib, fields, raw).Accepted?
    ensures var values := Record(lib, fields, raw).values;
      && (name in raw || name in values ==> exists i :: 0 <= i < |fields| && fields[i].name == name)
      && forall i :: 0 <= i < |fields| && fields[i].name == name ==>
           && (name in values <==> Shown(fields[i], raw) != Null)
           && (name in values ==> values[name] == Shown(fields[i], raw))
           && (fields[i].required ==> name in values)
  {
    RecordHolds(lib, fields, raw);
    assert name in raw ==> name in raw.Keys;
  }
}
