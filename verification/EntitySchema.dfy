/** Entity definitions: what a field list must satisfy before it is stored, and the
    normalised form in which it is stored. Values are decoded JSON. */
module EntitySchema {
  import opened Text

  datatype Value =
    | Null
    | Num(number: real)
    | Bool(flag: bool)
    | Str(text: string)
    | Arr(items: seq<Value>)
    | Obj(members: map<string, Value>)

  /** Library calls taken as given. */
  datatype Library = Library(
    lower: string -> string,
    isDate: string -> bool,
    isDateTime: string -> bool,
    isEmail: string -> bool,
    isUrl: string -> bool,
    printsAsMoney: real -> bool)

  datatype Kind =
    | String | LongText | Number | Boolean | Date | DateTime | Select | MultiSelect
    | Money | Email | Url | User | Image | Attachment | Unsupported

  /** The supported types. */
  const KINDS: seq<(string, Kind)> := [
    ("string", String), ("text", LongText), ("number", Number), ("boolean", Boolean), ("date", Date),
    ("datetime", DateTime), ("select", Select), ("multiselect", MultiSelect), ("money", Money), ("email", Email),
    ("url", Url), ("user", User), ("image", Image), ("attachment", Attachment)]

  function KindNamed(name: string, kinds: seq<(string, Kind)>): Kind {
    if kinds == [] then Unsupported else if kinds[0].0 == name then kinds[0].1 else KindNamed(name, kinds[1..])
  }

  function KindOf(name: string): Kind {
    KindNamed(name, KINDS)
  }

  /** Null is Go's nil: no default. */
  datatype Field = Field(
    name: string, caption: string, typ: string, required: bool,
    default: Value, options: seq<string>, position: nat)
  {
    function Kind(): Kind { KindOf(typ) }
  }

  datatype Entity = Entity(name: string, slug: string, description: string)

  // ---- Strings --------------------------------------------------------------------

  function Width(c: char): nat {
    if c < '\U{0080}' then 1 else if c < '\U{0800}' then 2 else if c < '\U{10000}' then 3 else 4
  }

  /** The length in bytes. */
  function ByteLen(s: string): nat {
    if s == "" then 0 else Width(s[0]) + ByteLen(s[1..])
  }

  predicate LowerLetter(c: char) { 'a' <= c <= 'z' }

  predicate LowerOrDigit(c: char) { LowerLetter(c) || '0' <= c <= '9' }

  predicate IsSlug(s: string) {
    && 3 <= |s| <= 80 && LowerLetter(s[0]) && LowerOrDigit(s[|s| - 1])
    && forall i :: 0 < i < |s| - 1 ==> LowerOrDigit(s[i]) || s[i] == '-'
  }

  predicate IsFieldName(s: string) {
    && 2 <= |s| <= 64 && LowerLetter(s[0])
    && forall i :: 0 < i < |s| ==> LowerOrDigit(s[i]) || s[i] == '_'
  }

  const RESERVED := ["id", "tenant_id", "created_at", "updated_at", "deleted_at"]

  // ---- Fields ----------------------------------------------------------------------

  predicate TakesOptions(kind: Kind) {
    kind.Select? || kind.MultiSelect?
  }

  predicate OptionFits(option: string) {
    TrimSpace(option) != "" && ByteLen(TrimSpace(option)) <= 120
  }

  predicate TrimmedApart(options: seq<string>) {
    forall i, j :: 0 <= i < j < |options| ==> TrimSpace(options[i]) != TrimSpace(options[j])
  }

  /** Options are checked trimmed, but kept and compared as they were written. */
  predicate OptionsFit(field: Field) {
    && (if TakesOptions(field.Kind()) then 1 <= |field.options| <= 100 else field.options == [])
    && (forall i :: 0 <= i < |field.options| ==> OptionFits(field.options[i]))
    && TrimmedApart(field.options)
  }

  predicate IsOption(v: Value, options: seq<string>) {
    v.Str? && v.text in options
  }

  predicate AllOptions(v: Value, options: seq<string>) {
    v.Arr? && forall i :: 0 <= i < |v.items| ==> IsOption(v.items[i], options)
  }

  predicate DefaultFits(field: Field) {
    field.default.Null? ||
    match field.Kind()
    case Number => field.default.Num?
    case Money => field.default.Num?
    case Boolean => field.default.Bool?
    case MultiSelect => AllOptions(field.default, field.options)
    case Select => IsOption(field.default, field.options)
    case _ => field.default.Str?
  }

  predicate FieldFits(field: Field) {
    && IsFieldName(field.name) && field.name !in RESERVED
    && 1 <= ByteLen(field.caption) <= 120
    && !field.Kind().Unsupported?
    && OptionsFit(field) && DefaultFits(field)
  }

  predicate NamesApart(fields: seq<Field>) {
    forall i, j :: 0 <= i < j < |fields| ==> fields[i].name != fields[j].name
  }

  predicate AllFit(fields: seq<Field>) {
    forall i :: 0 <= i < |fields| ==> FieldFits(fields[i])
  }

  predicate EntityFits(entity: Entity) {
    2 <= ByteLen(entity.name) <= 120 && IsSlug(entity.slug) && ByteLen(entity.description) <= 500
  }

  predicate FitTogether(fields: seq<Field>) {
    AllFit(fields) && NamesApart(fields)
  }

  predicate FieldsFit(fields: seq<Field>) {
    1 <= |fields| <= 100 && FitTogether(fields)
  }

  function Trimmed(lib: Library, field: Field): Field {
    field.(name := lib.lower(TrimSpace(field.name)), caption := TrimSpace(field.caption),
      typ := lib.lower(TrimSpace(field.typ)))
  }

  function Normalized(lib: Library, fields: seq<Field>): (r: seq<Field>)
    ensures |r| == |fields| && forall i :: 0 <= i < |r| ==> r[i] == Trimmed(lib, fields[i]).(position := i)
  {
    if fields == [] then [] else
      var n := |fields| - 1;
      Normalized(lib, fields[..n]) + [Trimmed(lib, fields[n]).(position := n)]
  }

  // ---- Validation ----------------------------------------------------------------------

  function TrimmedSet(options: seq<string>): set<string> {
    set i | 0 <= i < |options| :: TrimSpace(options[i])
  }

  lemma OneMoreOption(options: seq<string>, i: nat)
    requires i < |options| && TrimmedApart(options[..i])
    ensures TrimSpace(options[i]) !in TrimmedSet(options[..i]) <==> TrimmedApart(options[..i + 1])
    ensures TrimmedApart(options) ==> TrimmedApart(options[..i + 1])
    ensures TrimmedSet(options[..i + 1]) == TrimmedSet(options[..i]) + {TrimSpace(options[i])}
  {
    var front, more := options[..i], options[..i + 1];
    assert more == front + [options[i]];
    if TrimSpace(options[i]) in TrimmedSet(front) {
      var j :| 0 <= j < |front| && TrimSpace(front[j]) == TrimSpace(options[i]);
      assert TrimSpace(more[j]) == TrimSpace(more[i]);
    }
    assert TrimSpace(more[i]) in TrimmedSet(more);
    forall s | s in TrimmedSet(front) ensures s in TrimmedSet(more) {
      var j :| 0 <= j < |front| && TrimSpace(front[j]) == s;
      assert TrimSpace(more[j]) == s;
    }
  }

  method ValidateFieldOptions(field: Field) returns (ok: bool)
    ensures ok == OptionsFit(field)
    ensures ok ==> if field.Kind() in {Select, MultiSelect} then 1 <= |field.options| <= 100 else field.options == []
    ensures ok ==> forall i :: 0 <= i < |field.options| ==>
      !AllSpace(field.options[i]) && ByteLen(TrimSpace(field.options[i])) <= 120
  {
    var options := field.options;
    if TakesOptions(field.Kind()) && (|field.options| == 0 || |field.options| > 100) {
      return false;
    }
    if !TakesOptions(field.Kind()) && |field.options| > 0 {
      return false;
    }
    var seen: set<string> := {};
    var i := 0;
    while i < |options|
      invariant 0 <= i <= |options|
      invariant forall j :: 0 <= j < i ==> OptionFits(options[j])
      invariant seen == TrimmedSet(options[..i])
      invariant TrimmedApart(options[..i])
    {
      var value := TrimSpace(options[i]);
      OneMoreOption(options, i);
      if value == "" || ByteLen(value) > 120 || value in seen {
        return false;
      }
      seen := seen + {value};
      i := i + 1;
    }
    assert options[..i] == options;
    forall j | 0 <= j < |options| ensures !AllSpace(options[j]) { TrimEmptyIffBlank(options[j]); }
    return true;
  }

  method ValidateDefault(field: Field) returns (ok: bool)
    ensures ok == DefaultFits(field)
  {
    if field.default.Null? {
      return true;
    }
    match field.Kind()
    case Number => return field.default.Num?;
    case Money => return field.default.Num?;
    case Boolean => return field.default.Bool?;
    case MultiSelect =>
      if !field.default.Arr? {
        return false;
      }
      var i := 0;
      while i < |field.default.items|
        invariant 0 <= i <= |field.default.items|
        invariant forall j :: 0 <= j < i ==> IsOption(field.default.items[j], field.options)
      {
        if !IsOption(field.default.items[i], field.options) {
          return false;
        }
        i := i + 1;
      }
      return true;
    case Select => return IsOption(field.default, field.options);
    case _ => return field.default.Str?;
  }

  method ValidateField(field: Field, seen: set<string>) returns (ok: bool)
    ensures ok == (FieldFits(field) && field.name !in seen)
  {
    if !IsFieldName(field.name) || field.name in RESERVED || field.name in seen {
      return false;
    }
    if ByteLen(field.caption) < 1 || ByteLen(field.caption) > 120 || field.Kind().Unsupported? {
      return false;
    }
    ok := ValidateFieldOptions(field);
    if ok {
      ok := ValidateDefault(field);
    }
  }

  function NameSet(fields: seq<Field>): set<string> {
    set i | 0 <= i < |fields| :: fields[i].name
  }

  /** One more field fits exactly when it fits by itself and its name is new. */
  lemma OneMoreFits(all: seq<Field>, i: nat)
    requires i < |all| && FitTogether(all[..i])
    ensures (FieldFits(all[i]) && all[i].name !in NameSet(all[..i])) == FitTogether(all[..i + 1])
    ensures NameSet(all[..i + 1]) == NameSet(all[..i]) + {all[i].name}
  {
    var front, more := all[..i], all[..i + 1];
    assert more == front + [all[i]];
    if all[i].name in NameSet(front) {
      var j :| 0 <= j < |front| && front[j].name == all[i].name;
      assert more[j].name == more[i].name;
    }
    assert NameSet(more) == NameSet(front) + {all[i].name} by {
      assert more[i].name in NameSet(more);
      forall n | n in NameSet(front) ensures n in NameSet(more) {
        var j :| 0 <= j < |front| && front[j].name == n;
        assert more[j].name == n;
      }
    }
  }

  /** A field that does not fit spoils every list that goes on from it. */
  lemma OneMisfitSpoils(all: seq<Field>, i: nat)
    requires i < |all| && !FitTogether(all[..i + 1])
    ensures !FitTogether(all)
  {
    var more := all[..i + 1];
    if !AllFit(more) {
      var k :| 0 <= k < |more| && !FieldFits(more[k]);
      assert all[k] == more[k];
    } else {
      var j, k :| 0 <= j < k < |more| && more[j].name == more[k].name;
      assert all[j].name == all[k].name;
    }
  }

  method ValidateEntitySchema(lib: Library, entity: Entity, fields: seq<Field>) returns (ok: bool)
    ensures ok == (EntityFits(entity) && FieldsFit(Normalized(lib, fields)))
  {
    if !EntityFits(entity) || |fields| == 0 || |fields| > 100 {
      return false;
    }
    ok := ValidateFields(lib, fields);
  }

  method ValidateFields(lib: Library, fields: seq<Field>) returns (ok: bool)
    ensures ok == FitTogether(Normalized(lib, fields))
  {
    ghost var all := Normalized(lib, fields);
    var seen: set<string> := {};
    var i := 0;
    while i < |fields|
      invariant 0 <= i <= |fields|
      invariant FitTogether(all[..i])
      invariant seen == NameSet(all[..i])
    {
      var field := Trimmed(lib, fields[i]);
      SameFit(field, i);
      OneMoreFits(all, i);
      ok := ValidateField(field, seen);
      if !ok {
        OneMisfitSpoils(all, i);
        return;
      }
      seen := seen + {field.name};
      i := i + 1;
    }
    assert all[..i] == all;
    return true;
  }

  lemma SameFit(field: Field, position: nat)
    ensures FieldFits(field.(position := position)) == FieldFits(field)
  {
  }

  method NormalizeInPlace(lib: Library, fields: array<Field>)
    modifies fields
    ensures fields[..] == Normalized(lib, old(fields[..]))
  {
    var i := 0;
    while i < fields.Length
      invariant 0 <= i <= fields.Length
      invariant forall j :: 0 <= j < i ==> fields[j] == Trimmed(lib, old(fields[j])).(position := j)
      invariant forall j :: i <= j < fields.Length ==> fields[j] == old(fields[j])
    {
      fields[i] := Trimmed(lib, fields[i]).(position := i);
      i := i + 1;
    }
  }

  /** Defining an entity rewrites its fields in place, and only when they are accepted. */
  method Define(lib: Library, entity: Entity, fields: array<Field>) returns (stored: bool, clean: Entity)
    modifies fields
    ensures clean == Entity(TrimSpace(entity.name), lib.lower(TrimSpace(entity.slug)), TrimSpace(entity.description))
    ensures stored == (EntityFits(clean) && FieldsFit(Normalized(lib, old(fields[..]))))
    ensures fields[..] == if stored then Normalized(lib, old(fields[..])) else old(fields[..])
    ensures stored ==> forall i :: 0 <= i < fields.Length ==>
      var f := old(fields[..])[i];
      fields[i] == f.(name := lib.lower(TrimSpace(f.name)), caption := TrimSpace(f.caption),
                      typ := lib.lower(TrimSpace(f.typ)), position := i)
  {
    clean := Entity(TrimSpace(entity.name), lib.lower(TrimSpace(entity.slug)), TrimSpace(entity.description));
    stored := ValidateEntitySchema(lib, clean, fields[..]);
    if stored {
      NormalizeInPlace(lib, fields);
    }
  }
}
