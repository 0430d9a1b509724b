/**
 * A small interpreter for the declarative validation rules the component
 * builds with voluptuous: `vol.Schema({...})` over dictionaries, `vol.In`,
 * `vol.Any(str, int, None)`, `vol.All(cv.ensure_list, [S])` and the Home
 * Assistant validators `cv.string`, `cv.positive_int`, `bool` and
 * `cv.SCRIPT_SCHEMA`.  A schema either yields the validated structure (with
 * defaults filled in and values coerced) or an error.
 */
module Schema {
  import opened Wrappers
  import opened JsonValues

  /** Why a value was rejected (voluptuous' `vol.Invalid`). */
  datatype Invalid =
    | ExpectedString
    | ExpectedBool
    | ExpectedInt
    | BelowMinimum
    | NotAllowedValue
    | ExpectedDictionary
    | ExpectedIdValue
    | RequiredKeyMissing(key: string)
    | ExtraKeysNotAllowed

  datatype Result<+T> = Ok(value: T) | Err(error: Invalid)

  datatype Validator =
    | Str                                    // cv.string
    | Boolean                                // the Python type `bool`
    | NonNegativeInt                         // cv.positive_int: Coerce(int), Range(min=0)
    | OneOf(choices: set<string>)            // vol.In([...])
    | IdValue                                // vol.Any(str, int, None)
    | Script                                 // cv.SCRIPT_SCHEMA
    | ListOf(item: Validator)                // vol.All(cv.ensure_list, [item])
    | Dict(fields: seq<Field>, allowExtra: bool)  // vol.Schema({...}, extra=...)

  /** One key of a dictionary schema: `vol.Required(key, default=...)` when
      `required`, `vol.Optional(key, default=...)` otherwise. */
  datatype Field = Field(key: string, required: bool, default: Option<Json>, value: Validator)

  function KeysOf(fields: seq<Field>): (keys: set<string>)
  {
    set i | 0 <= i < |fields| :: fields[i].key
  }

  /** No key is declared twice in a dictionary schema. */
  predicate DistinctKeys(fields: seq<Field>)
  {
    forall i, j :: 0 <= i < j < |fields| ==> fields[i].key != fields[j].key
  }

  /** Whether one declared key is acceptable in `data`: a present key must
      validate; an absent one needs a default or must be optional. */
  predicate FieldAccepts(f: Field, data: map<string, Json>)
  {
    if f.key in data then Validate(f.value, data[f.key]).Ok?
    else f.default.Some? || !f.required
  }

  function Validate(v: Validator, j: Json): (r: Result<Json>)
    decreases v, 1, 0
  {
    match v
    case Str =>
      if StringCoercible(j) then Ok(JStr(CoercedString(j))) else Err(ExpectedString)
    case Boolean =>
      if j.JBool? then Ok(j) else Err(ExpectedBool)
    case NonNegativeInt =>
      // `vol.Coerce(int)` turns `True`/`False` into 1/0 before the range check.
      if j.JBool? then Ok(JInt(if j.b then 1 else 0))
      else if !j.JInt? then Err(ExpectedInt)
      else if j.i < 0 then Err(BelowMinimum)
      else Ok(j)
    case OneOf(choices) =>
      if j.JStr? && j.s in choices then Ok(j) else Err(NotAllowedValue)
    case IdValue =>
      // `bool` is a subclass of `int` in Python, so `True`/`False` pass `int`.
      if j.JStr? || j.JInt? || j.JBool? || j.JNull? then Ok(j) else Err(ExpectedIdValue)
    case Script =>
      // Every script step must be a dictionary; the steps' own schema is
      // Home Assistant's and is not part of this model.
      var steps := EnsureList(j);
      if forall k :: 0 <= k < |steps| ==> steps[k].JObj? then Ok(JList(steps))
      else Err(ExpectedDictionary)
    case ListOf(item) =>
      (match ValidateEach(item, EnsureList(j))
       case Ok(xs) => Ok(JList(xs))
       case Err(e) => Err(e))
    case Dict(fields, allowExtra) =>
      if !j.JObj? then Err(ExpectedDictionary)
      else if !allowExtra && !(j.fields.Keys <= KeysOf(fields)) then Err(ExtraKeysNotAllowed)
      else
        match ValidateFields(v, 0, j.fields)
        case Ok(declared) => Ok(JObj(Extras(fields, allowExtra, j.fields) + declared))
        case Err(e) => Err(e)
  }

  /** The undeclared keys a schema passes through unchanged
      (`extra=vol.ALLOW_EXTRA`); none otherwise. */
  function Extras(fields: seq<Field>, allowExtra: bool, data: map<string, Json>): (m: map<string, Json>)
  {
    if allowExtra then map k | k in data && k !in KeysOf(fields) :: data[k] else map[]
  }

  /** Validates every item of a list against `item`; one bad item rejects the
      whole list. */
  function ValidateEach(item: Validator, xs: seq<Json>): (r: Result<seq<Json>>)
    ensures r.Ok? <==> forall k :: 0 <= k < |xs| ==> Validate(item, xs[k]).Ok?
    ensures r.Ok? ==> |r.value| == |xs|
    ensures r.Ok? ==> forall k :: 0 <= k < |xs| ==> Validate(item, xs[k]) == Ok(r.value[k])
    decreases item, 2, |xs|
  {
    if xs == [] then Ok([])
    else
      match Validate(item, xs[0])
      case Err(e) => Err(e)
      case Ok(x) =>
        match ValidateEach(item, xs[1..])
        case Err(e) => Err(e)
        case Ok(rest) => Ok([x] + rest)
  }

  /** Validates the declared keys `fields[k..]` of a dictionary schema and
      returns the validated values together with the defaults it fills in. */
  function ValidateFields(v: Validator, k: nat, data: map<string, Json>): (r: Result<map<string, Json>>)
    requires v.Dict? && k <= |v.fields|
    ensures r.Ok? <==> forall i :: k <= i < |v.fields| ==> FieldAccepts(v.fields[i], data)
    ensures r.Ok? ==> forall key :: key in r.value <==>
      exists i :: k <= i < |v.fields| && v.fields[i].key == key && (key in data || v.fields[i].default.Some?)
    decreases v, 0, |v.fields| - k
  {
    if k == |v.fields| then Ok(map[])
    else
      var f := v.fields[k];
      match ValidateFields(v, k + 1, data)
      case Err(e) => Err(e)
      case Ok(rest) =>
        if f.key in data then
          match Validate(f.value, data[f.key])
          case Err(e) => Err(e)
          case Ok(x) => Ok(rest[f.key := x])
        else if f.default.Some? then Ok(rest[f.key := f.default.value])
        else if f.required then Err(RequiredKeyMissing(f.key))
        else Ok(rest)
  }

  /** A dictionary schema accepts exactly the dictionaries whose declared keys
      are all acceptable and, unless extras are allowed, that have no other key. */
  lemma DictAccepts(fields: seq<Field>, allowExtra: bool, j: Json)
    ensures Validate(Dict(fields, allowExtra), j).Ok? <==>
      && j.JObj?
      && (allowExtra || j.fields.Keys <= KeysOf(fields))
      && forall i :: 0 <= i < |fields| ==> FieldAccepts(fields[i], j.fields)
  {
    var v := Dict(fields, allowExtra);
    if j.JObj? && (allowExtra || j.fields.Keys <= KeysOf(fields)) {
      var r := ValidateFields(v, 0, j.fields);
      assert r.Ok? <==> forall i :: 0 <= i < |fields| ==> FieldAccepts(fields[i], j.fields);
    }
  }

  /** The value a declared key gets in the validated output of
      `ValidateFields(v, k, data)`, for a key declared at `i >= k`. */
  lemma {:induction false} FieldsValueAt(v: Validator, k: nat, data: map<string, Json>, i: nat)
    requires v.Dict? && k <= i < |v.fields| && DistinctKeys(v.fields)
    requires ValidateFields(v, k, data).Ok?
    ensures var out := ValidateFields(v, k, data).value; var f := v.fields[i];
      && (f.key in data ==> f.key in out && Validate(f.value, data[f.key]) == Ok(out[f.key]))
      && (f.key !in data && f.default.Some? ==> f.key in out && out[f.key] == f.default.value)
    decreases |v.fields| - k
  {
    var f := v.fields[k];
    var rest := ValidateFields(v, k + 1, data);
    assert rest.Ok?;
    var out := ValidateFields(v, k, data).value;
    assert out == (if f.key in data then rest.value[f.key := Validate(f.value, data[f.key]).value]
                   else if f.default.Some? then rest.value[f.key := f.default.value]
                   else rest.value);
    if k < i {
      FieldsValueAt(v, k + 1, data, i);
      assert f.key != v.fields[i].key;
    }
  }

  /** What a validated dictionary holds under a declared key: the validated
      value when the key was given, the default when it was not, nothing
      when it was neither given nor defaulted. */
  lemma DictField(fields: seq<Field>, allowExtra: bool, j: Json, i: nat)
    requires DistinctKeys(fields) && i < |fields|
    requires Validate(Dict(fields, allowExtra), j).Ok?
    ensures var out := Validate(Dict(fields, allowExtra), j).value; var f := fields[i];
      && j.JObj? && out.JObj?
      && (f.key in j.fields ==> f.key in out.fields && Validate(f.value, j.fields[f.key]) == Ok(out.fields[f.key]))
      && (f.key !in j.fields && f.default.Some? ==> f.key in out.fields && out.fields[f.key] == f.default.value)
      && (f.key !in j.fields && f.default.None? ==> f.key !in out.fields)
  {
    var v := Dict(fields, allowExtra);
    var declared := ValidateFields(v, 0, j.fields).value;
    FieldsValueAt(v, 0, j.fields, i);
    var f := fields[i];
    if f.key !in j.fields && f.default.None? {
      assert forall i' :: 0 <= i' < |fields| && fields[i'].key == f.key ==> i' == i;
    }
  }

  /** With `extra=vol.ALLOW_EXTRA`, an undeclared key is passed through with
      its value unchanged. */
  lemma DictExtra(fields: seq<Field>, j: Json, key: string)
    requires Validate(Dict(fields, true), j).Ok?
    requires j.JObj? && key in j.fields && key !in KeysOf(fields)
    ensures var out := Validate(Dict(fields, true), j).value;
      out.JObj? && key in out.fields && out.fields[key] == j.fields[key]
  {
    var declared := ValidateFields(Dict(fields, true), 0, j.fields).value;
    assert forall i :: 0 <= i < |fields| ==> fields[i].key != key;
  }
}
