/**
 * The validation schemas of the component (`CONDITION_SCHEMA`,
 * `BLUEPRINT_ACTION_SCHEMA`, `BLUEPRINT_BUTTON_SCHEMA`, `BLUEPRINT_SCHEMA`
 * and the three `SWITCH_MANAGER_CONFIG_*` schemas) written as values of the
 * schema language, and what each one guarantees about what it accepts.
 * Dictionary schemas reject undeclared keys (voluptuous' default) except
 * the save-config schema, which passes them through.
 */
module Schemas {
  import opened Wrappers
  import opened JsonValues
  import opened Schema

  /** The button shapes a blueprint may use. */
  const Shapes: set<string> := {"rect", "circle", "path"}
  const DefaultShape: string := "rect"

  /** Home Assistant's script modes (`SCRIPT_MODE_CHOICES`) and the default
      (`DEFAULT_SCRIPT_MODE`). */
  const ScriptModes: set<string> := {"parallel", "queued", "restart", "single"}
  const DefaultScriptMode: string := "single"

  const ConditionSchema: Validator := Dict([
    Field("key", true, None, Str),
    Field("value", true, None, Str)
  ], false)

  /** `vol.Optional('conditions'): vol.All(cv.ensure_list, [CONDITION_SCHEMA])` */
  const ConditionsField: Field := Field("conditions", false, None, ListOf(ConditionSchema))

  const TitleField: Field := Field("title", true, None, Str)

  const BlueprintActionSchema: Validator := Dict([TitleField, ConditionsField], false)

  const ActionsField: Field := Field("actions", true, None, ListOf(BlueprintActionSchema))
  const ShapeField: Field := Field("shape", false, Some(JStr(DefaultShape)), OneOf(Shapes))

  const BlueprintButtonSchema: Validator := Dict([
    ActionsField,
    ConditionsField,
    ShapeField,
    Field("x", false, None, NonNegativeInt),
    Field("y", false, None, NonNegativeInt),
    Field("width", false, None, NonNegativeInt),
    Field("height", false, None, NonNegativeInt),
    Field("d", false, None, Str)
  ], false)

  const ButtonsField: Field := Field("buttons", true, None, ListOf(BlueprintButtonSchema))

  const BlueprintSchema: Validator := Dict([
    Field("name", true, None, Str),
    Field("service", true, None, Str),
    Field("event_type", true, None, Str),
    Field("identifier_key", true, None, Str),
    ConditionsField,
    ButtonsField
  ], false)

  const ModeField: Field := Field("mode", true, Some(JStr(DefaultScriptMode)), OneOf(ScriptModes))
  const SequenceField: Field := Field("sequence", true, Some(JList([])), Script)

  const ConfigActionSchema: Validator := Dict([ModeField, SequenceField], false)

  const ConfigActionsField: Field := Field("actions", true, None, ListOf(ConfigActionSchema))

  const ConfigButtonSchema: Validator := Dict([ConfigActionsField], false)

  const IdField: Field := Field("id", true, Some(JNull), IdValue)
  const EnabledField: Field := Field("enabled", true, Some(JBool(true)), Boolean)
  const ConfigButtonsField: Field := Field("buttons", true, None, ListOf(ConfigButtonSchema))

  const ConfigSchema: Validator := Dict([
    IdField,
    Field("name", true, None, Str),
    EnabledField,
    Field("blueprint", true, None, Str),
    Field("identifier", true, None, Str),
    ConfigButtonsField
  ], true)

  /** The keys a blueprint definition must have. */
  predicate HasRequiredBlueprintKeys(m: map<string, Json>)
  {
    "name" in m && "service" in m && "event_type" in m && "identifier_key" in m && "buttons" in m
  }

  /** The keys `BLUEPRINT_SCHEMA` declares. */
  predicate DeclaredBlueprintKey(key: string)
  {
    key in {"name", "service", "event_type", "identifier_key", "conditions", "buttons"}
  }

  // ---------------------------------------------------------------------
  // Reference description of the structure a valid blueprint has.

  predicate ConditionsWellFormed(conditions: Json)
  {
    forall k :: 0 <= k < |EnsureList(conditions)| ==>
      var c := EnsureList(conditions)[k];
      c.JObj? && "key" in c.fields && "value" in c.fields
  }

  predicate ActionWellFormed(a: Json)
  {
    && a.JObj?
    && "title" in a.fields
    && ("conditions" in a.fields ==> ConditionsWellFormed(a.fields["conditions"]))
  }

  predicate ButtonWellFormed(b: Json)
  {
    && b.JObj?
    && "actions" in b.fields
    && (forall k :: 0 <= k < |EnsureList(b.fields["actions"])| ==> ActionWellFormed(EnsureList(b.fields["actions"])[k]))
    && ("conditions" in b.fields ==> ConditionsWellFormed(b.fields["conditions"]))
    && ("shape" in b.fields ==> b.fields["shape"].JStr? && b.fields["shape"].s in Shapes)
  }

  predicate BlueprintWellFormed(j: Json)
  {
    && j.JObj?
    && HasRequiredBlueprintKeys(j.fields)
    && ("conditions" in j.fields ==> ConditionsWellFormed(j.fields["conditions"]))
    && forall k :: 0 <= k < |EnsureList(j.fields["buttons"])| ==> ButtonWellFormed(EnsureList(j.fields["buttons"])[k])
  }

  /** A value `vol.Any(str, int, None)` accepts is passed through. */
  lemma IdResult(j: Json, r: Json)
    requires Validate(IdValue, j) == Ok(r)
    ensures r == j && (r.JStr? || r.JInt? || r.JBool? || r.JNull?)
  {}

  /** A value `vol.In` accepts is passed through and is one of the choices. */
  lemma ChoiceResult(choices: set<string>, j: Json, r: Json)
    requires Validate(OneOf(choices), j) == Ok(r)
    ensures r == j && r.JStr? && r.s in choices
  {}

  // ---------------------------------------------------------------------
  // The layout of each dictionary schema: which field sits where, and that
  // no key is declared twice.

  lemma ConditionLayout()
    ensures ConditionSchema.fields[0] == Field("key", true, None, Str)
    ensures ConditionSchema.fields[1] == Field("value", true, None, Str)
    ensures KeysOf(ConditionSchema.fields) == {"key", "value"}
  {}

  lemma ActionLayout()
    ensures BlueprintActionSchema.fields[0] == TitleField
    ensures BlueprintActionSchema.fields[1] == ConditionsField
  {}

  lemma ButtonLayout()
    ensures BlueprintButtonSchema.fields[0] == ActionsField
    ensures BlueprintButtonSchema.fields[1] == ConditionsField
    ensures BlueprintButtonSchema.fields[2] == ShapeField
    ensures DistinctKeys(BlueprintButtonSchema.fields)
    ensures ShapeField.key == "shape" && ShapeField.value == OneOf(Shapes)
    ensures ShapeField.default == Some(JStr(DefaultShape)) && DefaultShape in Shapes
  {}

  lemma BlueprintLayout()
    ensures BlueprintSchema.fields[0] == Field("name", true, None, Str)
    ensures BlueprintSchema.fields[1] == Field("service", true, None, Str)
    ensures BlueprintSchema.fields[2] == Field("event_type", true, None, Str)
    ensures BlueprintSchema.fields[3] == Field("identifier_key", true, None, Str)
    ensures BlueprintSchema.fields[4] == ConditionsField
    ensures BlueprintSchema.fields[5] == ButtonsField
    ensures DistinctKeys(BlueprintSchema.fields)
  {}

  lemma ConfigActionLayout()
    ensures ConfigActionSchema.fields[0] == ModeField
    ensures ConfigActionSchema.fields[1] == SequenceField
    ensures DistinctKeys(ConfigActionSchema.fields)
    ensures ModeField.key == "mode" && ModeField.value == OneOf(ScriptModes)
    ensures ModeField.default == Some(JStr(DefaultScriptMode)) && DefaultScriptMode in ScriptModes
    ensures SequenceField.key == "sequence" && SequenceField.value == Script
    ensures SequenceField.default == Some(JList([]))
  {}

  lemma ConfigLayout()
    ensures ConfigSchema.fields[0] == IdField
    ensures ConfigSchema.fields[1] == Field("name", true, None, Str)
    ensures ConfigSchema.fields[2] == EnabledField
    ensures ConfigSchema.fields[3] == Field("blueprint", true, None, Str)
    ensures ConfigSchema.fields[4] == Field("identifier", true, None, Str)
    ensures ConfigSchema.fields[5] == ConfigButtonsField
    ensures DistinctKeys(ConfigSchema.fields)
    ensures IdField.key == "id" && IdField.value == IdValue && IdField.default == Some(JNull)
    ensures EnabledField.key == "enabled" && EnabledField.value == Boolean && EnabledField.default == Some(JBool(true))
  {}

  // ---------------------------------------------------------------------
  // CONDITION_SCHEMA

  /** A condition is accepted exactly when it is a dictionary with the keys
      `key` and `value`, both string-like, and nothing else. */
  lemma ConditionAccepted(c: Json)
    ensures Validate(ConditionSchema, c).Ok? <==>
      && c.JObj? && c.fields.Keys == {"key", "value"}
      && StringCoercible(c.fields["key"]) && StringCoercible(c.fields["value"])
  {
    var fields := ConditionSchema.fields;
    ConditionLayout();
    DictAccepts(fields, false, c);
    if Validate(ConditionSchema, c).Ok? {
      assert FieldAccepts(fields[0], c.fields) && FieldAccepts(fields[1], c.fields);
    }
  }

  /** Every item of a list validated against `ConditionSchema` has both keys. */
  lemma ConditionListStructure(conditions: Json)
    requires Validate(ListOf(ConditionSchema), conditions).Ok?
    ensures ConditionsWellFormed(conditions)
  {
    var items := EnsureList(conditions);
    forall k | 0 <= k < |items|
      ensures items[k].JObj? && "key" in items[k].fields && "value" in items[k].fields
    {
      ConditionAccepted(items[k]);
    }
  }

  // ---------------------------------------------------------------------
  // BLUEPRINT_ACTION_SCHEMA and BLUEPRINT_BUTTON_SCHEMA

  lemma ActionStructure(a: Json)
    requires Validate(BlueprintActionSchema, a).Ok?
    ensures ActionWellFormed(a)
  {
    var fields := BlueprintActionSchema.fields;
    ActionLayout();
    DictAccepts(fields, false, a);
    assert FieldAccepts(fields[0], a.fields) && FieldAccepts(fields[1], a.fields);
    if "conditions" in a.fields {
      ConditionListStructure(a.fields["conditions"]);
    }
  }

  /** Every action of an accepted button is well formed. */
  lemma ButtonActionsStructure(b: Json)
    requires Validate(BlueprintButtonSchema, b).Ok?
    ensures b.JObj? && "actions" in b.fields
    ensures forall k :: 0 <= k < |EnsureList(b.fields["actions"])| ==> ActionWellFormed(EnsureList(b.fields["actions"])[k])
  {
    var fields := BlueprintButtonSchema.fields;
    ButtonLayout();
    DictAccepts(fields, false, b);
    assert FieldAccepts(fields[0], b.fields);
    var actions := EnsureList(b.fields["actions"]);
    forall k | 0 <= k < |actions| ensures ActionWellFormed(actions[k]) {
      ActionStructure(actions[k]);
    }
  }

  lemma ButtonStructure(b: Json)
    requires Validate(BlueprintButtonSchema, b).Ok?
    ensures ButtonWellFormed(b)
  {
    var fields := BlueprintButtonSchema.fields;
    ButtonActionsStructure(b);
    ButtonLayout();
    DictAccepts(fields, false, b);
    assert FieldAccepts(fields[1], b.fields);
    assert FieldAccepts(fields[2], b.fields);
    if "conditions" in b.fields {
      ConditionListStructure(b.fields["conditions"]);
    }
    if "shape" in b.fields {
      var shape := b.fields["shape"];
      ChoiceResult(Shapes, shape, Validate(OneOf(Shapes), shape).value);
    }
  }

  /** In a validated button the shape is always one of the allowed shapes:
      the given one, or `rect` when none was given. */
  lemma ButtonShape(b: Json, out: Json)
    requires Validate(BlueprintButtonSchema, b) == Ok(out)
    ensures out.JObj? && "shape" in out.fields
    ensures out.fields["shape"].JStr? && out.fields["shape"].s in Shapes
    ensures "shape" !in b.fields ==> out.fields["shape"] == JStr(DefaultShape)
    ensures "shape" in b.fields ==> out.fields["shape"] == b.fields["shape"]
  {
    var fields := BlueprintButtonSchema.fields;
    ButtonLayout();
    DictField(fields, false, b, 2);
    if "shape" in b.fields {
      ChoiceResult(Shapes, b.fields["shape"], out.fields["shape"]);
    } else {
      assert out.fields["shape"] == JStr(DefaultShape);
    }
  }

  // ---------------------------------------------------------------------
  // BLUEPRINT_SCHEMA

  /** A blueprint missing one of `name`, `service`, `event_type`,
      `identifier_key` or `buttons` is rejected. */
  lemma BlueprintRequiredKeys(j: Json)
    requires Validate(BlueprintSchema, j).Ok?
    ensures j.JObj? && HasRequiredBlueprintKeys(j.fields)
  {
    var fields := BlueprintSchema.fields;
    BlueprintLayout();
    DictAccepts(fields, false, j);
    assert FieldAccepts(fields[0], j.fields) && FieldAccepts(fields[1], j.fields);
    assert FieldAccepts(fields[2], j.fields) && FieldAccepts(fields[3], j.fields);
    assert FieldAccepts(fields[5], j.fields);
  }

  /** A blueprint is accepted only if it has the required keys, every button
      has `actions`, every action has a `title`, every condition has `key`
      and `value`, and every given shape is one of `rect`, `circle`, `path`. */
  lemma BlueprintStructure(j: Json)
    requires Validate(BlueprintSchema, j).Ok?
    ensures BlueprintWellFormed(j)
  {
    BlueprintRequiredKeys(j);
    var fields := BlueprintSchema.fields;
    BlueprintLayout();
    DictAccepts(fields, false, j);
    assert FieldAccepts(fields[4], j.fields) && FieldAccepts(fields[5], j.fields);
    var buttons := EnsureList(j.fields["buttons"]);
    forall k | 0 <= k < |buttons| ensures ButtonWellFormed(buttons[k]) {
      ButtonStructure(buttons[k]);
    }
    if "conditions" in j.fields {
      ConditionListStructure(j.fields["conditions"]);
    }
  }

  /** A blueprint with a key the schema does not declare is rejected. */
  lemma BlueprintUnknownKeyRejected(j: Json, key: string)
    requires j.JObj? && key in j.fields
    requires !DeclaredBlueprintKey(key)
    ensures Validate(BlueprintSchema, j).Err?
  {
    var fields := BlueprintSchema.fields;
    BlueprintLayout();
    DictAccepts(fields, false, j);
    assert forall i :: 0 <= i < |fields| ==> fields[i].key != key;
  }

  /** Every button of a validated blueprint carries a shape from `Shapes`. */
  lemma ValidatedBlueprintShapes(j: Json, out: Json)
    requires Validate(BlueprintSchema, j) == Ok(out)
    ensures out.JObj? && "buttons" in out.fields && out.fields["buttons"].JList?
    ensures forall k :: 0 <= k < |out.fields["buttons"].items| ==>
      var b := out.fields["buttons"].items[k];
      b.JObj? && "shape" in b.fields && b.fields["shape"].JStr? && b.fields["shape"].s in Shapes
  {
    var fields := BlueprintSchema.fields;
    BlueprintLayout();
    DictField(fields, false, j, 5);
    var given := EnsureList(j.fields["buttons"]);
    var validated := ValidateEach(BlueprintButtonSchema, given).value;
    assert out.fields["buttons"] == JList(validated);
    forall k | 0 <= k < |validated|
      ensures var b := validated[k];
        b.JObj? && "shape" in b.fields && b.fields["shape"].JStr? && b.fields["shape"].s in Shapes
    {
      ButtonShape(given[k], validated[k]);
    }
  }

  // ---------------------------------------------------------------------
  // SWITCH_MANAGER_CONFIG_SCHEMA and its parts

  /** A validated action always has a mode from `ScriptModes` (the default
      mode when none was given) and a list of steps (empty when none was
      given). */
  lemma ConfigActionDefaults(a: Json, out: Json)
    requires Validate(ConfigActionSchema, a) == Ok(out)
    ensures out.JObj? && "mode" in out.fields && "sequence" in out.fields
    ensures out.fields["mode"].JStr? && out.fields["mode"].s in ScriptModes
    ensures "mode" !in a.fields ==> out.fields["mode"] == JStr(DefaultScriptMode)
    ensures "sequence" !in a.fields ==> out.fields["sequence"] == JList([])
    ensures out.fields["sequence"].JList?
  {
    var fields := ConfigActionSchema.fields;
    ConfigActionLayout();
    DictField(fields, false, a, 0);
    DictField(fields, false, a, 1);
    if "mode" in a.fields {
      ChoiceResult(ScriptModes, a.fields["mode"], out.fields["mode"]);
    } else {
      assert out.fields["mode"] == JStr(DefaultScriptMode);
    }
    if "sequence" in a.fields {
      assert Validate(Script, a.fields["sequence"]) == Ok(out.fields["sequence"]);
    } else {
      assert out.fields["sequence"] == JList([]);
    }
  }

  /** The save-config schema demands `name`, `blueprint`, `identifier` and
      `buttons`, and the validated config has every declared key. */
  lemma ConfigRequiredKeys(j: Json, out: Json)
    requires Validate(ConfigSchema, j) == Ok(out)
    ensures j.JObj? && out.JObj?
    ensures "name" in j.fields && "blueprint" in j.fields && "identifier" in j.fields && "buttons" in j.fields
    ensures "id" in out.fields && "name" in out.fields && "enabled" in out.fields
    ensures "blueprint" in out.fields && "identifier" in out.fields && "buttons" in out.fields
  {
    var fields := ConfigSchema.fields;
    ConfigLayout();
    DictField(fields, true, j, 0);
    DictField(fields, true, j, 1);
    DictField(fields, true, j, 2);
    DictField(fields, true, j, 3);
    DictField(fields, true, j, 4);
    DictField(fields, true, j, 5);
  }

  /** In a validated config `enabled` is a boolean, `blueprint` a string and
      `id` a string, an integer, a boolean or None. */
  lemma ConfigFieldTypes(j: Json, out: Json)
    requires Validate(ConfigSchema, j) == Ok(out)
    ensures out.JObj? && "id" in out.fields && "enabled" in out.fields && "blueprint" in out.fields
    ensures out.fields["enabled"].JBool? && out.fields["blueprint"].JStr?
    ensures var id := out.fields["id"]; id.JStr? || id.JInt? || id.JBool? || id.JNull?
  {
    var fields := ConfigSchema.fields;
    ConfigLayout();
    DictField(fields, true, j, 0);
    DictField(fields, true, j, 2);
    DictField(fields, true, j, 3);
    if "id" in j.fields {
      IdResult(j.fields["id"], out.fields["id"]);
    } else {
      assert out.fields["id"] == JNull;
    }
    if "enabled" in j.fields {
      assert Validate(Boolean, j.fields["enabled"]) == Ok(out.fields["enabled"]);
    } else {
      assert out.fields["enabled"] == JBool(true);
    }
    assert Validate(Str, j.fields["blueprint"]) == Ok(out.fields["blueprint"]);
  }

  /** voluptuous puts a missing key's default into the data and validates
      it like a given value, while `Validate` stores the default as it is.
      The two agree on these schemas: every default validates to itself. */
  lemma DefaultsValidateToThemselves()
    ensures ShapeField.default.Some? && Validate(ShapeField.value, ShapeField.default.value) == Ok(ShapeField.default.value)
    ensures ModeField.default.Some? && Validate(ModeField.value, ModeField.default.value) == Ok(ModeField.default.value)
    ensures SequenceField.default.Some? && Validate(SequenceField.value, SequenceField.default.value) == Ok(SequenceField.default.value)
    ensures IdField.default.Some? && Validate(IdField.value, IdField.default.value) == Ok(IdField.default.value)
    ensures EnabledField.default.Some? && Validate(EnabledField.value, EnabledField.default.value) == Ok(EnabledField.default.value)
  {
    ButtonLayout();
    ConfigActionLayout();
    ConfigLayout();
  }

  /** The save-config schema fills in `id` (None) and `enabled` (true) when
      they are absent. */
  lemma ConfigDefaults(j: Json, out: Json)
    requires Validate(ConfigSchema, j) == Ok(out)
    ensures out.JObj? && "id" in out.fields && "enabled" in out.fields
    ensures j.JObj? && "id" !in j.fields ==> out.fields["id"] == JNull
    ensures j.JObj? && "enabled" !in j.fields ==> out.fields["enabled"] == JBool(true)
  {
    var fields := ConfigSchema.fields;
    ConfigLayout();
    DictField(fields, true, j, 0);
    DictField(fields, true, j, 2);
  }

  /** Keys the save-config schema does not declare are kept unchanged
      (`extra=vol.ALLOW_EXTRA`). */
  lemma ConfigExtrasKept(j: Json, out: Json)
    requires Validate(ConfigSchema, j) == Ok(out)
    ensures j.JObj? && out.JObj?
    ensures forall key :: key in j.fields && key !in KeysOf(ConfigSchema.fields) ==>
      key in out.fields && out.fields[key] == j.fields[key]
  {
    var fields := ConfigSchema.fields;
    DictAccepts(fields, true, j);
    forall key | key in j.fields && key !in KeysOf(fields)
      ensures key in out.fields && out.fields[key] == j.fields[key]
    {
      DictExtra(fields, j, key);
    }
  }

  /** Every action of every button of a validated save-config message has
      a mode from `ScriptModes` and a list of steps. */
  lemma ValidatedConfigActions(j: Json, out: Json)
    requires Validate(ConfigSchema, j) == Ok(out)
    ensures out.JObj? && "buttons" in out.fields && out.fields["buttons"].JList?
    ensures forall k :: 0 <= k < |out.fields["buttons"].items| ==>
      ConfigButtonComplete(out.fields["buttons"].items[k])
  {
    var fields := ConfigSchema.fields;
    ConfigLayout();
    DictField(fields, true, j, 5);
    var given := EnsureList(j.fields["buttons"]);
    var buttons := ValidateEach(ConfigButtonSchema, given).value;
    assert out.fields["buttons"] == JList(buttons);
    forall k | 0 <= k < |buttons| ensures ConfigButtonComplete(buttons[k]) {
      ConfigButtonActions(given[k], buttons[k]);
    }
  }

  /** A validated save-config button: a list of actions, each with a mode
      and a list of steps. */
  predicate ConfigButtonComplete(b: Json)
  {
    && b.JObj? && "actions" in b.fields && b.fields["actions"].JList?
    && forall m :: 0 <= m < |b.fields["actions"].items| ==> ConfigActionComplete(b.fields["actions"].items[m])
  }

  predicate ConfigActionComplete(a: Json)
  {
    && a.JObj? && "mode" in a.fields && a.fields["mode"].JStr? && a.fields["mode"].s in ScriptModes
    && "sequence" in a.fields && a.fields["sequence"].JList?
  }

  lemma ConfigButtonActions(b: Json, out: Json)
    requires Validate(ConfigButtonSchema, b) == Ok(out)
    ensures ConfigButtonComplete(out)
  {
    var fields := ConfigButtonSchema.fields;
    assert fields[0] == ConfigActionsField;
    DictField(fields, false, b, 0);
    var given := EnsureList(b.fields["actions"]);
    var actions := ValidateEach(ConfigActionSchema, given).value;
    assert out.fields["actions"] == JList(actions);
    forall m | 0 <= m < |actions| ensures ConfigActionComplete(actions[m]) {
      ConfigActionDefaults(given[m], actions[m]);
    }
  }
}
