/**
 * Managed switches as values.  `ManagedSwitchConfig` (models.py) is not
 * part of this model; its lifecycle is abstracted to what the component
 * relies on: a configuration dictionary, the blueprint it resolved to, and
 * whether its event binding is active.
 */
module Switches {
  import opened Wrappers
  import opened JsonValues
  import opened Blueprints

  /** A switch id: the store hands out and keeps ids as keys, and a save
      request may carry a string or an integer id. */
  datatype SwitchId = StrId(s: string) | IntId(n: int)

  /** The request ids that can name a registered switch: a string or an
      integer (a Python `bool` is an `int`).  After validation an `id` is
      one of these or None. */
  predicate KeyableId(id: Json)
  {
    id.JStr? || id.JInt? || id.JBool?
  }

  /** The key a dictionary lookup with a (truthy) request id hits: strings
      and integers are themselves, and Python's `True` equals `1`. */
  function RegistryKey(id: Json): (k: SwitchId)
    requires KeyableId(id)
    ensures id.JStr? ==> k == StrId(id.s)
    ensures id.JInt? ==> k == IntId(id.i)
    ensures id.JBool? ==> k == IntId(if id.b then 1 else 0)
  {
    match id
    case JStr(s) => StrId(s)
    case JInt(i) => IntId(i)
    case JBool(b) => IntId(if b then 1 else 0)
  }

  /** A managed switch: its id, its blueprint (resolved or the raw id), its
      configuration dictionary, and whether its event binding is active. */
  datatype SwitchConfig = SwitchConfig(
    id: SwitchId,
    blueprint: BlueprintRef,
    data: map<string, Json>,
    started: bool)

  /** `enabled` as the configuration says it, true when absent. */
  predicate Enabled(c: SwitchConfig)
  {
    if "enabled" in c.data then Truthy(c.data["enabled"]) else true
  }

  /** The `blueprint` entry of a configuration (`.get('blueprint')`). */
  function BlueprintField(data: map<string, Json>): (id: Json)
  {
    if "blueprint" in data then data["blueprint"] else JNull
  }

  /** The binding reflects the configuration: active exactly when the
      switch is enabled and its blueprint resolved. */
  predicate Applied(c: SwitchConfig)
  {
    c.started == (Enabled(c) && c.blueprint.Resolved?)
  }

  /** A freshly constructed switch, not yet started. */
  function NewConfig(blueprint: BlueprintRef, id: SwitchId, data: map<string, Json>): (c: SwitchConfig)
  {
    SwitchConfig(id, blueprint, data, false)
  }

  /** `start()`: tears down any previous binding and binds again when the
      switch is enabled and its blueprint resolved. */
  function Start(c: SwitchConfig): (r: SwitchConfig)
    ensures Applied(r)
    ensures r.id == c.id && r.blueprint == c.blueprint && r.data == c.data
  {
    c.(started := Enabled(c) && c.blueprint.Resolved?)
  }

  /** `stop()`: tears the binding down. */
  function Stop(c: SwitchConfig): (r: SwitchConfig)
    ensures !r.started
    ensures r.id == c.id && r.blueprint == c.blueprint && r.data == c.data
  {
    c.(started := false)
  }

  /** `setEnabled(enabled)`: records the flag; the binding is left as it is
      until the next `start()`. */
  function SetEnabled(c: SwitchConfig, enabled: bool): (r: SwitchConfig)
    ensures Enabled(r) == enabled
    ensures r.id == c.id && r.blueprint == c.blueprint && r.started == c.started
    ensures r.data.Keys == c.data.Keys + {"enabled"}
    ensures forall k :: k in c.data && k != "enabled" ==> r.data[k] == c.data[k]
  {
    c.(data := c.data["enabled" := JBool(enabled)])
  }

  /** `update(fields)`: merges the new fields over the old ones, resolves the
      blueprint again and re-applies the binding. */
  function Update(c: SwitchConfig, fields: map<string, Json>, registry: map<string, Blueprint>): (r: SwitchConfig)
    ensures r.id == c.id && Applied(r)
    ensures r.data.Keys == c.data.Keys + fields.Keys
    ensures forall k :: k in fields ==> r.data[k] == fields[k]
    ensures forall k :: k in c.data && k !in fields ==> r.data[k] == c.data[k]
    ensures r.blueprint == GetBlueprint(registry, BlueprintField(r.data))
  {
    var merged := c.data + fields;
    Start(c.(data := merged, blueprint := GetBlueprint(registry, BlueprintField(merged))))
  }

  /** What the store persists for a switch: its configuration dictionary. */
  function Record(c: SwitchConfig): (record: map<string, Json>)
  {
    c.data
  }

  /** The switch rebuilt from a stored record at startup
      (`ManagedSwitchConfig(hass, _get_blueprint(...), _id, record)`). */
  function FromRecord(id: SwitchId, record: map<string, Json>, registry: map<string, Blueprint>): (c: SwitchConfig)
  {
    NewConfig(GetBlueprint(registry, BlueprintField(record)), id, record)
  }

  /** Disabling a switch and starting it leaves it unbound; enabling and
      starting it binds it exactly when its blueprint is resolved. */
  lemma ToggleThenStart(c: SwitchConfig, enabled: bool)
    ensures Start(SetEnabled(c, enabled)).started <==> enabled && c.blueprint.Resolved?
    ensures Enabled(Start(SetEnabled(c, enabled))) == enabled
  {}

  /** A persisted switch comes back after a restart with the same id,
      configuration and enabled flag, and binds again exactly when it was
      bound, provided its blueprint still resolves the same way. */
  lemma ReloadRoundTrip(c: SwitchConfig, registry: map<string, Blueprint>)
    requires Applied(c)
    requires c.blueprint == GetBlueprint(registry, BlueprintField(c.data))
    ensures Start(FromRecord(c.id, Record(c), registry)) == c
  {}
}
