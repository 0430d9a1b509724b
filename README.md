# Switch Manager: a Dafny model of the component core

Switch Manager is a Home Assistant component that binds physical switches to
actions. A *blueprint* describes a kind of device: its service, event type,
buttons and the conditions that identify each button press. A *managed
switch* is a user's configuration: which blueprint it uses, whether it is
enabled, and the action scripts for each button. This project models the
component's core in `custom_components/switch_manager/__init__.py`:

- **Validation schemas.** The voluptuous schemas for conditions, blueprint
  actions, buttons and blueprints, and for the save-config message, are
  written as data (`Schemas`). A small interpreter, `Schema.Validate`, gives
  them voluptuous's meaning over a JSON-like value (`JsonValues.Json`):
  - required and optional keys, and defaults;
  - unknown keys rejected, unless the schema allows extras;
  - `cv.ensure_list`, `cv.string` coercion, `vol.In` and `cv.positive_int`;
  - a list schema rejects the whole list when one item fails.
- **Blueprint registry.** `_init_blueprints` rebuilds the registry from the
  loaded entries, keeping those that validate (`Blueprints.BuildRegistry`,
  `SwitchManager.InitBlueprints`). `_get_blueprint` either resolves an id or
  falls back to the raw id (`Blueprints.GetBlueprint`, which returns
  `Resolved | Unresolved`).
- **Managed switches.** A switch is a value: its id, its blueprint reference,
  its configuration dictionary, and whether its event binding is active
  (`Switches.SwitchConfig`). `start`, `stop`, `setEnabled` and `update` are
  modelled on the `started` flag and on the dictionary.
- **Store.** `Store.SwitchManagerStore` is a class. It holds the version
  marker and the persisted records, and allocates ids.
- **Component state and commands.** `Component.SwitchManager` is a class
  that stands for `hass.data[DOMAIN]`. It covers:
  - setup: migrate, then register the blueprints, then register the stored
    switches;
  - the registry helpers;
  - the five websocket commands: list blueprints, list configs, save,
    toggle and delete.

  Each command that changes state keeps the registry and the store in
  agreement (`Component.Consistent`). Restarting from the store rebuilds
  exactly the registered switches (`Component.RestartRecoversSwitches`).

A Python exception in a handler becomes an error outcome with no state
change (`Outcome.Failed`). This covers:
- `AttributeError` on a missing switch;
- `KeyError` on a missing message key;
- `vol.Invalid` from the message schema.

In the source, each of these happens before the handler mutates anything.

## Model

| member | source | states |
|---|---|---|
| Schema.ValidateEach | custom_components/switch_manager/__init__.py:31 | a list validates exactly when every item does; the output has one validated item per input item, in order |
| Schema.ValidateFields | custom_components/switch_manager/__init__.py:25-28 | the declared keys pass exactly when every field is accepted; the output keys are exactly the declared keys that were given or have a default |
| Schema.DictAccepts | custom_components/switch_manager/__init__.py:25-50 | a dictionary schema accepts exactly the objects with no undeclared key (unless extras are allowed) and every field accepted |
| Schema.FieldsValueAt | custom_components/switch_manager/__init__.py:33-42 | a given key holds its validated value; a missing key with a default holds the default |
| Schema.DictField | custom_components/switch_manager/__init__.py:33-42 | for each declared field of a validated object: the validated value if given, the default if missing and defaulted, otherwise absent |
| Schema.DictExtra | custom_components/switch_manager/__init__.py:66 | under `ALLOW_EXTRA`, an undeclared key passes through unchanged |
| Schemas.ConditionAccepted | custom_components/switch_manager/__init__.py:25-28 | a condition is accepted exactly when it is an object whose keys are `key` and `value`, both string-coercible |
| Schemas.ConditionListStructure | custom_components/switch_manager/__init__.py:25-28 | every item of an accepted condition list has both `key` and `value` |
| Schemas.ActionStructure | custom_components/switch_manager/__init__.py:29-32 | an accepted blueprint action has a `title`, and its conditions are well formed |
| Schemas.ChoiceResult | custom_components/switch_manager/__init__.py:36 | `vol.In` passes an accepted value through unchanged, and that value is one of the choices |
| Schemas.ButtonActionsStructure | custom_components/switch_manager/__init__.py:34 | every action of an accepted button is well formed |
| Schemas.ButtonStructure | custom_components/switch_manager/__init__.py:33-42 | an accepted button has `actions`, each with a `title`; a given `shape` is one of rect, circle, path |
| Schemas.ButtonShape | custom_components/switch_manager/__init__.py:36 | a validated button always has a shape from {rect, circle, path}: `rect` when none was given, otherwise the given one |
| Schemas.BlueprintRequiredKeys | custom_components/switch_manager/__init__.py:43-50 | an accepted blueprint has `name`, `service`, `event_type`, `identifier_key` and `buttons` |
| Schemas.BlueprintStructure | custom_components/switch_manager/__init__.py:43-50 | an accepted blueprint's buttons, actions and conditions are all well formed |
| Schemas.BlueprintUnknownKeyRejected | custom_components/switch_manager/__init__.py:43-50 | a blueprint with an undeclared key is rejected |
| Schemas.ValidatedBlueprintShapes | custom_components/switch_manager/__init__.py:36-49 | every button of a validated blueprint carries a valid shape |
| Schemas.ConfigActionDefaults | custom_components/switch_manager/__init__.py:52-55 | a validated config action has a script mode (the default mode when missing) and a `sequence` list (empty when missing) |
| Schemas.ConfigRequiredKeys | custom_components/switch_manager/__init__.py:59-66 | an accepted config has `name`, `blueprint`, `identifier` and `buttons`; the output has every declared key, including `id` and `enabled` |
| Schemas.ConfigFieldTypes | custom_components/switch_manager/__init__.py:60-63 | in a validated config `enabled` is a boolean and `blueprint` a string; `id` is a string, an integer, a boolean or None |
| Schemas.IdResult | custom_components/switch_manager/__init__.py:60 | `vol.Any(str, int, None)` passes an accepted value through unchanged; that value is a string, an integer (booleans included) or None |
| Schemas.DefaultsValidateToThemselves | custom_components/switch_manager/__init__.py:36-62 | each default (`rect`, the default script mode, `[]`, None, true) passes its own field's validator unchanged, so storing it as it is gives what validating it would |
| Schemas.ConfigDefaults | custom_components/switch_manager/__init__.py:60-62 | a missing `id` becomes None and a missing `enabled` becomes true |
| Schemas.ConfigExtrasKept | custom_components/switch_manager/__init__.py:66 | every undeclared top-level key of a config is kept unchanged |
| Schemas.ValidatedConfigActions | custom_components/switch_manager/__init__.py:56-65 | every action of every button of a validated config has its mode and sequence filled in |
| Schemas.ConfigButtonActions | custom_components/switch_manager/__init__.py:56-58 | every action of a validated config button has its mode and sequence filled in |
| Blueprints.RegistryKeys | custom_components/switch_manager/__init__.py:118-127 | the registry's keys are exactly the ids of the loaded entries that pass `BLUEPRINT_SCHEMA` |
| Blueprints.RegistryEntry | custom_components/switch_manager/__init__.py:125-127 | an id maps to the blueprint built from the validated data and `has_image` of the last accepted entry with that id |
| Blueprints.InvalidEntrySkipped | custom_components/switch_manager/__init__.py:121-125 | an entry that fails validation leaves the registry exactly as if it were absent |
| Blueprints.RegistrySize | custom_components/switch_manager/__init__.py:118-127 | when the ids are distinct, the registry has one entry per accepted entry |
| Blueprints.LastIndexAccepted | custom_components/switch_manager/__init__.py:127 | every accepted id has a last accepted occurrence |
| Blueprints.GetBlueprint | custom_components/switch_manager/__init__.py:129-130 | a registered id resolves to its blueprint; any other id comes back unchanged |
| Blueprints.ResolvedAfterInit | custom_components/switch_manager/__init__.py:118-130 | after the registry is built, an id resolves exactly when an accepted entry has it, and its blueprint's buttons all have shapes |
| Switches.RegistryKey | custom_components/switch_manager/__init__.py:198 | a string id keys by that string and an integer by that integer; a boolean keys as 1 or 0, as a Python dict does |
| Switches.Start | custom_components/switch_manager/__init__.py:145 | the binding is active exactly when the switch is enabled and its blueprint resolved; nothing else changes |
| Switches.Stop | custom_components/switch_manager/__init__.py:151 | the binding is torn down; nothing else changes |
| Switches.SetEnabled | custom_components/switch_manager/__init__.py:230 | the switch reports the requested flag; other keys, the binding and the blueprint are unchanged |
| Switches.Update | custom_components/switch_manager/__init__.py:199 | the new fields override the old ones and other keys are kept; the blueprint is re-resolved from the merged fields; the binding is re-applied; the id is kept |
| Switches.ToggleThenStart | custom_components/switch_manager/__init__.py:230-231 | after toggling and starting, the switch is bound exactly when enabled with a resolved blueprint |
| Switches.ReloadRoundTrip | custom_components/switch_manager/__init__.py:132-141 | a persisted switch reloaded against the same blueprints is the same switch |
| Store.SwitchManagerStore.constructor | custom_components/switch_manager/__init__.py:79-82 | the loaded store holds the given version and records |
| Store.SwitchManagerStore.UpdateVersion | custom_components/switch_manager/__init__.py:111 | the version marker becomes the given version |
| Store.SwitchManagerStore.AvailableId | custom_components/switch_manager/__init__.py:204 | the returned id is a non-empty string of decimal digits that no stored record uses |
| Store.SwitchManagerStore.SetManagedSwitch | custom_components/switch_manager/__init__.py:209 | the switch's record is upserted and no other record changes |
| Store.SwitchManagerStore.DeleteManagedSwitch | custom_components/switch_manager/__init__.py:253 | only that id's record is removed; an unknown id is a no-op |
| Component.MigrationOutcome | custom_components/switch_manager/__init__.py:103-116 | reports a migration exactly when the versions differ; afterwards the stored version is the manifest's and the folder is present; deploys once exactly when the versions differ or the folder is missing |
| Component.MigrationKeepsEqualVersion | custom_components/switch_manager/__init__.py:108-116 | with equal versions the version is never changed and no migration is reported; with the folder present nothing changes |
| Component.MigrationIdempotent | custom_components/switch_manager/__init__.py:103-116 | a second migration run right after any run changes nothing and reports no migration |
| Component.TargetId | custom_components/switch_manager/__init__.py:197-198 | a save targets an existing switch exactly when its `id` is truthy; a string id names that string and an integer names that integer |
| Component.TargetIdOfValidated | custom_components/switch_manager/__init__.py:197 | after validation, `id` is present and names a target exactly when it is truthy |
| Component.ConsistentAfterSave | custom_components/switch_manager/__init__.py:197-209 | registering and persisting a started switch keeps the registry and the store in agreement |
| Component.ResolvedAfterSave | custom_components/switch_manager/__init__.py:199-205 | registering a switch that resolves its own blueprint keeps every switch resolved through the registry |
| Component.ConsistentAfterDelete | custom_components/switch_manager/__init__.py:252-253 | removing one id from both the registry and the store keeps them in agreement |
| Component.LoadedConsistent | custom_components/switch_manager/__init__.py:132-141 | the switches registered at startup agree with the store and resolve through the registry |
| Component.RestartRecoversSwitches | custom_components/switch_manager/__init__.py:132-141 | reloading a consistent store against the same blueprints rebuilds exactly the registered switches |
| Component.LoadedSwitchesAdd | custom_components/switch_manager/__init__.py:134-141 | registering one more stored record adds exactly that started switch |
| Component.SwitchManager.Setup | custom_components/switch_manager/__init__.py:70-91 | startup migrates, registers the blueprints that validate and a started switch for every stored record; registry and store agree |
| Component.SwitchManager.DeployBlueprints | custom_components/switch_manager/__init__.py:110 | the blueprint folder is present and one more deployment is counted |
| Component.SwitchManager.Migrate | custom_components/switch_manager/__init__.py:103-116 | the version, folder and deployment count, and the reply, are those of one migration run |
| Component.SwitchManager.InitBlueprints | custom_components/switch_manager/__init__.py:118-127 | the registry is rebuilt from empty as the registry of the loaded entries |
| Component.SwitchManager.InitSwitchConfigs | custom_components/switch_manager/__init__.py:132-141 | every stored record is registered as a started switch built from it |
| Component.SwitchManager.SetSwitchConfig | custom_components/switch_manager/__init__.py:143-145 | the started switch is registered under its id and no other entry changes |
| Component.SwitchManager.GetSwitchConfig | custom_components/switch_manager/__init__.py:147-148 | the registered switch when the id is a key, None otherwise |
| Component.SwitchManager.RemoveSwitchConfig | custom_components/switch_manager/__init__.py:150-152 | only that id is removed from the registry |
| Component.SwitchManager.ListBlueprints | custom_components/switch_manager/__init__.py:164-165 | a non-empty id gives that blueprint, resolved or as the raw id; otherwise the whole registry |
| Component.SwitchManager.ListConfigs | custom_components/switch_manager/__init__.py:179-180 | a non-empty id gives that switch or None; otherwise every registered switch |
| Component.SwitchManager.SaveConfig | custom_components/switch_manager/__init__.py:184-214 | an invalid message is rejected with its reason and nothing changes. A truthy id updates the registered switch, keeping the key set, or fails when that id is not registered. A falsy id creates a started switch under a fresh id. A saved switch is persisted, the reply carries its id, and registry and store still agree |
| Component.SwitchManager.SaveExisting | custom_components/switch_manager/__init__.py:197-214 | an unknown id fails with no change; otherwise the switch is updated, persisted and echoed |
| Component.SwitchManager.SaveNew | custom_components/switch_manager/__init__.py:200-214 | a switch is created under an id not in use, with the blueprint its config names; it is registered, started and persisted |
| Component.SwitchManager.ToggleConfigEnabled | custom_components/switch_manager/__init__.py:227-238 | an unknown id fails with no change; otherwise the switch is set to the flag, restarted and persisted, and the requested flag is echoed |
| Component.SwitchManager.DeleteConfig | custom_components/switch_manager/__init__.py:250-256 | a missing or unknown id fails with no change; otherwise the id is removed from the registry and then from the store, and echoed |

## Left out

- Async/await, the websocket transport, `send_result` framing and command registration. The commands are methods that return their reply. `async_setup_entry` and `async_setup_view` are plumbing.
- Reading the manifest, deploying blueprints, checking the blueprint folder and loading blueprint files (`helpers.py` is not part of this model). The manifest version, the folder's presence and the loaded entries are parameters. Deployment is a flag plus a counter.
- Store.SwitchManagerStore.AvailableId: `store.py` is not part of this model. The allocator guarantees only that the id is not in use now; it does not rule out reusing an id that was deleted earlier.
- Switches.Start: the event-bus binding inside `models.py` (not part of this model) is reduced to a `started` flag.
- Switches.Update: the field merge of `models.py` is modelled as a dictionary union where the new fields win.
- Aliasing: the registry and the reply share one switch object in the source. Here switches are values, and updating a switch replaces its registry entry.
- Schema.Validate: `cv.positive_int` accepts non-negative integers, and booleans as 1 or 0. Coercion of numeric strings and floats is not modelled.
- Schema.Validate: the steps inside `cv.SCRIPT_SCHEMA` are not validated. A script is a list (after `ensure_list`) of objects.
- Schemas.ScriptModes: Home Assistant's `SCRIPT_MODE_CHOICES` and `DEFAULT_SCRIPT_MODE` are restated as the four modes, with `single` as the default.
- Message-level schemas: `cv.string` on `config_id` and `blueprint_id` is modelled by taking a `string` parameter. A missing optional key is `None`.
- Error logging and `_format_config_error`.
- Concurrency: handlers run one at a time. Interleaving between the awaits is not modelled.
- Voluptuous rejects a whole list when one of its items fails. So one invalid button or condition rejects its blueprint or config; the model follows this code, not item-by-item skipping.
