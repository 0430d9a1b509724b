/**
 * The component's shared state (`hass.data[DOMAIN]`) and its operations:
 * startup (load, migrate, register blueprints, register stored switches),
 * the registry helpers and the five websocket commands.  The registry and
 * the store are kept in step: every stored record has a registered switch
 * built from it and vice versa.
 */
module Component {
  import opened Wrappers
  import opened JsonValues
  import opened Schema
  import opened Schemas
  import opened Blueprints
  import opened Switches
  import opened Store

  // -----------------------------------------------------------------------
  // Migration (`async_migrate`), stated over the state it touches.

  /** The stored version marker, whether the writable blueprint folder is
      in place, and how many times the bundled blueprints were deployed. */
  datatype MigrationState = MigrationState(storedVersion: string, folderPresent: bool, deployments: nat)

  /** One migration run against the manifest version: on a version change,
      deploy and then record the new version, reporting a migration;
      otherwise redeploy only when the folder is missing. */
  function Migration(s: MigrationState, manifestVersion: string): (result: (MigrationState, bool))
  {
    if s.storedVersion != manifestVersion then
      (MigrationState(manifestVersion, true, s.deployments + 1), true)
    else if !s.folderPresent then
      (s.(folderPresent := true, deployments := s.deployments + 1), false)
    else
      (s, false)
  }

  /** A run reports a migration exactly when the stored version differed;
      afterwards the stored version is the manifest's and the folder is in
      place; blueprints were deployed exactly when the version differed or
      the folder was missing. */
  lemma MigrationOutcome(s: MigrationState, manifestVersion: string)
    ensures Migration(s, manifestVersion).1 <==> s.storedVersion != manifestVersion
    ensures Migration(s, manifestVersion).0.storedVersion == manifestVersion
    ensures Migration(s, manifestVersion).0.folderPresent
    ensures Migration(s, manifestVersion).0.deployments ==
      s.deployments + (if s.storedVersion != manifestVersion || !s.folderPresent then 1 else 0)
  {}

  /** With the stored version already equal to the manifest's, a run never
      changes the version and never reports a migration. */
  lemma MigrationKeepsEqualVersion(s: MigrationState, manifestVersion: string)
    requires s.storedVersion == manifestVersion
    ensures Migration(s, manifestVersion).0.storedVersion == s.storedVersion
    ensures !Migration(s, manifestVersion).1
    ensures s.folderPresent ==> Migration(s, manifestVersion).0 == s
  {}

  /** A second run right after any run is a no-op. */
  lemma MigrationIdempotent(s: MigrationState, manifestVersion: string)
    ensures var after := Migration(s, manifestVersion).0;
      Migration(after, manifestVersion) == (after, false)
  {}

  // -----------------------------------------------------------------------
  // Replies of the websocket commands.

  datatype BlueprintsReply =
    | OneBlueprint(blueprint: BlueprintRef)
    | AllBlueprints(blueprints: map<string, Blueprint>)

  datatype ConfigsReply =
    | OneConfig(config: Option<SwitchConfig>)
    | AllConfigs(configs: map<SwitchId, SwitchConfig>)

  datatype Saved = Saved(configId: SwitchId, config: SwitchConfig)

  datatype Toggled = Toggled(switchId: SwitchId, enabled: bool)

  /** Why a command produced no result: its message failed validation, or
      it named a switch that is not registered (the source raises there). */
  datatype Failure = InvalidMessage(reason: Invalid) | UnknownSwitch

  datatype Outcome<+T> = Sent(result: T) | Failed(failure: Failure)

  /** The switches registered for stored records: each built from its
      record and started. */
  function LoadedSwitches(records: map<SwitchId, map<string, Json>>, registry: map<string, Blueprint>): (loaded: map<SwitchId, SwitchConfig>)
  {
    map id | id in records :: Start(FromRecord(id, records[id], registry))
  }

  /** The records whose ids lie in `ids`. */
  function Restrict(records: map<SwitchId, map<string, Json>>, ids: set<SwitchId>): (r: map<SwitchId, map<string, Json>>)
  {
    map id | id in records && id in ids :: records[id]
  }

  /** Registering one more stored record extends the loaded switches by
      exactly that switch. */
  lemma LoadedSwitchesAdd(records: map<SwitchId, map<string, Json>>, done: set<SwitchId>, id: SwitchId,
                          registry: map<string, Blueprint>)
    requires id in records
    ensures LoadedSwitches(Restrict(records, done + {id}), registry) ==
      LoadedSwitches(Restrict(records, done), registry)[id := Start(FromRecord(id, records[id], registry))]
  {
  }

  lemma UnionUpdate<K, V>(a: map<K, V>, b: map<K, V>, k: K, v: V)
    ensures (a + b)[k := v] == a + b[k := v]
  {
  }

  /** The switch a validated save message names: its `id` when truthy
      (a string, or an integer whose registry key is that integer), none
      when the message asks for a new switch. */
  function TargetId(config: map<string, Json>): (r: Option<SwitchId>)
    ensures r.Some? <==> "id" in config && Truthy(config["id"]) && KeyableId(config["id"])
    ensures "id" in config && config["id"].JStr? && config["id"].s != "" ==> r == Some(StrId(config["id"].s))
    ensures "id" in config && config["id"].JInt? && config["id"].i != 0 ==> r == Some(IntId(config["id"].i))
  {
    if "id" in config && Truthy(config["id"]) && KeyableId(config["id"]) then
      Some(RegistryKey(config["id"]))
    else
      None
  }

  /** After validation a message's `id` is a string, an integer, a boolean
      or null, so it names an existing switch exactly when it is truthy. */
  lemma TargetIdOfValidated(message: Json, out: Json)
    requires Validate(ConfigSchema, message) == Ok(out)
    ensures out.JObj? && "id" in out.fields
    ensures TargetId(out.fields).Some? <==> Truthy(out.fields["id"])
  {
    ConfigFieldTypes(message, out);
  }

  /** Registry and store agree: the same ids, each registered switch keyed
      by its own id, persisted as its current configuration, and bound
      exactly when it is enabled and its blueprint resolved. */
  predicate Consistent(managed: map<SwitchId, SwitchConfig>, stored: map<SwitchId, map<string, Json>>)
  {
    && managed.Keys == stored.Keys
    && forall id :: id in managed ==>
         && managed[id].id == id
         && stored[id] == Record(managed[id])
         && Applied(managed[id])
  }

  /** Every registered switch holds what the blueprint registry gives for
      the blueprint id in its configuration. */
  predicate ResolvedBy(managed: map<SwitchId, SwitchConfig>, registry: map<string, Blueprint>)
  {
    forall id :: id in managed ==>
      managed[id].blueprint == GetBlueprint(registry, BlueprintField(managed[id].data))
  }

  /** Registering and persisting a started switch keeps registry and store
      in agreement. */
  lemma ConsistentAfterSave(managed: map<SwitchId, SwitchConfig>, stored: map<SwitchId, map<string, Json>>,
                            c: SwitchConfig)
    requires Consistent(managed, stored) && Applied(c)
    ensures Consistent(managed[c.id := c], stored[c.id := Record(c)])
  {
  }

  /** Registering a switch that resolves its own blueprint id through the
      registry keeps every switch resolved. */
  lemma ResolvedAfterSave(managed: map<SwitchId, SwitchConfig>, registry: map<string, Blueprint>, c: SwitchConfig)
    requires ResolvedBy(managed, registry)
    requires c.blueprint == GetBlueprint(registry, BlueprintField(c.data))
    ensures ResolvedBy(managed[c.id := c], registry)
  {
  }

  /** Removing an id from both keeps them in agreement. */
  lemma ConsistentAfterDelete(managed: map<SwitchId, SwitchConfig>, stored: map<SwitchId, map<string, Json>>,
                              id: SwitchId)
    requires Consistent(managed, stored)
    ensures Consistent(managed - {id}, stored - {id})
  {
  }

  /** The switches registered at startup agree with the store they were
      loaded from and resolve their blueprints through the registry. */
  lemma LoadedConsistent(records: map<SwitchId, map<string, Json>>, registry: map<string, Blueprint>)
    ensures Consistent(LoadedSwitches(records, registry), records)
    ensures ResolvedBy(LoadedSwitches(records, registry), registry)
  {
  }

  /** Restarting recovers the registry: loading the persisted records of a
      consistent registry against the same blueprints rebuilds exactly the
      switches that were registered. */
  lemma {:induction false} RestartRecoversSwitches(managed: map<SwitchId, SwitchConfig>,
                                                   stored: map<SwitchId, map<string, Json>>,
                                                   registry: map<string, Blueprint>)
    requires Consistent(managed, stored) && ResolvedBy(managed, registry)
    ensures LoadedSwitches(stored, registry) == managed
  {
    forall id | id in managed
      ensures LoadedSwitches(stored, registry)[id] == managed[id]
    {
      ReloadRoundTrip(managed[id], registry);
    }
  }

  class SwitchManager {
    var blueprints: map<string, Blueprint>
    var managedSwitches: map<SwitchId, SwitchConfig>
    const store: SwitchManagerStore
    var folderPresent: bool
    var deployments: nat

    /** Registry and store agree, and every switch resolves its blueprint
        through the current blueprint registry. */
    ghost predicate Valid()
      reads this, store
    {
      Consistent(managedSwitches, store.switches) && ResolvedBy(managedSwitches, blueprints)
    }

    ghost function MigrationView(): MigrationState
      reads this, store
    {
      MigrationState(store.version, folderPresent, deployments)
    }

    /** `async_setup`: the store has been loaded; migrate, register the
        blueprints the loader then finds, and register the stored switches. */
    constructor Setup(store: SwitchManagerStore, manifestVersion: string, folderPresent: bool,
                      loaded: seq<LoadedBlueprint>)
      modifies store
      ensures this.store == store && Valid()
      ensures MigrationView() ==
        Migration(MigrationState(old(store.version), folderPresent, 0), manifestVersion).0
      ensures store.switches == old(store.switches)
      ensures blueprints == BuildRegistry(loaded)
      ensures managedSwitches == LoadedSwitches(store.switches, blueprints)
    {
      this.store := store;
      blueprints := map[];
      managedSwitches := map[];
      this.folderPresent := folderPresent;
      deployments := 0;
      new;
      var _ := Migrate(manifestVersion);
      InitBlueprints(loaded);
      InitSwitchConfigs();
      assert managedSwitches == LoadedSwitches(store.switches, blueprints);
      LoadedConsistent(store.switches, blueprints);
    }

    /** `deploy_blueprints`: copies the bundled blueprints into place. */
    method DeployBlueprints()
      modifies this`folderPresent, this`deployments
      ensures folderPresent && deployments == old(deployments) + 1
    {
      folderPresent := true;
      deployments := deployments + 1;
    }

    /** `async_migrate`. */
    method Migrate(manifestVersion: string) returns (migrated: bool)
      modifies this`folderPresent, this`deployments, store`version
      ensures (MigrationView(), migrated) == Migration(old(MigrationView()), manifestVersion)
    {
      if !store.CompareVersion(manifestVersion) {
        DeployBlueprints();
        store.UpdateVersion(manifestVersion);
        return true;
      } else if !folderPresent {
        DeployBlueprints();
      }
      return false;
    }

    /** `_init_blueprints`: rebuilds the registry from empty, keeping the
        entries that pass `BLUEPRINT_SCHEMA`. */
    method InitBlueprints(loaded: seq<LoadedBlueprint>)
      modifies this`blueprints
      ensures blueprints == BuildRegistry(loaded)
    {
      blueprints := map[];
      for i := 0 to |loaded|
        invariant blueprints == BuildRegistry(loaded[..i])
      {
        assert loaded[..i + 1][..i] == loaded[..i];
        var entry := loaded[i];
        var validated := Validate(BlueprintSchema, entry.data);
        if validated.Err? {
          continue;
        }
        blueprints := blueprints[entry.id := Blueprint(entry.id, validated.value, entry.hasImage)];
      }
      assert loaded[..|loaded|] == loaded;
    }

    /** `_init_switch_configs`: registers and starts a switch for every
        stored record. */
    method InitSwitchConfigs()
      modifies this`managedSwitches
      ensures managedSwitches == old(managedSwitches) + LoadedSwitches(store.switches, blueprints)
    {
      var records := store.switches;
      var pending := records.Keys;
      ghost var done: set<SwitchId> := {};
      ghost var loaded: map<SwitchId, SwitchConfig> := map[];
      assert Restrict(records, done) == map[];
      while pending != {}
        invariant pending + done == records.Keys && pending !! done
        invariant loaded == LoadedSwitches(Restrict(records, done), blueprints)
        invariant managedSwitches == old(managedSwitches) + loaded
        decreases pending
      {
        var id :| id in pending;
        var c := FromRecord(id, records[id], blueprints);
        SetSwitchConfig(c);
        UnionUpdate(old(managedSwitches), loaded, id, Start(c));
        LoadedSwitchesAdd(records, done, id, blueprints);
        loaded := loaded[id := Start(c)];
        pending := pending - {id};
        done := done + {id};
      }
      assert Restrict(records, done) == records;
    }

    /** `_set_switch_config`: registers the switch under its id and starts it. */
    method SetSwitchConfig(c: SwitchConfig)
      modifies this`managedSwitches
      ensures managedSwitches == old(managedSwitches)[c.id := Start(c)]
    {
      managedSwitches := managedSwitches[c.id := c];
      managedSwitches := managedSwitches[c.id := Start(managedSwitches[c.id])];
    }

    /** `_get_switch_config`: the registered switch, or None. */
    function GetSwitchConfig(id: SwitchId): (r: Option<SwitchConfig>)
      reads this
      ensures r.Some? <==> id in managedSwitches
      ensures r.Some? ==> r.value == managedSwitches[id]
    {
      if id in managedSwitches then Some(managedSwitches[id]) else None
    }

    /** `_remove_switch_config`: stops the switch and removes only its key. */
    method RemoveSwitchConfig(id: SwitchId)
      requires id in managedSwitches
      modifies this`managedSwitches
      ensures managedSwitches == old(managedSwitches) - {id}
    {
      managedSwitches := managedSwitches[id := Stop(managedSwitches[id])];
      managedSwitches := managedSwitches - {id};
    }

    /** `websocket_blueprints`: one blueprint (resolved or the raw id) when a
        non-empty id is given, the whole registry otherwise. */
    method ListBlueprints(blueprintId: Option<string>) returns (reply: BlueprintsReply)
      ensures blueprintId.Some? && blueprintId.value != "" ==>
        && reply.OneBlueprint?
        && (reply.blueprint.Resolved? <==> blueprintId.value in blueprints)
        && (reply.blueprint.Resolved? ==> reply.blueprint.blueprint == blueprints[blueprintId.value])
        && (reply.blueprint.Unresolved? ==> reply.blueprint.raw == JStr(blueprintId.value))
      ensures !(blueprintId.Some? && blueprintId.value != "") ==> reply == AllBlueprints(blueprints)
    {
      if blueprintId.Some? && blueprintId.value != "" {
        reply := OneBlueprint(GetBlueprint(blueprints, JStr(blueprintId.value)));
      } else {
        reply := AllBlueprints(blueprints);
      }
    }

    /** `websocket_configs`: one switch (or None) when a non-empty id is
        given, every registered switch otherwise. */
    method ListConfigs(configId: Option<string>) returns (reply: ConfigsReply)
      ensures configId.Some? && configId.value != "" ==>
        && reply.OneConfig?
        && (reply.config.Some? <==> StrId(configId.value) in managedSwitches)
        && (reply.config.Some? ==> reply.config.value == managedSwitches[StrId(configId.value)])
      ensures !(configId.Some? && configId.value != "") ==> reply == AllConfigs(managedSwitches)
    {
      if configId.Some? && configId.value != "" {
        reply := OneConfig(GetSwitchConfig(StrId(configId.value)));
      } else {
        reply := AllConfigs(managedSwitches);
      }
    }

    /** `websocket_save_config`: validates the config; with a truthy id
        updates that registered switch, otherwise creates one under a fresh
        id; then persists it and replies with its id. */
    method SaveConfig(message: Json) returns (reply: Outcome<Saved>)
      requires Valid()
      modifies this`managedSwitches, store`switches
      ensures Valid()
      ensures reply.Failed? ==>
        managedSwitches == old(managedSwitches) && store.switches == old(store.switches)
      ensures Validate(ConfigSchema, message).Err? ==>
        reply == Failed(InvalidMessage(Validate(ConfigSchema, message).error))
      ensures reply.Sent? ==>
        && reply.result.configId == reply.result.config.id
        && managedSwitches == old(managedSwitches)[reply.result.configId := reply.result.config]
        && store.switches == old(store.switches)[reply.result.configId := Record(reply.result.config)]
      ensures Validate(ConfigSchema, message).Ok? ==>
        var config := Validate(ConfigSchema, message).value.fields;
        match TargetId(config)
        case Some(key) =>
          && (reply.Sent? <==> key in old(managedSwitches))
          && managedSwitches.Keys == old(managedSwitches).Keys
          && (reply.Sent? ==> reply.result.config == Update(old(managedSwitches)[key], config, blueprints))
        case None =>
          && reply.Sent?
          && reply.result.configId !in old(managedSwitches)
          && reply.result.config ==
               Start(NewConfig(GetBlueprint(blueprints, BlueprintField(config)), reply.result.configId, config))
    {
      var validated := Validate(ConfigSchema, message);
      if validated.Err? {
        return Failed(InvalidMessage(validated.error));
      }
      var config := validated.value.fields;
      var target := TargetId(config);
      if target.Some? {
        reply := SaveExisting(target.value, config);
      } else {
        var saved := SaveNew(config);
        reply := Sent(saved);
      }
    }

    /** The update branch of `websocket_save_config`: merges the fields into
        the registered switch, which re-resolves its blueprint and restarts,
        then persists it. */
    method SaveExisting(key: SwitchId, config: map<string, Json>) returns (reply: Outcome<Saved>)
      requires Valid()
      modifies this`managedSwitches, store`switches
      ensures Valid()
      ensures key !in old(managedSwitches) ==>
        && reply == Failed(UnknownSwitch)
        && managedSwitches == old(managedSwitches) && store.switches == old(store.switches)
      ensures key in old(managedSwitches) ==>
        var updated := Update(old(managedSwitches)[key], config, blueprints);
        && reply == Sent(Saved(key, updated))
        && managedSwitches == old(managedSwitches)[key := updated]
        && store.switches == old(store.switches)[key := Record(updated)]
    {
      var existing := GetSwitchConfig(key);
      if existing.None? {
        return Failed(UnknownSwitch);
      }
      var updated := Update(existing.value, config, blueprints);
      ConsistentAfterSave(managedSwitches, store.switches, updated);
      managedSwitches := managedSwitches[key := updated];
      store.SetManagedSwitch(updated);
      reply := Sent(Saved(updated.id, updated));
    }

    /** The create branch of `websocket_save_config`: builds a switch under
        the next free id with the blueprint the config names, registers and
        starts it, then persists it. */
    method SaveNew(config: map<string, Json>) returns (saved: Saved)
      requires Valid()
      modifies this`managedSwitches, store`switches
      ensures Valid()
      ensures saved.configId !in old(managedSwitches)
      ensures saved.config ==
        Start(NewConfig(GetBlueprint(blueprints, BlueprintField(config)), saved.configId, config))
      ensures managedSwitches == old(managedSwitches)[saved.configId := saved.config]
      ensures store.switches == old(store.switches)[saved.configId := Record(saved.config)]
    {
      var blueprint := GetBlueprint(blueprints, BlueprintField(config));
      var freshId := store.AvailableId();
      var created := NewConfig(blueprint, freshId, config);
      ConsistentAfterSave(managedSwitches, store.switches, Start(created));
      SetSwitchConfig(created);
      store.SetManagedSwitch(Start(created));
      saved := Saved(freshId, Start(created));
    }

    /** `websocket_toggle_config_enabled`: sets the flag, starts the switch
        again and persists it, echoing the requested flag. */
    method ToggleConfigEnabled(configId: string, enabled: bool) returns (reply: Outcome<Toggled>)
      requires Valid()
      modifies this`managedSwitches, store`switches
      ensures Valid()
      ensures StrId(configId) !in old(managedSwitches) ==>
        && reply == Failed(UnknownSwitch)
        && managedSwitches == old(managedSwitches) && store.switches == old(store.switches)
      ensures StrId(configId) in old(managedSwitches) ==>
        var toggled := Start(SetEnabled(old(managedSwitches)[StrId(configId)], enabled));
        && reply == Sent(Toggled(StrId(configId), enabled))
        && managedSwitches == old(managedSwitches)[StrId(configId) := toggled]
        && store.switches == old(store.switches)[StrId(configId) := Record(toggled)]
    {
      var existing := GetSwitchConfig(StrId(configId));
      if existing.None? {
        return Failed(UnknownSwitch);
      }
      var toggled := Start(SetEnabled(existing.value, enabled));
      ConsistentAfterSave(managedSwitches, store.switches, toggled);
      ResolvedAfterSave(managedSwitches, blueprints, toggled);
      managedSwitches := managedSwitches[toggled.id := toggled];
      store.SetManagedSwitch(toggled);
      reply := Sent(Toggled(toggled.id, enabled));
    }

    /** `websocket_delete_config`: removes the switch from the registry, then
        its record from the store, and replies with the deleted id. */
    method DeleteConfig(configId: Option<string>) returns (reply: Outcome<string>)
      requires Valid()
      modifies this`managedSwitches, store`switches
      ensures Valid()
      ensures (configId.None? || StrId(configId.value) !in old(managedSwitches)) ==>
        && reply == Failed(UnknownSwitch)
        && managedSwitches == old(managedSwitches) && store.switches == old(store.switches)
      ensures configId.Some? && StrId(configId.value) in old(managedSwitches) ==>
        && reply == Sent(configId.value)
        && managedSwitches == old(managedSwitches) - {StrId(configId.value)}
        && store.switches == old(store.switches) - {StrId(configId.value)}
    {
      if configId.None? || StrId(configId.value) !in managedSwitches {
        return Failed(UnknownSwitch);
      }
      var id := StrId(configId.value);
      ConsistentAfterDelete(managedSwitches, store.switches, id);
      RemoveSwitchConfig(id);
      store.DeleteManagedSwitch(id);
      reply := Sent(configId.value);
    }
  }
}
