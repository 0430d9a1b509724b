/**
 * The blueprint registry: `_init_blueprints` validates every definition the
 * loader found and registers the valid ones under their ids;
 * `_get_blueprint` resolves an id against the registry and falls back to
 * the raw id.
 */
module Blueprints {
  import opened JsonValues
  import opened Schema
  import opened Schemas

  /** One entry of `load_blueprints`: the directory-derived id, the parsed
      definition file and whether an image sits beside it. */
  datatype LoadedBlueprint = LoadedBlueprint(id: string, data: Json, hasImage: bool)

  /** A registered blueprint: its id, the validated definition and
      `has_image`. */
  datatype Blueprint = Blueprint(id: string, data: Json, hasImage: bool)

  /** What `_get_blueprint` returns: a registered blueprint, or the id it
      was given when no blueprint is registered under it. */
  datatype BlueprintRef = Resolved(blueprint: Blueprint) | Unresolved(raw: Json)

  predicate Accepted(e: LoadedBlueprint)
  {
    Validate(BlueprintSchema, e.data).Ok?
  }

  /** The registry that registering `entries` in order into an empty map
      yields: a valid entry is stored under its id (replacing an earlier
      entry with the same id), an invalid one is skipped. */
  function BuildRegistry(entries: seq<LoadedBlueprint>): (registry: map<string, Blueprint>)
  {
    if entries == [] then map[]
    else
      var last := entries[|entries| - 1];
      var before := BuildRegistry(entries[..|entries| - 1]);
      match Validate(BlueprintSchema, last.data)
      case Ok(validated) => before[last.id := Blueprint(last.id, validated, last.hasImage)]
      case Err(_) => before
  }

  /** `i` is the last entry registered under `id`. */
  predicate LastAcceptedWithId(entries: seq<LoadedBlueprint>, id: string, i: int)
  {
    && 0 <= i < |entries| && entries[i].id == id && Accepted(entries[i])
    && forall j :: i < j < |entries| && entries[j].id == id ==> !Accepted(entries[j])
  }

  /** The registry holds exactly the ids of the valid entries. */
  lemma {:induction false} RegistryKeys(entries: seq<LoadedBlueprint>, id: string)
    ensures id in BuildRegistry(entries) <==>
      exists i :: 0 <= i < |entries| && entries[i].id == id && Accepted(entries[i])
  {
    if entries != [] {
      var n := |entries| - 1;
      var init := entries[..n];
      RegistryKeys(init, id);
      assert forall i :: 0 <= i < n ==> init[i] == entries[i];
      if id in BuildRegistry(entries) && entries[n].id != id {
        var i :| 0 <= i < n && init[i].id == id && Accepted(init[i]);
        assert entries[i].id == id && Accepted(entries[i]);
      }
    }
  }

  /** The blueprint registered under an id is the one built from the last
      valid entry with that id: its validated definition and its image flag. */
  lemma {:induction false} RegistryEntry(entries: seq<LoadedBlueprint>, id: string, i: int)
    requires LastAcceptedWithId(entries, id, i)
    ensures id in BuildRegistry(entries)
    ensures BuildRegistry(entries)[id] ==
      Blueprint(id, Validate(BlueprintSchema, entries[i].data).value, entries[i].hasImage)
  {
    var n := |entries| - 1;
    var init := entries[..n];
    if i < n {
      assert LastAcceptedWithId(init, id, i) by {
        assert forall j :: i < j < n ==> init[j] == entries[j];
      }
      RegistryEntry(init, id, i);
    }
  }

  /** An invalid definition is skipped without affecting any other entry:
      the registry is the one built without it. */
  lemma {:induction false} InvalidEntrySkipped(before: seq<LoadedBlueprint>, bad: LoadedBlueprint, after: seq<LoadedBlueprint>)
    requires !Accepted(bad)
    ensures BuildRegistry(before + [bad] + after) == BuildRegistry(before + after)
    decreases |after|
  {
    if after == [] {
      assert (before + [bad] + after)[..|before|] == before;
      assert before + after == before;
    } else {
      var n := |after| - 1;
      InvalidEntrySkipped(before, bad, after[..n]);
      assert (before + [bad] + after)[..|before| + 1 + n] == before + [bad] + after[..n];
      assert (before + after)[..|before| + n] == before + after[..n];
    }
  }

  /** The number of valid entries. */
  function CountAccepted(entries: seq<LoadedBlueprint>): (count: nat)
  {
    if entries == [] then 0
    else CountAccepted(entries[..|entries| - 1]) + (if Accepted(entries[|entries| - 1]) then 1 else 0)
  }

  predicate DistinctIds(entries: seq<LoadedBlueprint>)
  {
    forall i, j :: 0 <= i < j < |entries| ==> entries[i].id != entries[j].id
  }

  /** With distinct ids, every valid entry is registered: the registry has
      exactly as many blueprints as there are valid definitions. */
  lemma {:induction false} RegistrySize(entries: seq<LoadedBlueprint>)
    requires DistinctIds(entries)
    ensures |BuildRegistry(entries)| == CountAccepted(entries)
  {
    if entries != [] {
      var n := |entries| - 1;
      var init := entries[..n];
      assert DistinctIds(init);
      RegistrySize(init);
      if Accepted(entries[n]) {
        RegistryKeys(init, entries[n].id);
        assert entries[n].id !in BuildRegistry(init);
      }
    }
  }

  /** `_get_blueprint`: the registered blueprint when the id is a key of the
      registry, the id itself otherwise. */
  function GetBlueprint(registry: map<string, Blueprint>, id: Json): (r: BlueprintRef)
    ensures r.Resolved? <==> id.JStr? && id.s in registry
    ensures r.Resolved? ==> r.blueprint == registry[id.s]
    ensures r.Unresolved? ==> r.raw == id
  {
    if id.JStr? && id.s in registry then Resolved(registry[id.s]) else Unresolved(id)
  }

  /** After the registry is built, an id resolves exactly when some valid
      definition carried it, and then to a blueprint with that id whose every
      button has an allowed shape. */
  lemma ResolvedAfterInit(entries: seq<LoadedBlueprint>, id: string)
    ensures GetBlueprint(BuildRegistry(entries), JStr(id)).Resolved? <==>
      exists i :: 0 <= i < |entries| && entries[i].id == id && Accepted(entries[i])
    ensures var r := GetBlueprint(BuildRegistry(entries), JStr(id));
      r.Resolved? ==> r.blueprint.id == id && ButtonsHaveShapes(r.blueprint.data)
  {
    RegistryKeys(entries, id);
    var registry := BuildRegistry(entries);
    if id in registry {
      var i :| 0 <= i < |entries| && entries[i].id == id && Accepted(entries[i]);
      var last := LastIndexAccepted(entries, id, i);
      RegistryEntry(entries, id, last);
      ValidatedBlueprintShapes(entries[last].data, Validate(BlueprintSchema, entries[last].data).value);
    }
  }

  /** Every button of a validated blueprint definition has a shape from
      `Shapes`. */
  predicate ButtonsHaveShapes(data: Json)
  {
    && data.JObj? && "buttons" in data.fields && data.fields["buttons"].JList?
    && forall k :: 0 <= k < |data.fields["buttons"].items| ==>
         var b := data.fields["buttons"].items[k];
         b.JObj? && "shape" in b.fields && b.fields["shape"].JStr? && b.fields["shape"].s in Shapes
  }

  /** Finds the last valid entry with a given id, starting from a known one. */
  lemma {:induction false} LastIndexAccepted(entries: seq<LoadedBlueprint>, id: string, i: int) returns (last: int)
    requires 0 <= i < |entries| && entries[i].id == id && Accepted(entries[i])
    ensures LastAcceptedWithId(entries, id, last)
    decreases |entries| - i
  {
    if j :| i < j < |entries| && entries[j].id == id && Accepted(entries[j]) {
      last := LastIndexAccepted(entries, id, j);
    } else {
      last := i;
    }
  }
}
