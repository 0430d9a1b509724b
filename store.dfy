/**
 * The persistent store (store.py is not part of this model): a schema
 * version marker and the persisted switch records, with write-through
 * upsert and delete, and an id allocator.
 */
module Store {
  import opened JsonValues
  import opened Switches

  function Pow10(k: nat): (p: nat)
    ensures p >= 1
  {
    if k == 0 then 1 else 10 * Pow10(k - 1)
  }

  /** A number of at least `10^k` has more than `k` decimal digits. */
  lemma {:induction false} DigitsAtLeast(n: nat, k: nat)
    requires n >= Pow10(k)
    ensures |NatToString(n)| > k
  {
    if k > 0 {
      assert n / 10 >= Pow10(k - 1);
      DigitsAtLeast(n / 10, k - 1);
    }
  }

  class SwitchManagerStore {
    var version: string
    var switches: map<SwitchId, map<string, Json>>

    /** The store as `load()` leaves it. */
    constructor (version: string, switches: map<SwitchId, map<string, Json>>)
      ensures this.version == version && this.switches == switches
    {
      this.version := version;
      this.switches := switches;
    }

    /** `compare_version(v)`: the stored marker equals `v`. */
    predicate CompareVersion(v: string)
      reads this
    {
      version == v
    }

    /** `update_version(v)`. */
    method UpdateVersion(v: string)
      modifies this`version
      ensures version == v
    {
      version := v;
    }

    /** `get_available_id()`: an id no stored switch uses.  The allocator
        hands out the decimal string of a power of ten with more digits
        than any string id in use. */
    method AvailableId() returns (id: SwitchId)
      ensures id !in switches && id.StrId?
      ensures |id.s| >= 1 && forall i :: 0 <= i < |id.s| ==> '0' <= id.s[i] <= '9'
    {
      var longest: nat := 0;
      var rest := switches.Keys;
      while rest != {}
        invariant rest <= switches.Keys
        invariant forall k :: k in switches && k !in rest && k.StrId? ==> |k.s| <= longest
        decreases rest
      {
        var k :| k in rest;
        if k.StrId? && |k.s| > longest {
          longest := |k.s|;
        }
        rest := rest - {k};
      }
      DigitsAtLeast(Pow10(longest), longest);
      id := StrId(NatToString(Pow10(longest)));
    }

    /** `set_managed_switch(config)`: upserts the switch's record. */
    method SetManagedSwitch(c: SwitchConfig)
      modifies this`switches
      ensures switches == old(switches)[c.id := Record(c)]
    {
      switches := switches[c.id := Record(c)];
    }

    /** `delete_managed_switch(id)`: removes the record; an unknown id is
        left alone. */
    method DeleteManagedSwitch(id: SwitchId)
      modifies this`switches
      ensures switches == old(switches) - {id}
    {
      switches := switches - {id};
    }
  }
}
