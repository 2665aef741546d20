/**
 * The override pass that both the eager resolver's constructor and the TomEE
 * observer run: a loop over the entries of the resolved table that replaces
 * the value of every key the overrides also hold, with `setValue`, so no key
 * is added or removed.
 */
module Overrides {
  import opened Interpolation

  /** The table after the pass. */
  function Overridden(resolved: Properties, overrides: Properties): (r: Properties)
    ensures r.Keys == resolved.Keys
  {
    map k | k in resolved :: if k in overrides then overrides[k] else resolved[k]
  }

  /**
   * The entry loop. Its order is the hashtable's and is left open: the method
   * is proved for every order in which the keys can be visited.
   */
  method ApplyOverrides(resolved: Properties, overrides: Properties) returns (merged: Properties)
    ensures merged == Overridden(resolved, overrides)
  {
    merged := resolved;
    var pending := resolved.Keys;
    while pending != {}
      invariant pending <= resolved.Keys && merged.Keys == resolved.Keys
      invariant forall k :: k in resolved && k in pending ==> merged[k] == resolved[k]
      invariant forall k :: k in resolved && k !in pending ==> merged[k] == Overridden(resolved, overrides)[k]
      decreases pending
    {
      var key :| key in pending;
      if key in overrides {
        merged := merged[key := overrides[key]];
      }
      pending := pending - {key};
    }
  }

  /** The override wins for every key both tables hold. */
  lemma OverrideWins(resolved: Properties, overrides: Properties, key: string)
    requires key in resolved && key in overrides
    ensures Overridden(resolved, overrides)[key] == overrides[key]
  {
  }

  /** A key the overrides do not hold keeps its value. */
  lemma OthersKeepTheirValue(resolved: Properties, overrides: Properties, key: string)
    requires key in resolved && key !in overrides
    ensures Overridden(resolved, overrides)[key] == resolved[key]
  {
  }

  /**
   * The pass is `putAll` of the overrides restricted to the keys already
   * present: keys held only by the overrides are not added.
   */
  lemma OverriddenIsRestrictedPutAll(resolved: Properties, overrides: Properties)
    ensures Overridden(resolved, overrides) == resolved + map k | k in overrides && k in resolved :: overrides[k]
  {
    var r := Overridden(resolved, overrides);
    var u := resolved + map k | k in overrides && k in resolved :: overrides[k];
    assert r.Keys == u.Keys;
    forall k | k in r
      ensures r[k] == u[k]
    {
    }
  }

  /** No overrides, no change. */
  lemma NoOverrides(resolved: Properties)
    ensures Overridden(resolved, map[]) == resolved
  {
    assert forall k :: k in resolved ==> Overridden(resolved, map[])[k] == resolved[k];
  }

  /** A second pass with the same overrides changes nothing. */
  lemma OverridesIdempotent(resolved: Properties, overrides: Properties)
    ensures Overridden(Overridden(resolved, overrides), overrides) == Overridden(resolved, overrides)
  {
    var once := Overridden(resolved, overrides);
    assert forall k :: k in once ==> Overridden(once, overrides)[k] == once[k];
  }
}
