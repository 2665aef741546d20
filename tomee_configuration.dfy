/**
 * `TomEEConfiguration`, the observer that lets the TomEE system properties
 * override loaded configuration: a static initializer registers one instance
 * with the lazy resolver; its `mergeConfiguration` runs the override pass
 * against `SystemInstance.get().getProperties()` and then deregisters itself.
 * The system properties are an input; `None` is a null table.
 */
module TomEEConfiguration {
  import opened Wrappers
  import opened Interpolation
  import opened Overrides
  import opened Resources
  import opened Resolver
  import Environments

  /** A null table of overrides counts as an empty one. */
  function OverridesOf(system: Option<Properties>): Properties {
    if system.None? then map[] else system.value
  }

  /** The table `mergeConfiguration` leaves. */
  function Merge(resolved: Properties, system: Option<Properties>): (r: Properties)
    ensures r.Keys == resolved.Keys
  {
    Overridden(resolved, OverridesOf(system))
  }

  method MergeConfiguration(resolved: Properties, system: Option<Properties>) returns (merged: Properties)
    ensures merged == Merge(resolved, system)
  {
    var overrides := system;
    if overrides.None? {
      overrides := Some(map[]);
    }
    merged := ApplyOverrides(resolved, overrides.value);
  }

  /** Without system properties the table is left as it is. */
  lemma NullOverridesChangeNothing(resolved: Properties)
    ensures Merge(resolved, None) == resolved
  {
    NoOverrides(resolved);
  }

  /** Each key both tables hold takes the system value; every other key keeps its value; no key is added. */
  lemma MergeOverridesPresentKeys(resolved: Properties, system: Properties)
    ensures Merge(resolved, Some(system)) == resolved + map k | k in system && k in resolved :: system[k]
  {
    OverriddenIsRestrictedPutAll(resolved, system);
  }

  /** The behaviour of the registered instance: a one-time override pass. */
  function TomEEBehaviour(system: Option<Properties>): (b: Behaviour)
    ensures b.removesItself
    ensures forall p :: b.merge(p) == Merge(p, system)
  {
    Behaviour(p => Merge(p, system), true)
  }

  /** The static initializer: a new instance registered with the resolver. */
  method Install(resolver: ConfigurationResolver, system: Option<Properties>) returns (observer: Observer)
    requires resolver.Valid()
    modifies resolver
    ensures fresh(observer) && observer.behaviour == TomEEBehaviour(system)
    ensures resolver.Valid() && resolver.observers == old(resolver.observers) + [observer]
    ensures resolver.properties == old(resolver.properties) && resolver.initialized == old(resolver.initialized)
  {
    observer := new Observer(TomEEBehaviour(system));
    resolver.Register(observer);
  }

  /**
   * With the TomEE observer as the only one registered, the first
   * `initialize` stores the loaded table with the system overrides applied
   * and leaves no observer registered.
   */
  lemma StartupAppliesOverridesOnce(loader: Loader, environment: Option<string>, tomee: Observer, system: Option<Properties>)
    requires tomee.behaviour == TomEEBehaviour(system)
    requires Environments.Environment(loader, environment).Success?
    ensures Started(loader, environment, [tomee]) ==
            Startup(Merge(Environments.Environment(loader, environment).value, system), [], None)
  {
    var loaded := Environments.Environment(loader, environment).value;
    assert [tomee][1..] == [];
    assert Deregistered([tomee], tomee) == [];
    assert tomee.behaviour.merge(loaded) == Merge(loaded, system);
    assert Notified(loaded, [tomee], [tomee]) == Notified(Merge(loaded, system), [], []);
  }
}
