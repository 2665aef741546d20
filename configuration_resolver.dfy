/**
 * The lazy `ConfigurationResolver` of the sabot/ tree: a table filled on the
 * first lookup, a one-shot `initialized` flag and the list of registered
 * `ConfigurationObserver`s, which may rewrite the table once it is loaded.
 * Calls are taken one at a time; the lock and the atomic flag only order
 * concurrent callers.
 */
module Resolver {
  import opened Wrappers
  import opened Faults
  import opened Interpolation
  import opened JavaSplit
  import opened Resources
  import opened Lookup
  import Environments

  /**
   * What an observer's `mergeConfiguration` does: the table it leaves in place
   * of the one it is handed, and whether it deregisters itself at the end.
   */
  datatype Behaviour = Behaviour(merge: Properties -> Properties, removesItself: bool)

  /**
   * A `ConfigurationObserver` object. The list compares observers with
   * `equals`, which no observer overrides: identity, as for Dafny objects.
   */
  class Observer {
    const behaviour: Behaviour

    constructor (behaviour: Behaviour)
      ensures this.behaviour == behaviour
    {
      this.behaviour := behaviour;
    }
  }

  /**
   * The interface asks observers only to add to or override the table they
   * are handed, never to drop a key.
   */
  ghost predicate FollowsContract(o: Observer) {
    forall p: Properties :: p.Keys <= o.behaviour.merge(p).Keys
  }

  predicate NoDuplicates(observers: seq<Observer>) {
    forall i, j :: 0 <= i < j < |observers| ==> observers[i] != observers[j]
  }

  /** `register`: add unless already there. */
  function Registered(observers: seq<Observer>, o: Observer): (r: seq<Observer>)
    ensures o in r
  {
    if o in observers then observers else observers + [o]
  }

  /** `List.remove(Object)`: drops the first occurrence, if any. */
  function Deregistered(observers: seq<Observer>, o: Observer): (r: seq<Observer>)
    ensures |r| == if o in observers then |observers| - 1 else |observers|
    decreases |observers|
  {
    if observers == [] then []
    else if observers[0] == o then observers[1..]
    else [observers[0]] + Deregistered(observers[1..], o)
  }

  lemma RegisterIsIdempotent(observers: seq<Observer>, o: Observer)
    ensures Registered(Registered(observers, o), o) == Registered(observers, o)
  {
  }

  lemma RegisterKeepsNoDuplicates(observers: seq<Observer>, o: Observer)
    requires NoDuplicates(observers)
    ensures NoDuplicates(Registered(observers, o))
  {
  }

  /** Removing drops `o` and nothing else, and keeps the order of the rest. */
  lemma {:induction false} DeregisterRemoves(observers: seq<Observer>, o: Observer)
    requires NoDuplicates(observers)
    ensures NoDuplicates(Deregistered(observers, o))
    ensures forall x :: x in Deregistered(observers, o) <==> x in observers && x != o
    ensures o !in observers ==> Deregistered(observers, o) == observers
    decreases |observers|
  {
    if observers != [] && observers[0] != o {
      var rest := Deregistered(observers[1..], o);
      DeregisterRemoves(observers[1..], o);
      assert Deregistered(observers, o) == [observers[0]] + rest;
      assert observers[0] !in observers[1..] by {
        forall j | 0 <= j < |observers[1..]| ensures observers[1..][j] != observers[0] {
          assert observers[1..][j] == observers[j + 1];
        }
      }
    }
  }

  /** Deregistering an observer that was just registered restores the list. */
  lemma {:induction false} DeregisterUndoesRegister(observers: seq<Observer>, o: Observer)
    requires o !in observers
    ensures Deregistered(Registered(observers, o), o) == observers
    decreases |observers|
  {
    if observers != [] {
      assert (observers + [o])[1..] == observers[1..] + [o];
      DeregisterUndoesRegister(observers[1..], o);
    }
  }

  /**
   * The snapshot `current` run in order, each observer handed the table the
   * one before it left; one that removes itself leaves `observers`.
   */
  function Notified(resolved: Properties, current: seq<Observer>, observers: seq<Observer>): (r: (Properties, seq<Observer>))
    ensures |r.1| <= |observers|
    decreases |current|
  {
    if current == [] then (resolved, observers)
    else
      var o := current[0];
      Notified(o.behaviour.merge(resolved), current[1..],
               if o.behaviour.removesItself then Deregistered(observers, o) else observers)
  }

  /**
   * After the observers run, an observer is still registered exactly when it
   * was and had no reason to leave: it is not in the snapshot, or it does not
   * remove itself.
   */
  lemma {:induction false} NotifiedObservers(resolved: Properties, current: seq<Observer>, observers: seq<Observer>)
    requires NoDuplicates(observers)
    ensures NoDuplicates(Notified(resolved, current, observers).1)
    ensures forall x :: x in Notified(resolved, current, observers).1 <==>
      x in observers && !(x in current && x.behaviour.removesItself)
    decreases |current|
  {
    if current != [] {
      var o := current[0];
      var next := if o.behaviour.removesItself then Deregistered(observers, o) else observers;
      if o.behaviour.removesItself {
        DeregisterRemoves(observers, o);
      }
      NotifiedObservers(o.behaviour.merge(resolved), current[1..], next);
      assert forall x :: x in current <==> x == o || x in current[1..];
    }
  }

  /** Observers that keep to the interface only ever add keys to the loaded table. */
  lemma {:induction false} NotifiedKeepsKeys(resolved: Properties, current: seq<Observer>, observers: seq<Observer>)
    requires forall i :: 0 <= i < |current| ==> FollowsContract(current[i])
    ensures resolved.Keys <= Notified(resolved, current, observers).0.Keys
    decreases |current|
  {
    if current != [] {
      var o := current[0];
      assert FollowsContract(o);
      assert forall i :: 0 <= i < |current[1..]| ==> current[1..][i] == current[i + 1];
      NotifiedKeepsKeys(o.behaviour.merge(resolved), current[1..],
                        if o.behaviour.removesItself then Deregistered(observers, o) else observers);
    }
  }

  /** What the first `initialize` leaves behind: the table, the observer list and the exception it throws. */
  datatype Startup = Startup(properties: Properties, observers: seq<Observer>, fault: Option<Fault>)

  /** `"..." + environment` prints a null as "null". */
  function Text(environment: Option<string>): string {
    if environment.None? then "null" else environment.value
  }

  /**
   * The first `initialize`: load the environment into the empty table, then
   * run a snapshot of the observers taken before loading. A `ResourceException`
   * is wrapped in a `RuntimeException` and leaves the table empty and the
   * observers unrun.
   */
  function Started(loader: Loader, environment: Option<string>, observers: seq<Observer>): (r: Startup)
    ensures r.fault.Some? <==> Environments.Environment(loader, environment).Failure?
    ensures r.fault.Some? ==> r.properties == map[] && r.observers == observers
    ensures r.fault.None? ==> |r.observers| <= |observers|
  {
    var loaded := Environments.Environment(loader, environment);
    if loaded.Failure? then
      var fault := if loaded.error.ResourceException?
        then RuntimeException("Failed to load environment: " + Text(environment), loaded.error)
        else loaded.error;
      Startup(map[], observers, Some(fault))
    else
      var notified := Notified(loaded.value, observers, observers);
      Startup(notified.0, notified.1, None)
  }

  class ConfigurationResolver {
    /** The `ENVIRONMENT` system property read at construction; `None` is null. */
    const environment: Option<string>
    var properties: Properties
    var initialized: bool
    var observers: seq<Observer>

    ghost predicate Valid()
      reads this
    {
      NoDuplicates(observers) && (!initialized ==> properties == map[])
    }

    constructor (environment: Option<string>)
      ensures Valid() && this.environment == environment
      ensures properties == map[] && !initialized && observers == []
    {
      this.environment := environment;
      properties := map[];
      initialized := false;
      observers := [];
    }

    /**
     * Loads on the call that flips `initialized`; every later call changes
     * nothing. The flag is set before loading, so a load that fails leaves the
     * resolver initialized with an empty table.
     */
    method Initialize(loader: Loader) returns (fault: Option<Fault>)
      requires Valid() && ValidLoader(loader)
      modifies this
      ensures Valid() && initialized
      ensures old(initialized) ==> properties == old(properties) && observers == old(observers) && fault == None
      ensures !old(initialized) ==> Startup(properties, observers, fault) == Started(loader, environment, old(observers))
    {
      if initialized {
        return None;
      }
      initialized := true;
      var current := observers;
      var loaded := Environments.GetProperties(loader, environment);
      if loaded.Failure? {
        var e := loaded.error;
        fault := Some(if e.ResourceException? then RuntimeException("Failed to load environment: " + Text(environment), e) else e);
        return;
      }
      properties := properties + loaded.value;
      assert properties == loaded.value;
      for i := 0 to |current|
        invariant Valid() && initialized
        invariant Notified(properties, current[i..], observers) == Notified(loaded.value, current, current)
      {
        assert current[i..][1..] == current[i + 1..];
        var observer := current[i];
        properties := observer.behaviour.merge(properties);
        if observer.behaviour.removesItself {
          Deregister(observer);
        }
      }
      assert current[|current|..] == [];
      fault := None;
    }

    /** `reset`: empties the table and clears the flag; the observers stay. */
    method Reset()
      requires Valid()
      modifies this
      ensures Valid() && properties == map[] && !initialized && observers == old(observers)
    {
      properties := map[];
      initialized := false;
    }

    method Register(o: Observer)
      requires Valid()
      modifies this
      ensures Valid() && observers == Registered(old(observers), o)
      ensures properties == old(properties) && initialized == old(initialized)
    {
      RegisterKeepsNoDuplicates(observers, o);
      if o !in observers {
        observers := observers + [o];
      }
    }

    method Deregister(o: Observer)
      requires Valid()
      modifies this
      ensures Valid() && observers == Deregistered(old(observers), o)
      ensures properties == old(properties) && initialized == old(initialized)
    {
      DeregisterRemoves(observers, o);
      observers := Deregistered(observers, o);
    }

    /**
     * Initializes first, so a null key or default is rejected only once the
     * table is loaded; a failed first load is thrown instead.
     */
    method IsResolvableConfig(loader: Loader, key: Option<string>, defaultValue: Option<string>) returns (r: Result<bool, Fault>)
      requires Valid() && ValidLoader(loader)
      modifies this
      ensures Valid() && initialized
      ensures old(initialized) ==> properties == old(properties) && observers == old(observers)
      ensures old(initialized) ==> r == Resolvable(properties, key, defaultValue)
      ensures !old(initialized) ==>
        var start := Started(loader, environment, old(observers));
        properties == start.properties && observers == start.observers &&
        r == After(start.fault, Resolvable(properties, key, defaultValue))
    {
      var fault := Initialize(loader);
      r := After(fault, Resolvable(properties, key, defaultValue));
    }

    method Resolve(loader: Loader, key: Option<string>, defaultValue: Option<string>) returns (r: Result<string, Fault>)
      requires Valid() && ValidLoader(loader)
      modifies this
      ensures Valid() && initialized
      ensures old(initialized) ==> properties == old(properties) && observers == old(observers)
      ensures old(initialized) ==> r == Resolution(properties, key, defaultValue)
      ensures !old(initialized) ==>
        var start := Started(loader, environment, old(observers));
        properties == start.properties && observers == start.observers &&
        r == After(start.fault, Resolution(properties, key, defaultValue))
    {
      var fault := Initialize(loader);
      r := After(fault, Resolution(properties, key, defaultValue));
    }

    /** The environment's name, "base" when none was set. */
    function GetEnvironment(): (name: string)
      ensures environment.Some? ==> name == environment.value
      ensures environment.None? ==> name == "base"
    {
      if environment.Some? then environment.value else "base"
    }
  }

  /**
   * Where `base.properties` can be read, the name "base" reported for a
   * missing environment describes what was loaded: listing "base" explicitly
   * loads the same table.
   */
  lemma DefaultNameLoadsBase(loader: Loader)
    requires GetResource(loader.classpath, ResourceName("base")).Some?
    requires GetResource(loader.classpath, ResourceName("base")).value.content.Parsed?
    ensures Environments.Environment(loader, None) == Environments.Environment(loader, Some("base"))
  {
    var cp := loader.classpath;
    var base := Environments.BaseProperties(cp);
    assert Split("base") == ["base"];
    assert Merged(Sabot, cp, ["base"][1..], base + base) == Success(base + base);
    assert base + base == base;
  }

  /** A failed first load throws a `RuntimeException` naming the environment, with the loader's exception as its cause. */
  lemma StartFailureIsWrapped(loader: Loader, environment: Option<string>, observers: seq<Observer>)
    requires Environments.Environment(loader, environment).Failure?
    requires Environments.Environment(loader, environment).error.ResourceException?
    ensures Started(loader, environment, observers) ==
      Startup(map[], observers, Some(RuntimeException("Failed to load environment: " + Text(environment), Environments.Environment(loader, environment).error)))
  {
  }

  /**
   * The observers are handed the table `getProperties` returned, which is
   * already interpolated, and what they leave is stored as it is, whatever
   * they do to it; observers that keep to the interface only add keys.
   */
  lemma ObserversSeeTheLoadedTable(loader: Loader, environment: Option<string>, observers: seq<Observer>)
    requires ValidLoader(loader) && NoDuplicates(observers)
    requires Environments.Environment(loader, environment).Success?
    ensures Started(loader, environment, observers).fault == None
    ensures Started(loader, environment, observers).properties ==
            Notified(Environments.Environment(loader, environment).value, observers, observers).0
    ensures Stable(Environments.Environment(loader, environment).value)
    ensures forall x :: x in Started(loader, environment, observers).observers <==> x in observers && !x.behaviour.removesItself
    ensures (forall i :: 0 <= i < |observers| ==> FollowsContract(observers[i])) ==>
            Environments.Environment(loader, environment).value.Keys <= Started(loader, environment, observers).properties.Keys
  {
    var loaded := Environments.Environment(loader, environment).value;
    Environments.EnvironmentIsInterpolated(loader, environment);
    if forall i :: 0 <= i < |observers| ==> FollowsContract(observers[i]) {
      NotifiedKeepsKeys(loaded, observers, observers);
    }
    NotifiedObservers(loaded, observers, observers);
  }
}
