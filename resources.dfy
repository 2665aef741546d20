/**
 * Reading `<name>.properties` overlays through the context class loader, the
 * part both `Environments` classes share: `getResource`, `load` and the loop
 * that lays the loaded overlays over one another with `putAll`.
 *
 * The class loader is a map from resource name to resource; a name it does not
 * hold is not found. Parsing the `.properties` text is not modelled: a found
 * resource either reads to its table or fails with an `IOException`.
 */
module Resources {
  import opened Wrappers
  import opened Faults
  import opened Interpolation

  /** What opening and parsing a found resource gives. */
  datatype Content = Parsed(properties: Properties) | Unreadable

  /** A resource the class loader found: the external form of its URL and its content. */
  datatype Resource = Resource(url: string, content: Content)

  type Classpath = map<string, Resource>

  /**
   * What loading an environment reads from the running JVM: the class loader,
   * the iteration order its hashtables give a key set, and how many passes of
   * the interpolation loop the model follows before giving up.
   */
  datatype Loader = Loader(classpath: Classpath, order: set<string> -> seq<string>, fuel: nat)

  ghost predicate ValidLoader(loader: Loader) {
    forall keys :: IsOrderOf(loader.order(keys), keys)
  }

  /** The two copies of `Environments` differ only in the exceptions they raise. */
  datatype Dialect =
    /** sabot/ : `ResourceException` for both failures. */
    | Sabot
    /** src/ : `IllegalArgumentException` or `IllegalStateException`. */
    | Legacy

  /** The bare name first; `"/" + name` only when the bare name is not found. */
  function GetResource(cp: Classpath, name: string): (r: Option<Resource>)
    ensures name in cp ==> r == Some(cp[name])
    ensures name !in cp && "/" + name in cp ==> r == Some(cp["/" + name])
    ensures r.None? <==> name !in cp && "/" + name !in cp
  {
    if name in cp then Some(cp[name])
    else if "/" + name in cp then Some(cp["/" + name])
    else None
  }

  function ResourceName(value: string): string {
    value + ".properties"
  }

  function NotFound(dialect: Dialect, resourceName: string): Fault {
    match dialect
    case Sabot => ResourceException("Unable to find '" + resourceName + "' on the classpath")
    case Legacy => IllegalArgumentException("Can not find environment `" + resourceName + "` from the classpath.")
  }

  function Unloadable(dialect: Dialect, url: string): Fault {
    match dialect
    case Sabot => ResourceException("Failed to load environment '" + url + "'")
    case Legacy => IllegalStateException("Can not load environment `" + url + "`.")
  }

  /** `load(value)`: the table in `<value>.properties`. */
  function Load(dialect: Dialect, cp: Classpath, value: string): (r: Result<Properties, Fault>)
    ensures r.Success? <==> GetResource(cp, ResourceName(value)).Some? && GetResource(cp, ResourceName(value)).value.content.Parsed?
    ensures r.Success? ==> r.value == GetResource(cp, ResourceName(value)).value.content.properties
    ensures GetResource(cp, ResourceName(value)).None? ==> r == Failure(NotFound(dialect, ResourceName(value)))
    ensures GetResource(cp, ResourceName(value)).Some? && GetResource(cp, ResourceName(value)).value.content.Unreadable? ==>
            r == Failure(Unloadable(dialect, GetResource(cp, ResourceName(value)).value.url))
  {
    var found := GetResource(cp, ResourceName(value));
    if found.None? then Failure(NotFound(dialect, ResourceName(value)))
    else if found.value.content.Unreadable? then Failure(Unloadable(dialect, found.value.url))
    else Success(found.value.content.properties)
  }

  /** `properties.putAll(load(name))` for each name in turn, starting from `acc`. */
  function Merged(dialect: Dialect, cp: Classpath, names: seq<string>, acc: Properties): (r: Result<Properties, Fault>)
    ensures r.Success? ==> acc.Keys <= r.value.Keys
    decreases |names|
  {
    if names == [] then Success(acc)
    else
      var loaded := Load(dialect, cp, names[0]);
      if loaded.Failure? then Failure(loaded.error)
      else Merged(dialect, cp, names[1..], acc + loaded.value)
  }

  method MergeAll(dialect: Dialect, cp: Classpath, names: seq<string>, start: Properties) returns (r: Result<Properties, Fault>)
    ensures r == Merged(dialect, cp, names, start)
  {
    var properties := start;
    for i := 0 to |names|
      invariant Merged(dialect, cp, names[i..], properties) == Merged(dialect, cp, names, start)
    {
      assert names[i..][1..] == names[i + 1..];
      var loaded := Load(dialect, cp, names[i]);
      if loaded.Failure? {
        return Failure(loaded.error);
      }
      properties := properties + loaded.value;
    }
    assert names[|names|..] == [];
    r := Success(properties);
  }

  /** Loading `name` succeeds and its table holds `key`. */
  predicate Supplies(dialect: Dialect, cp: Classpath, name: string, key: string) {
    var loaded := Load(dialect, cp, name);
    loaded.Success? && key in loaded.value
  }

  /** The merge succeeds exactly when every name loads. */
  lemma {:induction false} MergedSucceeds(dialect: Dialect, cp: Classpath, names: seq<string>, acc: Properties)
    ensures Merged(dialect, cp, names, acc).Success? <==>
            forall i :: 0 <= i < |names| ==> Load(dialect, cp, names[i]).Success?
    decreases |names|
  {
    if names != [] {
      var loaded := Load(dialect, cp, names[0]);
      if loaded.Success? {
        MergedSucceeds(dialect, cp, names[1..], acc + loaded.value);
        assert forall i :: 1 <= i < |names| ==> names[1..][i - 1] == names[i];
      }
    }
  }

  /** The first name that fails to load decides the exception; later names are not read. */
  lemma {:induction false} MergedFailsAtFirst(dialect: Dialect, cp: Classpath, names: seq<string>, acc: Properties, j: nat)
    requires j < |names| && Load(dialect, cp, names[j]).Failure?
    requires forall i :: 0 <= i < j ==> Load(dialect, cp, names[i]).Success?
    ensures Merged(dialect, cp, names, acc) == Failure(Load(dialect, cp, names[j]).error)
    decreases j
  {
    if j > 0 {
      var loaded := Load(dialect, cp, names[0]);
      assert loaded.Success?;
      assert names[1..][j - 1] == names[j];
      assert forall i :: 0 <= i < j - 1 ==> names[1..][i] == names[i + 1];
      MergedFailsAtFirst(dialect, cp, names[1..], acc + loaded.value, j - 1);
    }
  }

  /** The last overlay that holds a key decides its value. */
  lemma {:induction false} MergedLastWins(dialect: Dialect, cp: Classpath, names: seq<string>, acc: Properties, key: string, j: nat)
    requires Merged(dialect, cp, names, acc).Success?
    requires j < |names| && Supplies(dialect, cp, names[j], key)
    requires forall i :: j < i < |names| ==> !Supplies(dialect, cp, names[i], key)
    ensures key in Merged(dialect, cp, names, acc).value
    ensures Merged(dialect, cp, names, acc).value[key] == Load(dialect, cp, names[j]).value[key]
    decreases |names|
  {
    var loaded := Load(dialect, cp, names[0]);
    assert forall i :: 0 < i < |names| ==> names[1..][i - 1] == names[i];
    if j == 0 {
      MergedKeeps(dialect, cp, names[1..], acc + loaded.value, key);
    } else {
      MergedLastWins(dialect, cp, names[1..], acc + loaded.value, key, j - 1);
    }
  }

  /** A key no overlay holds keeps the value it had before the merge. */
  lemma {:induction false} MergedKeeps(dialect: Dialect, cp: Classpath, names: seq<string>, acc: Properties, key: string)
    requires Merged(dialect, cp, names, acc).Success?
    requires key in acc
    requires forall i :: 0 <= i < |names| ==> !Supplies(dialect, cp, names[i], key)
    ensures key in Merged(dialect, cp, names, acc).value
    ensures Merged(dialect, cp, names, acc).value[key] == acc[key]
    decreases |names|
  {
    if names != [] {
      var loaded := Load(dialect, cp, names[0]);
      assert !Supplies(dialect, cp, names[0], key);
      assert forall i :: 0 < i < |names| ==> names[1..][i - 1] == names[i];
      MergedKeeps(dialect, cp, names[1..], acc + loaded.value, key);
    }
  }

  /** The merge holds a key exactly when the start or one of the overlays does. */
  lemma {:induction false} MergedKeys(dialect: Dialect, cp: Classpath, names: seq<string>, acc: Properties, key: string)
    requires Merged(dialect, cp, names, acc).Success?
    ensures key in Merged(dialect, cp, names, acc).value <==>
            key in acc || exists i :: 0 <= i < |names| && Supplies(dialect, cp, names[i], key)
    decreases |names|
  {
    if names != [] {
      var loaded := Load(dialect, cp, names[0]);
      MergedKeys(dialect, cp, names[1..], acc + loaded.value, key);
      if exists i :: 0 <= i < |names| && Supplies(dialect, cp, names[i], key) {
        var i :| 0 <= i < |names| && Supplies(dialect, cp, names[i], key);
        if i > 0 {
          assert names[1..][i - 1] == names[i];
        }
      }
      if exists i :: 0 <= i < |names[1..]| && Supplies(dialect, cp, names[1..][i], key) {
        var i :| 0 <= i < |names[1..]| && Supplies(dialect, cp, names[1..][i], key);
        assert names[i + 1] == names[1..][i];
      }
    }
  }

  /** `Interpolation.interpolate` applied to a loaded table; running out of fuel is `OutOfFuel`. */
  function Finished(loader: Loader, merged: Result<Properties, Fault>): (r: Result<Properties, Fault>)
    ensures merged.Failure? ==> r == merged
    ensures r.Success? ==> merged.Success? && r.value.Keys == merged.value.Keys
  {
    if merged.Failure? then merged
    else
      var interpolated := Interpolated(merged.value, loader.order(merged.value.Keys), loader.fuel);
      if interpolated.None? then Failure(OutOfFuel) else Success(interpolated.value)
  }

  method Finish(loader: Loader, merged: Result<Properties, Fault>) returns (r: Result<Properties, Fault>)
    requires ValidLoader(loader)
    ensures r == Finished(loader, merged)
  {
    if merged.Failure? {
      return merged;
    }
    var interpolated := Interpolate(merged.value, loader.order(merged.value.Keys), loader.fuel);
    if interpolated.None? {
      return Failure(OutOfFuel);
    }
    r := Success(interpolated.value);
  }

  /** A finished table has the merged table's keys and no placeholder left to resolve. */
  lemma FinishedIsStable(loader: Loader, merged: Result<Properties, Fault>)
    requires ValidLoader(loader) && Finished(loader, merged).Success?
    ensures merged.Success?
    ensures Finished(loader, merged).value.Keys == merged.value.Keys
    ensures Stable(Finished(loader, merged).value)
  {
    var order := loader.order(merged.value.Keys);
    InterpolatedIsStable(merged.value, order, loader.fuel);
  }

  /** A loaded table with no placeholder to resolve is returned as it is, with any fuel. */
  lemma FinishedStable(loader: Loader, properties: Properties)
    requires ValidLoader(loader) && Stable(properties) && loader.fuel >= 1
    ensures Finished(loader, Success(properties)) == Success(properties)
  {
    StableIsFixed(properties, loader.order(properties.Keys), loader.fuel);
  }
}
