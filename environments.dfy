/**
 * `Environments.getProperties` of the lazy resolver (the sabot/ tree): the
 * optional `base` overlay, then each environment named in a comma-separated
 * list, from left to right, then interpolation. Loading `base` can fail
 * without effect; a missing or unreadable environment raises a
 * `ResourceException`; a null list loads `base` alone.
 */
module Environments {
  import opened Wrappers
  import opened Faults
  import opened Interpolation
  import opened JavaSplit
  import opened Resources

  /** What `base.properties` contributes: nothing when it is absent or fails to load. */
  function BaseProperties(cp: Classpath): Properties {
    if GetResource(cp, ResourceName("base")).None? then map[]
    else
      var loaded := Load(Sabot, cp, "base");
      if loaded.Success? then loaded.value else map[]
  }

  /** The names in the environment list; a null list names none. */
  function Overlays(environments: Option<string>): seq<string> {
    if environments.None? then [] else Split(environments.value)
  }

  /** Every overlay laid over `base`, before interpolation. */
  function Combined(cp: Classpath, environments: Option<string>): (r: Result<Properties, Fault>)
    ensures environments.None? ==> r == Success(BaseProperties(cp))
    ensures r.Success? ==> BaseProperties(cp).Keys <= r.value.Keys
  {
    Merged(Sabot, cp, Overlays(environments), BaseProperties(cp))
  }

  /** What `getProperties(environments)` returns or throws. */
  function Environment(loader: Loader, environments: Option<string>): (r: Result<Properties, Fault>)
    ensures Combined(loader.classpath, environments).Failure? ==> r == Combined(loader.classpath, environments)
    ensures r.Success? ==> Combined(loader.classpath, environments).Success? &&
                           r.value.Keys == Combined(loader.classpath, environments).value.Keys
  {
    Finished(loader, Combined(loader.classpath, environments))
  }

  method GetProperties(loader: Loader, environments: Option<string>) returns (r: Result<Properties, Fault>)
    requires ValidLoader(loader)
    ensures r == Environment(loader, environments)
  {
    var cp := loader.classpath;
    var properties: Properties := map[];
    if GetResource(cp, ResourceName("base")).Some? {
      var base := Load(Sabot, cp, "base");
      if base.Success? {
        properties := properties + base.value;
      }
    }
    assert properties == BaseProperties(cp);
    var merged := Success(properties);
    if environments.Some? {
      merged := MergeAll(Sabot, cp, Split(environments.value), properties);
    }
    r := Finish(loader, merged);
  }

  /** Without `base.properties` loading starts from an empty table. */
  lemma BaseIsOptional(cp: Classpath)
    requires GetResource(cp, ResourceName("base")).None?
    ensures BaseProperties(cp) == map[]
  {
  }

  /** A `base.properties` that is found but cannot be read contributes nothing and raises nothing. */
  lemma BaseFailureIsSwallowed(loader: Loader, environments: Option<string>)
    requires GetResource(loader.classpath, ResourceName("base")).Some?
    requires GetResource(loader.classpath, ResourceName("base")).value.content.Unreadable?
    ensures Combined(loader.classpath, environments) == Merged(Sabot, loader.classpath, Overlays(environments), map[])
  {
  }

  /** A null environment list gives `base` alone, interpolated; it cannot fail to load. */
  lemma NullEnvironmentIsBase(loader: Loader)
    ensures Environment(loader, None) == Finished(loader, Success(BaseProperties(loader.classpath)))
  {
  }

  /** A key set by an overlay takes the value of the last overlay in the list that sets it, over `base` too. */
  lemma LastOverlayWins(loader: Loader, list: string, key: string, j: nat)
    requires Combined(loader.classpath, Some(list)).Success?
    requires j < |Split(list)| && Supplies(Sabot, loader.classpath, Split(list)[j], key)
    requires forall i :: j < i < |Split(list)| ==> !Supplies(Sabot, loader.classpath, Split(list)[i], key)
    ensures key in Combined(loader.classpath, Some(list)).value
    ensures Combined(loader.classpath, Some(list)).value[key] == Load(Sabot, loader.classpath, Split(list)[j]).value[key]
  {
    MergedLastWins(Sabot, loader.classpath, Split(list), BaseProperties(loader.classpath), key, j);
  }

  /** The first environment in the list that is not on the classpath raises the `ResourceException` "Unable to find '<name>.properties' on the classpath". */
  lemma MissingEnvironment(loader: Loader, list: string, j: nat)
    requires j < |Split(list)|
    requires GetResource(loader.classpath, ResourceName(Split(list)[j])).None?
    requires forall i :: 0 <= i < j ==> Load(Sabot, loader.classpath, Split(list)[i]).Success?
    ensures Environment(loader, Some(list)) == Failure(NotFound(Sabot, ResourceName(Split(list)[j])))
  {
    MergedFailsAtFirst(Sabot, loader.classpath, Split(list), BaseProperties(loader.classpath), j);
  }

  /** The first environment in the list that cannot be read raises the `ResourceException` "Failed to load environment '<url>'". */
  lemma UnreadableEnvironment(loader: Loader, list: string, j: nat)
    requires j < |Split(list)|
    requires GetResource(loader.classpath, ResourceName(Split(list)[j])).Some?
    requires GetResource(loader.classpath, ResourceName(Split(list)[j])).value.content.Unreadable?
    requires forall i :: 0 <= i < j ==> Load(Sabot, loader.classpath, Split(list)[i]).Success?
    ensures Environment(loader, Some(list)) ==
            Failure(Unloadable(Sabot, GetResource(loader.classpath, ResourceName(Split(list)[j])).value.url))
  {
    MergedFailsAtFirst(Sabot, loader.classpath, Split(list), BaseProperties(loader.classpath), j);
  }

  /**
   * The table returned has exactly the merged keys and no placeholder left
   * that the table itself can resolve.
   */
  lemma EnvironmentIsInterpolated(loader: Loader, environments: Option<string>)
    requires ValidLoader(loader) && Environment(loader, environments).Success?
    ensures Combined(loader.classpath, environments).Success?
    ensures Environment(loader, environments).value.Keys == Combined(loader.classpath, environments).value.Keys
    ensures Stable(Environment(loader, environments).value)
  {
    FinishedIsStable(loader, Combined(loader.classpath, environments));
  }
}
