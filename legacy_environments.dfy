/**
 * `Environments.getProperties` of the eager resolver (the src/ tree). It reads
 * like the lazy one, with three differences: the environment list is never
 * null, a `base.properties` that is found but cannot be read raises, and the
 * exceptions are `IllegalArgumentException` (not found) and
 * `IllegalStateException` (not readable).
 */
module LegacyEnvironments {
  import opened Wrappers
  import opened Faults
  import opened Interpolation
  import opened JavaSplit
  import opened Resources
  import Lazy = Environments

  /** What `base.properties` contributes: nothing when it is absent; a found one must load. */
  function BaseProperties(cp: Classpath): Result<Properties, Fault> {
    if GetResource(cp, ResourceName("base")).None? then Success(map[])
    else Load(Legacy, cp, "base")
  }

  /** Every overlay of the list laid over `base`, before interpolation. */
  function Combined(cp: Classpath, list: string): (r: Result<Properties, Fault>)
    ensures BaseProperties(cp).Failure? ==> r == BaseProperties(cp)
    ensures r.Success? ==> BaseProperties(cp).Success? && BaseProperties(cp).value.Keys <= r.value.Keys
  {
    var base := BaseProperties(cp);
    if base.Failure? then base else Merged(Legacy, cp, Split(list), base.value)
  }

  /** What `getProperties(value)` returns or throws. */
  function Environment(loader: Loader, list: string): (r: Result<Properties, Fault>)
    ensures Combined(loader.classpath, list).Failure? ==> r == Combined(loader.classpath, list)
    ensures r.Success? ==> Combined(loader.classpath, list).Success? &&
                           r.value.Keys == Combined(loader.classpath, list).value.Keys
  {
    Finished(loader, Combined(loader.classpath, list))
  }

  method GetProperties(loader: Loader, list: string) returns (r: Result<Properties, Fault>)
    requires ValidLoader(loader)
    ensures r == Environment(loader, list)
  {
    var cp := loader.classpath;
    var properties: Properties := map[];
    if GetResource(cp, ResourceName("base")).Some? {
      var base := Load(Legacy, cp, "base");
      if base.Failure? {
        return Failure(base.error);
      }
      properties := properties + base.value;
      assert properties == base.value;
    }
    assert Success(properties) == BaseProperties(cp);
    var merged := MergeAll(Legacy, cp, Split(list), properties);
    r := Finish(loader, merged);
  }

  /** Without `base.properties` loading starts from an empty table. */
  lemma BaseIsOptional(loader: Loader, list: string)
    requires GetResource(loader.classpath, ResourceName("base")).None?
    ensures Combined(loader.classpath, list) == Merged(Legacy, loader.classpath, Split(list), map[])
  {
  }

  /** A `base.properties` that is found but cannot be read raises an `IllegalStateException` naming its URL. */
  lemma BaseFailurePropagates(loader: Loader, list: string)
    requires GetResource(loader.classpath, ResourceName("base")).Some?
    requires GetResource(loader.classpath, ResourceName("base")).value.content.Unreadable?
    ensures Environment(loader, list) ==
            Failure(Unloadable(Legacy, GetResource(loader.classpath, ResourceName("base")).value.url))
  {
  }

  /** A key set by an overlay takes the value of the last overlay in the list that sets it, over `base` too. */
  lemma LastOverlayWins(loader: Loader, list: string, key: string, j: nat)
    requires Combined(loader.classpath, list).Success?
    requires j < |Split(list)| && Supplies(Legacy, loader.classpath, Split(list)[j], key)
    requires forall i :: j < i < |Split(list)| ==> !Supplies(Legacy, loader.classpath, Split(list)[i], key)
    ensures key in Combined(loader.classpath, list).value
    ensures Combined(loader.classpath, list).value[key] == Load(Legacy, loader.classpath, Split(list)[j]).value[key]
  {
    MergedLastWins(Legacy, loader.classpath, Split(list), BaseProperties(loader.classpath).value, key, j);
  }

  /** The first environment in the list that is not on the classpath raises the `IllegalArgumentException` "Can not find environment `<name>.properties` from the classpath." */
  lemma MissingEnvironment(loader: Loader, list: string, j: nat)
    requires BaseProperties(loader.classpath).Success?
    requires j < |Split(list)|
    requires GetResource(loader.classpath, ResourceName(Split(list)[j])).None?
    requires forall i :: 0 <= i < j ==> Load(Legacy, loader.classpath, Split(list)[i]).Success?
    ensures Environment(loader, list) == Failure(NotFound(Legacy, ResourceName(Split(list)[j])))
  {
    MergedFailsAtFirst(Legacy, loader.classpath, Split(list), BaseProperties(loader.classpath).value, j);
  }

  /** The first environment in the list that cannot be read raises the `IllegalStateException` "Can not load environment `<url>`." */
  lemma UnreadableEnvironment(loader: Loader, list: string, j: nat)
    requires BaseProperties(loader.classpath).Success?
    requires j < |Split(list)|
    requires GetResource(loader.classpath, ResourceName(Split(list)[j])).Some?
    requires GetResource(loader.classpath, ResourceName(Split(list)[j])).value.content.Unreadable?
    requires forall i :: 0 <= i < j ==> Load(Legacy, loader.classpath, Split(list)[i]).Success?
    ensures Environment(loader, list) ==
            Failure(Unloadable(Legacy, GetResource(loader.classpath, ResourceName(Split(list)[j])).value.url))
  {
    MergedFailsAtFirst(Legacy, loader.classpath, Split(list), BaseProperties(loader.classpath).value, j);
  }

  /**
   * The table returned has exactly the merged keys and no placeholder left
   * that the table itself can resolve.
   */
  lemma EnvironmentIsInterpolated(loader: Loader, list: string)
    requires ValidLoader(loader) && Environment(loader, list).Success?
    ensures Combined(loader.classpath, list).Success?
    ensures Environment(loader, list).value.Keys == Combined(loader.classpath, list).value.Keys
    ensures Stable(Environment(loader, list).value)
  {
    FinishedIsStable(loader, Combined(loader.classpath, list));
  }

  /**
   * Where every resource the two loaders touch can be read, the eager loader
   * returns what the lazy one returns for the same list: the copies differ
   * only on failures.
   */
  lemma {:induction false} SameMergeWhenReadable(cp: Classpath, names: seq<string>, acc: Properties)
    requires forall i :: 0 <= i < |names| ==> Load(Legacy, cp, names[i]).Success?
    ensures Merged(Legacy, cp, names, acc) == Merged(Sabot, cp, names, acc)
    decreases |names|
  {
    if names != [] {
      assert forall i :: 0 < i < |names| ==> names[1..][i - 1] == names[i];
      SameMergeWhenReadable(cp, names[1..], acc + Load(Legacy, cp, names[0]).value);
    }
  }

  /** The same holds for the whole load, base included. */
  lemma SameAsLazyWhenReadable(loader: Loader, list: string)
    requires BaseProperties(loader.classpath).Success?
    requires forall i :: 0 <= i < |Split(list)| ==> Load(Legacy, loader.classpath, Split(list)[i]).Success?
    ensures Environment(loader, list) == Lazy.Environment(loader, Some(list))
  {
    var cp := loader.classpath;
    assert BaseProperties(cp).value == Lazy.BaseProperties(cp);
    SameMergeWhenReadable(cp, Split(list), Lazy.BaseProperties(cp));
  }
}
