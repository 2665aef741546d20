/**
 * The eager `ConfigurationResolver` of the src/ tree. Its constructor loads
 * the environment named by the TomEE option "environment" (by default
 * "test") and then lets the TomEE system properties override loaded keys.
 * The table never changes afterwards, so the resolver is a value.
 */
module LegacyResolver {
  import opened Wrappers
  import opened Faults
  import opened Interpolation
  import opened Resources
  import opened Overrides
  import opened Lookup
  import LegacyEnvironments

  datatype ConfigurationResolver = ConfigurationResolver(environment: string, properties: Properties)
  {
    /** `isResolvableConfig`: the key's null check first, then the default's, then the lookup. */
    function IsResolvableConfig(key: Option<string>, defaultValue: Option<string>): (r: Result<bool, Fault>)
      ensures key.None? ==> r == Failure(NullPointerException("config key can not be null"))
      ensures key.Some? && defaultValue.None? ==> r == Failure(NullPointerException("default config value can not be null"))
      ensures key.Some? && defaultValue.Some? ==> r == Success(key.value in properties || defaultValue.value != "")
    {
      Resolvable(properties, key, defaultValue)
    }

    /** `resolve`: the same null checks, then the stored value or else the default. */
    function Resolve(key: Option<string>, defaultValue: Option<string>): (r: Result<string, Fault>)
      ensures key.None? ==> r == Failure(NullPointerException("config key can not be null"))
      ensures key.Some? && defaultValue.None? ==> r == Failure(NullPointerException("default config value can not be null"))
      ensures key.Some? && defaultValue.Some? && key.value in properties ==> r == Success(properties[key.value])
      ensures key.Some? && defaultValue.Some? && key.value !in properties ==> r == Success(defaultValue.value)
    {
      Resolution(properties, key, defaultValue)
    }

    function GetEnvironment(): string {
      environment
    }
  }

  /** `getOptions().get("environment", "test")`. */
  function EnvironmentOption(options: map<string, string>): (name: string)
    ensures "environment" in options ==> name == options["environment"]
    ensures "environment" !in options ==> name == "test"
  {
    if "environment" in options then options["environment"] else "test"
  }

  /** What the constructor builds or throws, given the TomEE options and system properties. */
  function Constructed(options: map<string, string>, loader: Loader, overrides: Properties): (r: Result<ConfigurationResolver, Fault>)
    ensures r.Failure? <==> LegacyEnvironments.Environment(loader, EnvironmentOption(options)).Failure?
    ensures r.Failure? ==> r.error == LegacyEnvironments.Environment(loader, EnvironmentOption(options)).error
    ensures r.Success? ==> r.value.properties.Keys == LegacyEnvironments.Environment(loader, EnvironmentOption(options)).value.Keys
  {
    var environment := EnvironmentOption(options);
    var loaded := LegacyEnvironments.Environment(loader, environment);
    if loaded.Failure? then Failure(loaded.error)
    else Success(ConfigurationResolver(environment, Overridden(loaded.value, overrides)))
  }

  /** The constructor: `putAll` of the loaded environment, then the override pass. */
  method New(options: map<string, string>, loader: Loader, overrides: Properties) returns (r: Result<ConfigurationResolver, Fault>)
    requires ValidLoader(loader)
    ensures r == Constructed(options, loader, overrides)
  {
    var environment := EnvironmentOption(options);
    var loaded := LegacyEnvironments.GetProperties(loader, environment);
    if loaded.Failure? {
      return Failure(loaded.error);
    }
    var properties: Properties := map[];
    properties := properties + loaded.value;
    assert properties == loaded.value;
    properties := ApplyOverrides(properties, overrides);
    r := Success(ConfigurationResolver(environment, properties));
  }

  /**
   * The overrides come after interpolation: a stored value is the override
   * text as it is, placeholders included, or else the interpolated loaded
   * value; the keys are the loaded keys.
   */
  lemma OverridesComeAfterInterpolation(options: map<string, string>, loader: Loader, overrides: Properties, key: string)
    requires Constructed(options, loader, overrides).Success?
    ensures LegacyEnvironments.Environment(loader, EnvironmentOption(options)).Success?
    ensures Constructed(options, loader, overrides).value.properties.Keys ==
            LegacyEnvironments.Environment(loader, EnvironmentOption(options)).value.Keys
    ensures key in Constructed(options, loader, overrides).value.properties ==>
            Constructed(options, loader, overrides).value.properties[key] ==
            if key in overrides then overrides[key] else LegacyEnvironments.Environment(loader, EnvironmentOption(options)).value[key]
  {
  }

  /** `getEnvironment` reports the environment the constructor loaded: the "environment" option, or "test". */
  lemma ConstructedEnvironment(options: map<string, string>, loader: Loader, overrides: Properties)
    requires Constructed(options, loader, overrides).Success?
    ensures Constructed(options, loader, overrides).value.GetEnvironment() == EnvironmentOption(options)
    ensures LegacyEnvironments.Environment(loader, Constructed(options, loader, overrides).value.GetEnvironment()).Success?
  {
  }

  /** Without the option the resolver reports and loads the "test" environment. */
  lemma DefaultEnvironmentIsTest(loader: Loader, overrides: Properties)
    requires Constructed(map[], loader, overrides).Success?
    ensures Constructed(map[], loader, overrides).value.GetEnvironment() == "test"
    ensures Constructed(map[], loader, overrides).value.properties ==
            Overridden(LegacyEnvironments.Environment(loader, "test").value, overrides)
  {
  }
}
