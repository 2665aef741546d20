/**
 * Worked cases: splitting environment lists, loading from a small classpath
 * and the two resolvers on the tables of the TomEE tests.
 */
module ConfigurationExamples {
  import opened Wrappers
  import opened Faults
  import opened Interpolation
  import opened JavaSplit
  import opened Resources
  import opened Overrides
  import opened Lookup
  import opened Resolver
  import opened TomEEConfiguration
  import Environments
  import LegacyEnvironments
  import LegacyResolver

  // ---------------------------------------------------------------------------
  // String.split(" *, *")

  lemma SplitSpacedList()
    ensures Split("dev , prod") == ["dev", "prod"]
  {
    assert FirstComma("dev , prod") == Some(4);
    assert SpacesBefore("dev , prod", 4) == 3;
    assert SpacesAfter("dev , prod", 5) == 6;
    assert "dev , prod"[..3] == "dev";
    assert "dev , prod"[6..] == "prod";
    assert FirstComma("prod").None?;
  }

  /** A leading empty part stays. */
  lemma SplitLeadingEmpty()
    ensures Split(",a") == ["", "a"]
  {
    assert Join(["", "a"]) == ",a";
    SplitJoin(["", "a"]);
  }

  lemma PiecesOfComma()
    ensures Pieces(",") == ["", ""]
  {
    assert FirstComma(",") == Some(0);
    assert SpacesBefore(",", 0) == 0 && SpacesAfter(",", 1) == 1;
    assert ","[..0] == "" && ","[1..] == "";
    assert FirstComma("") == None;
  }

  /** Trailing empty parts go, even when every part is empty; with no comma the input comes back whole. */
  lemma SplitTrailingEmpty()
    ensures Split(",") == []
    ensures Split("a,,") == ["a"]
    ensures Split("") == [""]
  {
    PiecesOfComma();
    assert FirstComma("a,,") == Some(1);
    assert SpacesBefore("a,,", 1) == 1 && SpacesAfter("a,,", 2) == 2;
    assert "a,,"[..1] == "a" && "a,,"[2..] == ",";
    assert Pieces("a,,") == ["a", "", ""];
    assert ["a", "", ""][..2] == ["a", ""] && ["a", ""][..1] == ["a"];
    assert DropTrailingEmpty(["a", "", ""]) == ["a"];
  }

  // ---------------------------------------------------------------------------
  // Loading

  function Base(): Properties {
    map["remote.username" := "joecool", "string.value" := "hello"]
  }

  function Dev(): Properties {
    map["string.value" := "dev"]
  }

  /** `base.properties` is only found under "/", `dev.properties` under its bare name. */
  function Classes(): Classpath {
    map["/base.properties" := Resource("jar:/base.properties", Parsed(Base())),
        "dev.properties" := Resource("jar:dev.properties", Parsed(Dev())),
        "broken.properties" := Resource("jar:broken.properties", Unreadable)]
  }

  lemma Lookups()
    ensures GetResource(Classes(), ResourceName("base")) == Some(Resource("jar:/base.properties", Parsed(Base())))
    ensures GetResource(Classes(), ResourceName("dev")) == Some(Resource("jar:dev.properties", Parsed(Dev())))
    ensures GetResource(Classes(), ResourceName("broken")) == Some(Resource("jar:broken.properties", Unreadable))
  {
    assert ResourceName("base") == "base.properties";
    assert "/" + "base.properties" == "/base.properties";
    assert ResourceName("dev") == "dev.properties";
    assert ResourceName("broken") == "broken.properties";
  }

  lemma QaIsMissing()
    ensures GetResource(Classes(), ResourceName("qa")) == None
  {
    assert ResourceName("qa") == "qa.properties";
    assert "/" + "qa.properties" == "/qa.properties";
    assert |"qa.properties"| == 13 && |"/qa.properties"| == 14;
  }

  lemma BaseFoundUnderSlash()
    ensures Environments.BaseProperties(Classes()) == Base()
    ensures LegacyEnvironments.BaseProperties(Classes()) == Success(Base())
  {
    Lookups();
  }

  /** Both copies load `dev` over `base`: the last overlay wins. */
  lemma DevOverBase()
    ensures Environments.Combined(Classes(), Some("dev")) == Success(Base() + Dev())
    ensures LegacyEnvironments.Combined(Classes(), "dev") == Success(Base() + Dev())
  {
    BaseFoundUnderSlash();
    Lookups();
    assert Split("dev") == ["dev"];
    assert Load(Sabot, Classes(), "dev") == Success(Dev());
    assert Load(Legacy, Classes(), "dev") == Success(Dev());
  }

  lemma DevValues()
    ensures Base() + Dev() == map["remote.username" := "joecool", "string.value" := "dev"]
  {
  }

  /** An environment missing from the classpath: the lazy copy's exception. */
  lemma MissingQa(loader: Loader)
    requires loader.classpath == Classes()
    ensures Environments.Environment(loader, Some("qa")) == Failure(NotFound(Sabot, "qa.properties"))
  {
    assert Split("qa") == ["qa"];
    QaIsMissing();
    assert ResourceName("qa") == "qa.properties";
    Environments.MissingEnvironment(loader, "qa", 0);
  }

  lemma MissingQaMessage()
    ensures NotFound(Sabot, "qa.properties") == ResourceException("Unable to find 'qa.properties' on the classpath")
  {
    assert "Unable to find '" + "qa.properties" == "Unable to find 'qa.properties";
    assert "Unable to find 'qa.properties" + "' on the classpath" == "Unable to find 'qa.properties' on the classpath";
  }

  /** An unreadable environment: the eager copy's exception. */
  lemma BrokenEnvironment(loader: Loader)
    requires loader.classpath == Classes()
    ensures LegacyEnvironments.Environment(loader, "broken") == Failure(Unloadable(Legacy, "jar:broken.properties"))
  {
    BaseFoundUnderSlash();
    Lookups();
    assert Split("broken") == ["broken"];
    LegacyEnvironments.UnreadableEnvironment(loader, "broken", 0);
  }

  lemma BrokenEnvironmentMessage()
    ensures Unloadable(Legacy, "jar:broken.properties") == IllegalStateException("Can not load environment `jar:broken.properties`.")
  {
    assert "Can not load environment `" + "jar:broken.properties" == "Can not load environment `jar:broken.properties";
    assert "Can not load environment `jar:broken.properties" + "`." == "Can not load environment `jar:broken.properties`.";
  }

  // ---------------------------------------------------------------------------
  // The lazy resolver with the TomEE observer

  function System(): Properties {
    map["remote.username" := "joecool override", "tomee.only" := "x"]
  }

  lemma BaseIsLoaded(loader: Loader)
    requires ValidLoader(loader) && loader.classpath == Classes() && loader.fuel >= 1
    ensures Environments.Environment(loader, None) == Success(Base())
  {
    BaseFoundUnderSlash();
    LiteralValuesAreStable(Base());
    FinishedStable(loader, Base());
  }

  /** The override wins for a loaded key; the key only the system table holds is not added. */
  lemma OverriddenBase()
    ensures Merge(Base(), Some(System())) == map["remote.username" := "joecool override", "string.value" := "hello"]
  {
    var merged := Merge(Base(), Some(System()));
    assert merged.Keys == Base().Keys;
    assert merged["remote.username"] == "joecool override";
    assert merged["string.value"] == "hello";
  }

  /**
   * The TomEE observer deregisters itself, so it overrides only the first
   * load: after `reset` the same lookup answers with the packaged value, and
   * both answers beat the default "bob".
   */
  method OverrideLastsOneLoad(loader: Loader) returns (first: Result<string, Fault>, second: Result<string, Fault>)
    requires ValidLoader(loader) && loader.classpath == Classes() && loader.fuel >= 1
    ensures first == Success("joecool override")
    ensures second == Success("joecool")
  {
    var resolver := new ConfigurationResolver(None);
    var tomee := Install(resolver, Some(System()));
    BaseIsLoaded(loader);
    StartupAppliesOverridesOnce(loader, None, tomee, Some(System()));
    OverriddenBase();
    assert resolver.observers == [tomee];
    first := resolver.Resolve(loader, Some("remote.username"), Some("bob"));
    assert resolver.observers == [];
    resolver.Reset();
    assert Started(loader, None, []) == Startup(Base(), [], None);
    second := resolver.Resolve(loader, Some("remote.username"), Some("bob"));
  }

  /** A null key is rejected, but only after the table has been loaded. */
  method NullKeyAfterLoad(loader: Loader) returns (answer: Result<bool, Fault>, loaded: Properties)
    requires ValidLoader(loader) && loader.classpath == Classes() && loader.fuel >= 1
    ensures answer == Failure(NullPointerException("config key can not be null"))
    ensures loaded == Base()
  {
    var resolver := new ConfigurationResolver(None);
    BaseIsLoaded(loader);
    answer := resolver.IsResolvableConfig(loader, None, Some("bob"));
    loaded := resolver.properties;
  }

  // ---------------------------------------------------------------------------
  // The eager resolver

  function TestClasses(): Classpath {
    map["test.properties" := Resource("jar:test.properties", Parsed(map["remote.username" := "joecool"]))]
  }

  lemma TestLookups()
    ensures GetResource(TestClasses(), ResourceName("base")) == None
    ensures GetResource(TestClasses(), ResourceName("test")) == Some(TestClasses()["test.properties"])
  {
    assert ResourceName("base") == "base.properties";
    assert "/" + "base.properties" == "/base.properties";
    assert |"base.properties"| == 15 && |"/base.properties"| == 16;
    assert ResourceName("test") == "test.properties";
  }

  lemma TestLoads()
    ensures LegacyEnvironments.Combined(TestClasses(), "test") == Success(map["remote.username" := "joecool"])
  {
    var test := map["remote.username" := "joecool"];
    TestLookups();
    assert LegacyEnvironments.BaseProperties(TestClasses()) == Success(map[]);
    assert Split("test") == ["test"];
    assert Load(Legacy, TestClasses(), "test") == Success(test);
    assert map[] + test == test;
    assert Merged(Legacy, TestClasses(), ["test"][1..], map[] + test) == Success(test);
  }

  lemma TestEnvironment(loader: Loader)
    requires ValidLoader(loader) && loader.classpath == TestClasses() && loader.fuel >= 1
    ensures LegacyEnvironments.Environment(loader, "test") == Success(map["remote.username" := "joecool"])
  {
    var test := map["remote.username" := "joecool"];
    TestLoads();
    LiteralValuesAreStable(test);
    FinishedStable(loader, test);
  }

  lemma OverriddenTest()
    ensures Overridden(map["remote.username" := "joecool"], System()) == map["remote.username" := "joecool override"]
  {
    var test := map["remote.username" := "joecool"];
    var r := Overridden(test, System());
    assert r.Keys == test.Keys;
    assert r["remote.username"] == "joecool override";
  }

  /** The eager resolver loads "test" by default; the override replaces the packaged value. */
  lemma EagerResolver(loader: Loader)
    requires ValidLoader(loader) && loader.classpath == TestClasses() && loader.fuel >= 1
    ensures LegacyResolver.Constructed(map[], loader, System()) ==
            Success(LegacyResolver.ConfigurationResolver("test", map["remote.username" := "joecool override"]))
  {
    TestEnvironment(loader);
    OverriddenTest();
  }
}
