# sabot configuration core in Dafny

Sabot is a configuration library. It loads `.properties` overlays from the
class path: `base.properties` first, then each environment named in a
comma-separated list. Later overlays win. It then expands `${key}`
placeholders against the table itself, pass after pass, until a pass
changes nothing. Two resolvers serve the result.

- The lazy `ConfigurationResolver` (sabot/ tree) loads on the first lookup.
  It then hands the table to registered `ConfigurationObserver`s. The TomEE
  observer overrides loaded keys with the container's system properties and
  then deregisters itself.
- The eager `ConfigurationResolver` (top-level src/ tree) loads in its
  constructor. It then runs the same override pass itself.

The repository holds two copies of `Environments`, one per tree. They differ
in three ways:

- whether the environment list may be null;
- whether a failing `base.properties` is swallowed or raised;
- which exceptions they throw.

The Dafny modules follow the Java classes:

| module | file | models |
|---|---|---|
| `Interpolation` | interpolation.dfy | `Interpolation.format`, `_interpolate`, `interpolate`/`copy`, PATTERN and the `Matcher` behaviour they rely on |
| `JavaSplit` | java_split.dfy | `String.split(" *, *")` as both `Environments` use it |
| `Faults` | faults.dfy | the exceptions the core throws |
| `Resources` | resources.dfy | `getResource`, `load` and the `putAll` loop shared by both `Environments` |
| `Environments` | environments.dfy | sabot/ `Environments.getProperties` |
| `LegacyEnvironments` | legacy_environments.dfy | src/ `Environments.getProperties` |
| `Overrides` | overrides.dfy | the override loop shared by TomEE and the eager resolver |
| `Lookup` | lookup.dfy | `isResolvableConfig` / `resolve` on a table |
| `Resolver` | configuration_resolver.dfy | the lazy resolver: a class with `initialize`, `clear`, `register`, `deregister` and lookups |
| `TomEEConfiguration` | tomee_configuration.dfy | the TomEE observer |
| `LegacyResolver` | legacy_resolver.dfy | the eager resolver |
| `InterpolationExamples`, `ConfigurationExamples` | *_examples.dfy | worked cases, including the TomEE test tables |

Exceptions are values: operations return `Result<_, Fault>`. A Java null is
`None` of an `Option`. Classpath resources, the hashtable iteration order and
the number of interpolation passes followed come in through a `Loader` value
(see "## Left out").

## Model

| member | source | states |
|---|---|---|
| Interpolation.IdentEndIsMaximal | src/main/java/org/tomitribe/sabot/Interpolation.java:26 | the group `[\w._-]+` runs over identifier characters exactly up to the first character that is not one |
| Interpolation.PlaceholderAt | src/main/java/org/tomitribe/sabot/Interpolation.java:26 | what PATTERN (`(\$\{)([\w._-]+)(})`) and `find` match at a position: `${`, a non-empty identifier run, then `}`; the match ends at that brace |
| Interpolation.PlaceholderIsPatternMatch | src/main/java/org/tomitribe/sabot/Interpolation.java:26 | the match found at a position ends exactly where the text, as a whole, is a match of PATTERN |
| Interpolation.Expand | src/main/java/org/tomitribe/sabot/Interpolation.java:66 | the text `appendReplacement` appends for a replacement string: `\c` gives c, `$n` the longest group number within the group count, and a dangling `\` or `$`, a `${` or a missing group throw (None); a string without `$` or `\` is appended unchanged |
| Interpolation.ExpandNamedGroup | src/main/java/org/tomitribe/sabot/Interpolation.java:64-69 | a value whose first special character opens `${` is refused (a named group the pattern lacks), and the exception is swallowed |
| Interpolation.ExpandGroup | src/main/java/org/tomitribe/sabot/Interpolation.java:66 | `$n` inserts group n when no further digit names a larger group |
| Interpolation.ExpandEscape | src/main/java/org/tomitribe/sabot/Interpolation.java:66 | `\c` inserts `c` itself |
| Interpolation.GroupReferences | src/main/java/org/tomitribe/sabot/Interpolation.java:26 | `$2` is the key, `$0` the whole placeholder, `$4` is no group and refused |
| Interpolation.Replacement | src/main/java/org/tomitribe/sabot/Interpolation.java:62-69 | `properties.get(key)` then `appendReplacement`: nothing for a missing key or a refused value; a present value without `$`/`\` is appended verbatim |
| Interpolation.Accepted | src/main/java/org/tomitribe/sabot/Interpolation.java:63-69 | the keys for which a match is replaced, with their text; only keys of the table appear, the rest throw or are null and the exception is swallowed |
| Interpolation.FormattedFromMatch | src/main/java/org/tomitribe/sabot/Interpolation.java:61-70 | at a match, `format` emits the substitution for its key and continues after the `}` |
| Interpolation.FormattedFromChar | src/main/java/org/tomitribe/sabot/Interpolation.java:61-72 | a character that starts no match is copied |
| Interpolation.AppendMatch | src/main/java/org/tomitribe/sabot/Interpolation.java:62-70 | handling one match keeps the buffer invariant: appended text + pending text + formatted rest is the result |
| Interpolation.FindNext | src/main/java/org/tomitribe/sabot/Interpolation.java:61 | one step of `find` keeps the buffer invariant and moves forward |
| Interpolation.Format | src/main/java/org/tomitribe/sabot/Interpolation.java:58-74 | the `find`/`appendReplacement`/`appendTail` loop returns `Formatted(input, properties)` |
| Interpolation.FormatUnresolvable | src/main/java/org/tomitribe/sabot/Interpolation.java:58-74 | text none of whose placeholders has an accepted value comes back unchanged |
| Interpolation.FormattedFromLiteral | src/main/java/org/tomitribe/sabot/Interpolation.java:61 | a stretch without `$` is copied and formatting continues after it |
| Interpolation.FormattedFromPlaceholder | src/main/java/org/tomitribe/sabot/Interpolation.java:61-70 | a `${key}` in the text is substituted and formatting continues after it |
| Interpolation.Formatted | src/main/java/org/tomitribe/sabot/Interpolation.java:58-74 | what `format` returns: each match replaced as `Accepted` says or kept, all other text copied; text without `$` comes back unchanged |
| Interpolation.Step | src/main/java/org/tomitribe/sabot/Interpolation.java:44-51 | one iteration of the entry loop: the visited entry takes `format(value, table)` against the live table, the key set and every other entry are untouched |
| Interpolation.PassOver | src/main/java/org/tomitribe/sabot/Interpolation.java:43-52 | a pass of the entry loop keeps the key set (`setValue` only) |
| Interpolation.PassOverUntouched | src/main/java/org/tomitribe/sabot/Interpolation.java:43-52 | a pass leaves entries it does not visit unchanged |
| Interpolation.Visit | src/main/java/org/tomitribe/sabot/Interpolation.java:44-51 | one entry is formatted against the current table and stored if changed; the `interpolating` flag is true exactly when the table differs from the pass's start |
| Interpolation.Pass | src/main/java/org/tomitribe/sabot/Interpolation.java:42-52 | the entry loop returns `PassOver` and a flag that is set exactly when the pass changed the table |
| Interpolation.Interpolated | src/main/java/org/tomitribe/sabot/Interpolation.java:38-56 | the `while (interpolating)` loop: passes are repeated until one changes nothing (None when `fuel` runs out first); a result keeps the input's keys |
| Interpolation.Interpolate | src/main/java/org/tomitribe/sabot/Interpolation.java:28-56 | `interpolate` returns `Interpolated(...)`; a result has the input's keys and is `Stable` |
| Interpolation.InterpolatedUnfold | src/main/java/org/tomitribe/sabot/Interpolation.java:40-53 | the `while (interpolating)` loop, one pass at a time |
| Interpolation.InterpolatedStops | src/main/java/org/tomitribe/sabot/Interpolation.java:40-53 | a pass that changes nothing ends the loop with a stable table |
| Interpolation.StablePassOver | src/main/java/org/tomitribe/sabot/Interpolation.java:43-52 | a pass over a stable table changes nothing |
| Interpolation.UnstablePassOverChanges | src/main/java/org/tomitribe/sabot/Interpolation.java:43-52 | a pass over a table with an unstable value changes the table |
| Interpolation.FixedPointIsStable | src/main/java/org/tomitribe/sabot/Interpolation.java:40-53 | a pass changes nothing if and only if every value formats to itself, whatever the iteration order |
| Interpolation.InterpolatedIsFixedPoint | src/main/java/org/tomitribe/sabot/Interpolation.java:40-55 | the loop stops only on a table a pass leaves unchanged |
| Interpolation.InterpolatedIsStable | src/main/java/org/tomitribe/sabot/Interpolation.java:28-56 | the returned table keeps the keys and has no placeholder the table itself can still resolve |
| Interpolation.Idempotent | src/main/java/org/tomitribe/sabot/Interpolation.java:28-56 | interpolating an interpolated table gives it back |
| Interpolation.InterpolatedNoneIfMoving | src/main/java/org/tomitribe/sabot/Interpolation.java:40-53 | if each of the first `fuel` passes changes something, the loop has not stopped |
| Interpolation.InterpolatedRunsAway | src/main/java/org/tomitribe/sabot/Interpolation.java:40-53 | along an endless chain of distinct tables the loop never stops |
| Interpolation.InterpolatedIsFirstRest | src/main/java/org/tomitribe/sabot/Interpolation.java:40-55 | the result is the table after the first pass that changes nothing |
| Interpolation.StableIsFixed | src/main/java/org/tomitribe/sabot/Interpolation.java:40-55 | a stable table is returned as it is |
| Interpolation.LiteralValuesAreStable | src/main/java/org/tomitribe/sabot/Interpolation.java:58-74 | a table whose values hold no `$` is stable |
| InterpolationExamples.FormatPlaceholder | src/main/java/org/tomitribe/sabot/Interpolation.java:61-70 | a value that is one placeholder formats to the substitution for its key |
| InterpolationExamples.AcceptedLiteral | src/main/java/org/tomitribe/sabot/Interpolation.java:63-66 | a present value without `$`/`\` is used verbatim |
| InterpolationExamples.RefusedNamedGroup | src/main/java/org/tomitribe/sabot/Interpolation.java:64-69 | a value opening `${` first is refused |
| InterpolationExamples.FormatOnePlaceholder | src/main/java/org/tomitribe/sabot/Interpolation.java:58-74 | prefix + `${key}` + suffix without `$` formats to prefix + value + suffix |
| InterpolationExamples.FormatGreeting | src/main/java/org/tomitribe/sabot/Interpolation.java:58-74 | `hi ${user}` with user `joe` is `hi joe` |
| InterpolationExamples.FormatEmptyPlaceholder | src/main/java/org/tomitribe/sabot/Interpolation.java:26 | `${}` is not a match and stays |
| InterpolationExamples.FormatSpacedPlaceholder | src/main/java/org/tomitribe/sabot/Interpolation.java:26 | `${a b}` is not a match and stays |
| InterpolationExamples.FormatMissingKey | src/main/java/org/tomitribe/sabot/Interpolation.java:63-64 | a placeholder with no entry stays |
| InterpolationExamples.FormatMissingGroup | src/main/java/org/tomitribe/sabot/Interpolation.java:64-69 | a value `$5` is refused and the placeholder stays |
| InterpolationExamples.FormatUnresolvedValue | src/main/java/org/tomitribe/sabot/Interpolation.java:64-69 | a value that still holds a placeholder is refused and the placeholder stays |
| InterpolationExamples.FormatWholeMatchReference | src/main/java/org/tomitribe/sabot/Interpolation.java:66 | `$0` in a value brings the placeholder back |
| InterpolationExamples.SelfReferenceIsStable | src/main/java/org/tomitribe/sabot/Interpolation.java:40-53 | a self-referring value is left alone, so the loop stops |
| InterpolationExamples.FormatsToValue | src/main/java/org/tomitribe/sabot/Interpolation.java:61-70 | a placeholder whose value is plain text is replaced by it |
| InterpolationExamples.FormatsToItself | src/main/java/org/tomitribe/sabot/Interpolation.java:64-69 | a placeholder whose value is another placeholder is kept for the next pass |
| InterpolationExamples.ChainFirstPass | src/main/java/org/tomitribe/sabot/Interpolation.java:43-52 | in the order a, b, c, one pass over a -> b -> c resolves only b |
| InterpolationExamples.ChainSecondPass | src/main/java/org/tomitribe/sabot/Interpolation.java:43-52 | the second pass resolves a |
| InterpolationExamples.ChainResolves | src/main/java/org/tomitribe/sabot/Interpolation.java:40-55 | the chain is fully resolved after three passes |
| InterpolationExamples.ChainNeedsThreePasses | src/main/java/org/tomitribe/sabot/Interpolation.java:40-53 | two passes are not enough in that order |
| InterpolationExamples.ChainReverseFirstPass | src/main/java/org/tomitribe/sabot/Interpolation.java:43-52 | in the order c, b, a one pass resolves everything |
| InterpolationExamples.ChainInReverseOrder | src/main/java/org/tomitribe/sabot/Interpolation.java:40-55 | for the a -> b -> c chain the order c, b, a reaches the same table as a, b, c in two passes instead of three; in general the result can depend on the order (`OrderMatters`) |
| InterpolationExamples.FormatsWithoutPlaceholder | src/main/java/org/tomitribe/sabot/Interpolation.java:58-74 | text in which no `$` is followed by `{` comes back unchanged |
| InterpolationExamples.EscapeReplacements | src/main/java/org/tomitribe/sabot/Interpolation.java:66 | `x\$2` appends `x$2`, `\${c}` appends `${c}`, and `\x$2` for the match `${b}` appends `xb` (its `$2` is the key) |
| InterpolationExamples.FormatEscapedPlaceholder | src/main/java/org/tomitribe/sabot/Interpolation.java:58-74 | `\${c}` with c = `x\$2` formats to `\x$2`: the backslash is plain text and the placeholder is replaced |
| InterpolationExamples.EscapesInOrderResult | src/main/java/org/tomitribe/sabot/Interpolation.java:38-56 | on a = `${b}`, b = `\${c}`, c = `x\$2` the order a, b, c stops after three passes with a = `x$2` |
| InterpolationExamples.EscapesOutOfOrderResult | src/main/java/org/tomitribe/sabot/Interpolation.java:38-56 | on the same table the order b, a, c stops after two passes with a = `xb` |
| InterpolationExamples.OrderMatters | src/main/java/org/tomitribe/sabot/Interpolation.java:38-56 | the result of `interpolate` depends on the hashtable iteration order: two orders of the same keys both stop, with different values for a |
| InterpolationExamples.RunawayDiverges | src/main/java/org/tomitribe/sabot/Interpolation.java:40-53 | a table whose value `[$0]` rewraps a placeholder makes the loop run forever |
| JavaSplit.FirstComma | src/main/java/org/tomitribe/sabot/Environments.java:48 | the leftmost match starts from the first comma |
| JavaSplit.SpacesBefore | src/main/java/org/tomitribe/sabot/Environments.java:48 | the match takes every space directly before the comma |
| JavaSplit.SpacesAfter | src/main/java/org/tomitribe/sabot/Environments.java:48 | ` *` after the comma is greedy |
| JavaSplit.DropTrailingEmpty | src/main/java/org/tomitribe/sabot/Environments.java:48 | trailing empty parts are dropped, and only those |
| JavaSplit.Split | sabot/src/main/java/org/tomitribe/sabot/Environments.java:63 | with no comma the list is returned whole |
| JavaSplit.SplitHasNoComma | sabot/src/main/java/org/tomitribe/sabot/Environments.java:63 | no environment name holds a comma |
| JavaSplit.SplitEndsNonEmpty | sabot/src/main/java/org/tomitribe/sabot/Environments.java:63 | a split that found a comma never ends with an empty name |
| JavaSplit.PiecesOfJoin | sabot/src/main/java/org/tomitribe/sabot/Environments.java:63 | the pieces between matches of names joined with commas are the names |
| JavaSplit.SplitJoin | sabot/src/main/java/org/tomitribe/sabot/Environments.java:63 | splitting names joined with commas gives them back, the last one being non-empty |
| Resources.GetResource | sabot/src/main/java/org/tomitribe/sabot/Environments.java:100-110 | the bare name first, then `"/" + name`; not found iff neither is present |
| Resources.Load | sabot/src/main/java/org/tomitribe/sabot/Environments.java:72-98 | success iff found and readable; not found and unreadable give their own exceptions |
| Resources.MergeAll | sabot/src/main/java/org/tomitribe/sabot/Environments.java:63-65 | the `putAll` loop returns `Merged`: overlays left to right, failing at the first that fails |
| Resources.Merged | sabot/src/main/java/org/tomitribe/sabot/Environments.java:63-65 | `putAll(load(name))` for each name from left to right, stopping at the first exception; a success keeps every key it started with |
| Resources.MergedSucceeds | src/main/java/org/tomitribe/sabot/Environments.java:48-50 | the merge succeeds iff every name loads |
| Resources.MergedFailsAtFirst | src/main/java/org/tomitribe/sabot/Environments.java:48-50 | the exception raised is that of the first name that fails |
| Resources.MergedLastWins | src/main/java/org/tomitribe/sabot/Environments.java:48-50 | a key takes the value of the last overlay that sets it |
| Resources.MergedKeeps | src/main/java/org/tomitribe/sabot/Environments.java:48-50 | a key no overlay sets keeps its value |
| Resources.MergedKeys | src/main/java/org/tomitribe/sabot/Environments.java:48-50 | the keys are the start's keys plus every overlay's |
| Resources.Finish | sabot/src/main/java/org/tomitribe/sabot/Environments.java:69 | the merged table is interpolated; a failure passes through |
| Resources.Finished | sabot/src/main/java/org/tomitribe/sabot/Environments.java:69 | `Interpolation.interpolate` on the merged table: a loading failure passes through, and a result has the merged keys |
| Resources.FinishedIsStable | src/main/java/org/tomitribe/sabot/Environments.java:53 | a returned table has the merged keys and is stable |
| Resources.FinishedStable | src/main/java/org/tomitribe/sabot/Environments.java:53 | a stable merged table is returned unchanged |
| Environments.GetProperties | sabot/src/main/java/org/tomitribe/sabot/Environments.java:40-70 | the method returns `Environment(loader, environments)` |
| Environments.Combined | sabot/src/main/java/org/tomitribe/sabot/Environments.java:42-66 | `base` (when found and readable) overlaid by every listed environment; a null list gives `base` alone, and a success keeps `base`'s keys |
| Environments.Environment | sabot/src/main/java/org/tomitribe/sabot/Environments.java:40-70 | what `getProperties` returns or throws: the combined table interpolated, or the first loading exception, with the combined keys |
| Environments.BaseIsOptional | sabot/src/main/java/org/tomitribe/sabot/Environments.java:49-51 | with no `base.properties` loading starts from an empty table |
| Environments.BaseFailureIsSwallowed | sabot/src/main/java/org/tomitribe/sabot/Environments.java:53-57 | an unreadable `base.properties` contributes nothing and raises nothing |
| Environments.NullEnvironmentIsBase | sabot/src/main/java/org/tomitribe/sabot/Environments.java:61-69 | a null list gives `base` alone, interpolated |
| Environments.LastOverlayWins | sabot/src/main/java/org/tomitribe/sabot/Environments.java:63-65 | the last environment in the list that sets a key decides its value, over `base` |
| Environments.MissingEnvironment | sabot/src/main/java/org/tomitribe/sabot/Environments.java:77-79 | the first missing environment raises the not-found `ResourceException` naming its resource |
| Environments.UnreadableEnvironment | sabot/src/main/java/org/tomitribe/sabot/Environments.java:86-87 | the first unreadable environment raises the `ResourceException` naming its URL |
| Environments.EnvironmentIsInterpolated | sabot/src/main/java/org/tomitribe/sabot/Environments.java:69 | the returned table has the merged keys and is stable |
| LegacyEnvironments.GetProperties | src/main/java/org/tomitribe/sabot/Environments.java:30-54 | the method returns `Environment(loader, list)` |
| LegacyEnvironments.Combined | src/main/java/org/tomitribe/sabot/Environments.java:32-50 | `base` (when found; a found one must load, or its exception is thrown) overlaid by every listed environment; a success keeps `base`'s keys |
| LegacyEnvironments.Environment | src/main/java/org/tomitribe/sabot/Environments.java:30-54 | what `getProperties` returns or throws: the combined table interpolated, or the first loading exception, with the combined keys |
| LegacyEnvironments.BaseIsOptional | src/main/java/org/tomitribe/sabot/Environments.java:39-41 | with no `base.properties` loading starts from an empty table |
| LegacyEnvironments.BaseFailurePropagates | src/main/java/org/tomitribe/sabot/Environments.java:42-44 | an unreadable `base.properties` raises the `IllegalStateException` naming its URL |
| LegacyEnvironments.LastOverlayWins | src/main/java/org/tomitribe/sabot/Environments.java:48-50 | the last environment in the list that sets a key decides its value |
| LegacyEnvironments.MissingEnvironment | src/main/java/org/tomitribe/sabot/Environments.java:61-63 | the first missing environment raises the `IllegalArgumentException` naming its resource |
| LegacyEnvironments.UnreadableEnvironment | src/main/java/org/tomitribe/sabot/Environments.java:68-70 | the first unreadable environment raises the `IllegalStateException` naming its URL |
| LegacyEnvironments.EnvironmentIsInterpolated | src/main/java/org/tomitribe/sabot/Environments.java:53 | the returned table has the merged keys and is stable |
| LegacyEnvironments.SameMergeWhenReadable | src/main/java/org/tomitribe/sabot/Environments.java:48-50 | when every overlay loads, the two `putAll` loops give the same table |
| LegacyEnvironments.SameAsLazyWhenReadable | src/main/java/org/tomitribe/sabot/Environments.java:30-54 | when `base` and every overlay load, both copies of `getProperties` return the same table |
| Overrides.Overridden | src/main/java/org/tomitribe/sabot/ConfigurationResolver.java:49-57 | the override pass keeps the key set |
| Overrides.ApplyOverrides | src/main/java/org/tomitribe/sabot/ConfigurationResolver.java:49-57 | for every visit order, the entry loop returns `Overridden` |
| Overrides.OverrideWins | src/main/java/org/tomitribe/sabot/ConfigurationResolver.java:50-55 | a key both tables hold takes the override |
| Overrides.OthersKeepTheirValue | src/main/java/org/tomitribe/sabot/ConfigurationResolver.java:50 | other keys keep their value |
| Overrides.OverriddenIsRestrictedPutAll | tomee/src/main/java/com/tomitribe/sabot/tomee/TomEEConfiguration.java:64-72 | the pass equals `putAll` of the overrides restricted to keys present |
| Overrides.NoOverrides | tomee/src/main/java/com/tomitribe/sabot/tomee/TomEEConfiguration.java:60-62 | empty overrides change nothing |
| Overrides.OverridesIdempotent | tomee/src/main/java/com/tomitribe/sabot/tomee/TomEEConfiguration.java:64-72 | a second identical pass changes nothing |
| Lookup.Resolvable | sabot/src/main/java/org/tomitribe/sabot/ConfigurationResolver.java:126-129 | a null key, then a null default, raise their `NullPointerException`s, and only they do |
| Lookup.Resolution | sabot/src/main/java/org/tomitribe/sabot/ConfigurationResolver.java:136-139 | the same null checks before `getProperty` |
| Lookup.ResolvableMeansResolution | src/main/java/org/tomitribe/sabot/ConfigurationResolver.java:64-78 | resolvable iff stored or `resolve` answers non-empty text; an absent key answers the default |
| Resolver.Observer.constructor | tomee/src/main/java/com/tomitribe/sabot/tomee/TomEEConfiguration.java:45-47 | an observer object carrying its behaviour |
| Resolver.Registered | sabot/src/main/java/org/tomitribe/sabot/ConfigurationResolver.java:105-107 | after `register` the observer is in the list |
| Resolver.RegisterIsIdempotent | sabot/src/main/java/org/tomitribe/sabot/ConfigurationResolver.java:105-107 | registering twice is registering once |
| Resolver.RegisterKeepsNoDuplicates | sabot/src/main/java/org/tomitribe/sabot/ConfigurationResolver.java:105-107 | the list never holds an observer twice |
| Resolver.DeregisterRemoves | sabot/src/main/java/org/tomitribe/sabot/ConfigurationResolver.java:116 | `remove` drops that observer and nothing else |
| Resolver.Deregistered | sabot/src/main/java/org/tomitribe/sabot/ConfigurationResolver.java:113-120 | `List.remove(Object)`: one occurrence of the observer goes, so the list shrinks by one exactly when it held it |
| Resolver.DeregisterUndoesRegister | sabot/src/main/java/org/tomitribe/sabot/ConfigurationResolver.java:102-120 | deregistering a freshly registered observer restores the list |
| Resolver.NotifiedObservers | sabot/src/main/java/org/tomitribe/sabot/ConfigurationResolver.java:73-75 | after the snapshot runs, an observer remains iff it was registered and did not remove itself |
| Resolver.Notified | sabot/src/main/java/org/tomitribe/sabot/ConfigurationResolver.java:72-75 | the snapshot's observers run in order on the table, each seeing what the one before left; self-removal only shortens the list |
| Resolver.Started | sabot/src/main/java/org/tomitribe/sabot/ConfigurationResolver.java:52-82 | the first `initialize`: an exception exactly when loading fails, and then an empty table and untouched observers; otherwise the observers ran and none was added |
| Resolver.NotifiedKeepsKeys | sabot/src/main/java/org/tomitribe/sabot/ConfigurationObserver.java:31 | observers keeping to the interface only add keys |
| Resolver.ConfigurationResolver.constructor | sabot/src/main/java/org/tomitribe/sabot/ConfigurationResolver.java:45-50 | an empty, uninitialized resolver with no observers |
| Resolver.ConfigurationResolver.Initialize | sabot/src/main/java/org/tomitribe/sabot/ConfigurationResolver.java:52-82 | the first call loads and runs the snapshot of observers (`Started`); later calls change nothing |
| Resolver.ConfigurationResolver.Reset | sabot/src/main/java/org/tomitribe/sabot/ConfigurationResolver.java:84-91 | empties the table and clears the flag; the observers stay |
| Resolver.ConfigurationResolver.Register | sabot/src/main/java/org/tomitribe/sabot/ConfigurationResolver.java:102-111 | adds the observer unless present |
| Resolver.ConfigurationResolver.Deregister | sabot/src/main/java/org/tomitribe/sabot/ConfigurationResolver.java:113-120 | removes the first occurrence |
| Resolver.ConfigurationResolver.IsResolvableConfig | sabot/src/main/java/org/tomitribe/sabot/ConfigurationResolver.java:122-130 | initializes, then checks nulls, then answers `containsKey(key) \|\| !default.isEmpty()` |
| Resolver.ConfigurationResolver.Resolve | sabot/src/main/java/org/tomitribe/sabot/ConfigurationResolver.java:132-140 | initializes, then checks nulls, then answers the stored value or the default |
| Resolver.ConfigurationResolver.GetEnvironment | sabot/src/main/java/org/tomitribe/sabot/ConfigurationResolver.java:142-144 | the environment, or "base" when none was set |
| Resolver.DefaultNameLoadsBase | sabot/src/main/java/org/tomitribe/sabot/ConfigurationResolver.java:142-144 | with a readable `base`, the table for no environment is the table for "base", as the reported name says |
| Resolver.StartFailureIsWrapped | sabot/src/main/java/org/tomitribe/sabot/ConfigurationResolver.java:66-70 | a failed load throws `RuntimeException("Failed to load environment: " + env)` with the cause, leaving the table empty |
| Resolver.ObserversSeeTheLoadedTable | sabot/src/main/java/org/tomitribe/sabot/ConfigurationResolver.java:64-75 | for any observers, they are handed the interpolated table, what they leave is stored as it is and self-removers are gone; observers that keep the interface contract also keep every loaded key |
| TomEEConfiguration.Merge | tomee/src/main/java/com/tomitribe/sabot/tomee/TomEEConfiguration.java:56-72 | the TomEE pass adds no key and removes none |
| TomEEConfiguration.MergeConfiguration | tomee/src/main/java/com/tomitribe/sabot/tomee/TomEEConfiguration.java:56-72 | null overrides count as empty; then the override pass |
| TomEEConfiguration.NullOverridesChangeNothing | tomee/src/main/java/com/tomitribe/sabot/tomee/TomEEConfiguration.java:58-62 | without system properties the table stays |
| TomEEConfiguration.MergeOverridesPresentKeys | tomee/src/main/java/com/tomitribe/sabot/tomee/TomEEConfiguration.java:64-72 | each key both hold takes the system value; no key is added |
| TomEEConfiguration.TomEEBehaviour | tomee/src/main/java/com/tomitribe/sabot/tomee/TomEEConfiguration.java:56-76 | the observer merges by `Merge` and removes itself |
| TomEEConfiguration.Install | tomee/src/main/java/com/tomitribe/sabot/tomee/TomEEConfiguration.java:35-38 | a new instance is appended to the observer list |
| TomEEConfiguration.StartupAppliesOverridesOnce | tomee/src/main/java/com/tomitribe/sabot/tomee/TomEEConfiguration.java:74-75 | with TomEE alone registered, the first load stores the overridden table and leaves no observer |
| LegacyResolver.EnvironmentOption | src/main/java/org/tomitribe/sabot/ConfigurationResolver.java:38 | the "environment" option, "test" by default |
| LegacyResolver.New | src/main/java/org/tomitribe/sabot/ConfigurationResolver.java:36-62 | the constructor returns `Constructed`: load, then the override pass, or the loader's exception |
| LegacyResolver.Constructed | src/main/java/org/tomitribe/sabot/ConfigurationResolver.java:36-62 | what the constructor builds or throws: it fails exactly when loading the chosen environment fails, with that exception; otherwise the stored keys are the loaded ones |
| LegacyResolver.ConfigurationResolver.IsResolvableConfig | src/main/java/org/tomitribe/sabot/ConfigurationResolver.java:64-70 | a null key, then a null default, throw their `NullPointerException`; otherwise stored key or non-empty default |
| LegacyResolver.ConfigurationResolver.Resolve | src/main/java/org/tomitribe/sabot/ConfigurationResolver.java:72-78 | the same null checks, then the stored value, or the default for an absent key |
| LegacyResolver.ConstructedEnvironment | src/main/java/org/tomitribe/sabot/ConfigurationResolver.java:38-41 | `getEnvironment` (lines 80-82) of a constructed resolver is the "environment" option, or "test", and that environment loaded |
| LegacyResolver.OverridesComeAfterInterpolation | src/main/java/org/tomitribe/sabot/ConfigurationResolver.java:41-57 | stored values are override text verbatim or interpolated loaded values; keys are the loaded keys |
| LegacyResolver.DefaultEnvironmentIsTest | src/main/java/org/tomitribe/sabot/ConfigurationResolver.java:38 | without the option the resolver loads and reports "test" |
| ConfigurationExamples.SplitSpacedList | sabot/src/main/java/org/tomitribe/sabot/Environments.java:63 | `"dev , prod"` splits to `dev`, `prod` |
| ConfigurationExamples.SplitLeadingEmpty | sabot/src/main/java/org/tomitribe/sabot/Environments.java:63 | `",a"` splits to `""`, `a` |
| ConfigurationExamples.SplitTrailingEmpty | sabot/src/main/java/org/tomitribe/sabot/Environments.java:63 | `","` splits to nothing, `"a,,"` to `a`, `""` to `""` |
| ConfigurationExamples.BaseFoundUnderSlash | sabot/src/main/java/org/tomitribe/sabot/Environments.java:100-110 | a `base.properties` found only under "/" is loaded by both copies |
| ConfigurationExamples.DevOverBase | sabot/src/main/java/org/tomitribe/sabot/Environments.java:40-66 | `dev` overrides `base` in both copies |
| ConfigurationExamples.MissingQa | sabot/src/main/java/org/tomitribe/sabot/Environments.java:77-79 | a missing `qa` raises the not-found exception for `qa.properties` |
| ConfigurationExamples.MissingQaMessage | sabot/src/main/java/org/tomitribe/sabot/Environments.java:78 | its message is "Unable to find 'qa.properties' on the classpath" |
| ConfigurationExamples.BrokenEnvironment | src/main/java/org/tomitribe/sabot/Environments.java:68-70 | an unreadable environment raises the eager copy's exception with its URL |
| ConfigurationExamples.BrokenEnvironmentMessage | src/main/java/org/tomitribe/sabot/Environments.java:69 | its message is "Can not load environment \`jar:broken.properties\`." |
| ConfigurationExamples.BaseIsLoaded | tomee/src/test/java/com/tomitribe/sabot/tomee/ConfigurationProducerTest.java:75 | with no environment the resolver serves `base`, username joecool |
| ConfigurationExamples.OverriddenBase | tomee/src/test/java/com/tomitribe/sabot/tomee/ConfigurationOverrideTest.java:49 | the system username overrides; a system-only key is not added |
| ConfigurationExamples.OverrideLastsOneLoad | tomee/src/test/java/com/tomitribe/sabot/tomee/ConfigurationOverrideTest.java:69 | the first lookup answers "joecool override"; after `reset` it answers "joecool" |
| ConfigurationExamples.NullKeyAfterLoad | sabot/src/main/java/org/tomitribe/sabot/ConfigurationResolver.java:122-126 | a null key raises only after the table is loaded |
| ConfigurationExamples.EagerResolver | src/main/java/org/tomitribe/sabot/ConfigurationResolver.java:36-62 | the eager resolver loads "test" and applies the override |

## Left out

- File reading and `Properties.load` parsing: a found resource is either a parsed table or unreadable (an `IOException`). Stream closing is left out too. A malformed `\uXXXX` escape makes `Properties.load` throw an `IllegalArgumentException`, which no `catch` in either copy handles, so in Java even a corrupt `base.properties` propagates it; that third outcome is not modelled.
- Logging, the locks, `AtomicBoolean` and concurrent callers: the resolver is modelled single-threaded. The `lock` blocks are plain sequential code.
- CDI: `ConfigurationProducer`, `ConfigurationExtension` and the static `get()` singletons are not part of this model. The resolver is an explicit object.
- Hashtable iteration order is an input (`Loader.order`, any order listing each key once). Every interpolation property is proved for every such order. The override loop is proved for any visit order. The interpolated table itself can differ between orders (`InterpolationExamples.OrderMatters`), as it does in Java.
- Interpolation.Interpolate: the Java loop has no bound. The model follows at most `fuel` passes and returns `None` (`Fault.OutOfFuel`) past that. `RunawayDiverges` shows a table on which the Java loop never stops.
- Interpolation.Format: `appendReplacement` is modelled by `Expand`: `$n` group references, `\` escapes and refusal otherwise. Named groups `${name}` are always refused, because PATTERN has none.
- Aliasing: tables are values. `copy` in `interpolate` is therefore implicit: the caller's table can never be changed.
- TomEEConfiguration.Install: the static initializer is an explicit call. The system properties (`SystemInstance.get().getProperties()`) are captured as a value when it runs, not read again later.
- Observers are values of `Behaviour`: a merge function and whether the observer removes itself. An observer in Java mutates the table; here it returns the new one. Reference identity stands for `equals`.
- The `ConfigurationObserver` comment says observers are "automatically removed". The resolver does not do this; only the TomEE observer removes itself. The model follows the code.
- LegacyResolver.New: the eager resolver's system properties are a non-null map. A null would throw a `NullPointerException` in Java; that path is not modelled. `getOptions().get` is a map lookup.
- `Started`, `Initialize`: only a `ResourceException` is wrapped in a `RuntimeException`. `OutOfFuel` passes through unwrapped, since it has no Java counterpart.
