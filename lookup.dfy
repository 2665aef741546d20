/**
 * `isResolvableConfig` and `resolve` on a resolved table, the part both
 * resolvers share: `Objects.requireNonNull` on the key and then on the
 * default, then a lookup.
 */
module Lookup {
  import opened Wrappers
  import opened Faults
  import opened Interpolation

  /** The exception the two null checks raise, the key's first; nulls are `None`. */
  function Rejected(key: Option<string>, defaultValue: Option<string>): Option<Fault> {
    if key.None? then Some(NullPointerException("config key can not be null"))
    else if defaultValue.None? then Some(NullPointerException("default config value can not be null"))
    else None
  }

  /** `properties.containsKey(key) || !defaultValue.isEmpty()`. */
  function Resolvable(properties: Properties, key: Option<string>, defaultValue: Option<string>): (r: Result<bool, Fault>)
    ensures Rejected(key, defaultValue).Some? <==> r.Failure?
    ensures r.Failure? ==> r.error == Rejected(key, defaultValue).value
  {
    var rejected := Rejected(key, defaultValue);
    if rejected.Some? then Failure(rejected.value)
    else Success(key.value in properties || defaultValue.value != "")
  }

  /** `properties.getProperty(key, defaultValue)`. */
  function Resolution(properties: Properties, key: Option<string>, defaultValue: Option<string>): (r: Result<string, Fault>)
    ensures Rejected(key, defaultValue).Some? <==> r.Failure?
    ensures r.Failure? ==> r.error == Rejected(key, defaultValue).value
  {
    var rejected := Rejected(key, defaultValue);
    if rejected.Some? then Failure(rejected.value)
    else if key.value in properties then Success(properties[key.value])
    else Success(defaultValue.value)
  }

  /**
   * A key is resolvable exactly when it is stored or `resolve` answers with
   * something other than the empty string: for an absent key `resolve`
   * answers with the default, verbatim.
   */
  lemma ResolvableMeansResolution(properties: Properties, key: string, defaultValue: string)
    ensures Resolvable(properties, Some(key), Some(defaultValue)).Success?
    ensures Resolution(properties, Some(key), Some(defaultValue)).Success?
    ensures key !in properties ==> Resolution(properties, Some(key), Some(defaultValue)).value == defaultValue
    ensures Resolvable(properties, Some(key), Some(defaultValue)).value <==>
            key in properties || Resolution(properties, Some(key), Some(defaultValue)).value != ""
  {
  }

  /** A fault that comes before the answer, such as the failure of a lazy `initialize`. */
  function After<T>(fault: Option<Fault>, answer: Result<T, Fault>): Result<T, Fault> {
    if fault.Some? then Failure(fault.value) else answer
  }
}
