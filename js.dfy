/** The script-level values the shim handles: opaque values, thrown errors,
    plain objects with their property order, and the extension objects whose
    `nativeAvailable` flag selects the bridge path. */
module Js {
  import opened Sequences

  /** An opaque script value (an argument, a property value), known by identity. */
  datatype Value = Value(id: nat)

  datatype Option<T> = None | Some(value: T)

  /** What the shim throws. */
  datatype Error =
    | TypeError                    // a property read, call or `delete` on undefined
    | CannotCreateSignal           // register: "Can't create signal "
    | SignalMissing(signal: string) // on: "The signal <name> does not exists."

  /** How a call that returns nothing ends. */
  datatype Outcome = Returned | Threw(error: Error)

  /** How a call that returns a value ends. */
  datatype Result<T> = Ok(value: T) | Err(error: Error)

  /** A plain object as `for..in` and `hasOwnProperty` see it: `keys` are the
      enumerable names (own and inherited) in enumeration order, `own` the names
      `hasOwnProperty` accepts, `props` the value read for each name. */
  datatype RawObject<V> = RawObject(keys: seq<string>, own: set<string>, props: map<string, V>)
  {
    predicate WellFormed() {
      Distinct(keys) && (forall i :: 0 <= i < |keys| ==> keys[i] in props) && own <= props.Keys
    }
  }

  type JsObject<V> = o: RawObject<V> | o.WellFormed() witness RawObject([], {}, map[])

  /** The feature object found at an EventHandler's extension path: missing
      (undefined), or present with a truthy or falsy `nativeAvailable`. */
  datatype Extension = Undefined | Loaded(nativeAvailable: bool)

  /** The feature objects reachable from the namespace, by path. */
  type Env = map<string, Extension>

  /** `getObjectFromPath(Cocoon, path)`: undefined when nothing is registered under the path. */
  function Lookup(env: Env, path: string): (ext: Extension) {
    if path in env then env[path] else Undefined
  }

  /** The `obj && obj.nativeAvailable` test: true only for a present extension with the bridge. */
  predicate Bridged(ext: Extension) {
    ext.Loaded? && ext.nativeAvailable
  }
}
