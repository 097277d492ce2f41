/** The collaborators the component uses from the Axial library, reduced to the
    part of their behaviour the component relies on: tracked instances whose
    properties can be read, the access events their proxies emit, and bindings. */
module Axial {
  import opened JsValues

  type Key = string
  type Path = string

  /** A tracked instance: the current value of each of its properties. Identity is
      object identity, as with the `===` comparison on proxies. */
  class TrackedInstance {
    var values: map<Key, Value>

    constructor (values: map<Key, Value>)
      ensures this.values == values
    {
      this.values := values;
    }

    /** Reading a property through the proxy; a key the instance does not hold
        passes through and reads as `undefined`. */
    function Read(key: Key): (v: Value)
      reads this
    {
      Lookup(values, key)
    }
  }

  /** The property record an event carries: its key on the instance and the path
      that names instance and key together. */
  datatype Property = Property(key: Key, path: Path)

  /** An access event, as delivered to listeners: `kind` is the accessor's method
      name (`"get"` or `"set"`); `value`, `oldValue` and `newValue` are the values
      the event carries (a field the event lacks is `Undefined`). */
  datatype AccessEvent = AccessEvent(
    instance: TrackedInstance,
    property: Property,
    kind: string,
    value: Value,
    oldValue: Value,
    newValue: Value)

  /** One dependency edge from (instance, key) to its owning component. A binding
      starts unbound, becomes bound when its component commits a render, and is
      disposed when the component starts its next render. */
  class Binding {
    const instance: TrackedInstance
    const key: Key
    const path: Path
    var bound: bool
    var disposed: bool

    constructor (instance: TrackedInstance, key: Key, path: Path)
      ensures this.instance == instance && this.key == key && this.path == path
      ensures !bound && !disposed
    {
      this.instance := instance;
      this.key := key;
      this.path := path;
      bound := false;
      disposed := false;
    }

    /** Unsubscribes; disposing a disposed binding changes nothing. */
    method Dispose()
      modifies this
      ensures disposed && !bound
    {
      disposed := true;
      bound := false;
    }

    /** Subscribes to changes of (instance, key). */
    method Bind()
      modifies this
      ensures bound && disposed == old(disposed)
    {
      bound := true;
    }

    /** The current value of the bound property: the instance's live value for
        `key`, or `undefined` when the instance does not hold that key. */
    function Get(): (v: Value)
      reads instance
      ensures key in instance.values ==> v == instance.values[key]
      ensures key !in instance.values ==> v == Undefined
    {
      instance.Read(key)
    }
  }
}
