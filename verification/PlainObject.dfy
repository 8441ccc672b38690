/** Assigning arrays to a plain object's properties. */
module PlainObject {
  // o[name] = new Float32Array(...) in a module, that is in strict mode: section 10.1.9 (OrdinarySet), section
  // 10.4.5.5 ([[Set]] of a typed array) and section 20.1.3.8 (__proto__) of ECMA-262, 14th edition.

  import opened Wrappers

  // Whether a property key is a canonical numeric string, and then of which element.
  datatype Key = NotNumeric | Element(i: nat) | NoElement

  type Keys = string -> Key

  // Assigning to this property sets the prototype and adds no property.
  const PROTO := "__proto__"

  // What a typed array inherits without a setter.
  const READ_ONLY: set<string> := {"length", "byteLength", "byteOffset", "buffer"}

  // The properties of its own, and the number of elements of the array that has become its prototype.
  datatype Object<T> = Object(own: map<string, seq<T>>, prototype: Option<nat>)

  function Empty<T>(): Object<T> {
    Object(map[], None)
  }

  // The key is numeric and no element of an array of n.
  predicate PastTheEnd(key: Key, n: nat) {
    key == NoElement || (key.Element? && key.i >= n)
  }

  // What is not its own yet is looked up in the prototype first.
  predicate Inherits<T>(o: Object<T>, name: string) {
    name !in o.own && o.prototype.Some?
  }

  // None where the assignment throws.
  function Assign<T>(o: Object<T>, name: string, data: seq<T>, keys: Keys): Option<Object<T>> {
    if name == PROTO then Some(o.(prototype := Some(|data|)))
    else if Inherits(o, name) && name in READ_ONLY then None
    else if Inherits(o, name) && PastTheEnd(keys(name), o.prototype.value) then Some(o)
    else Some(o.(own := o.own[name := data]))
  }

  // Nothing is assigned after an assignment that throws.
  function Then<T>(o: Option<Object<T>>, name: string, data: seq<T>, keys: Keys): Option<Object<T>> {
    if o.Some? then Assign(o.value, name, data, keys) else None
  }
}
