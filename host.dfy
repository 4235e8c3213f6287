/**
 * The host JavaScript values that a key view wraps.  Dafny has no reflection, so an
 * object is given explicitly as the list of properties that `for...in` and
 * `hasOwnProperty` can observe, in the host's enumeration order.
 */
module Host {

  /** A property key: a string, or a symbol (which `for...in` never yields). */
  datatype Key = Str(name: string) | Symbol(description: string)

  /**
   * One property reachable from an object: `own` is false for a property found on the
   * prototype chain, `enumerable` is the property's enumerable attribute.  Property
   * values are not modelled: no operation of the view reads them.
   */
  datatype Entry = Entry(key: Key, own: bool, enumerable: bool)

  /**
   * A JavaScript object.  It is a reference: a caller may change its properties between
   * two calls on a view, and the view sees the change.
   */
  class JsObject {
    var properties: seq<Entry>

    constructor (properties: seq<Entry>)
      ensures this.properties == properties
    {
      this.properties := properties;
    }
  }

  /** A JavaScript object has at most one own property per key. */
  ghost predicate OwnKeysDistinct(es: seq<Entry>)
  {
    forall i, j :: 0 <= i < j < |es| && es[i].own && es[j].own ==> es[i].key != es[j].key
  }

  /** The arguments the factory can be given: `null`, `undefined` or an object. */
  datatype JsValue = Null | Undefined | Object(ref: JsObject)
}
