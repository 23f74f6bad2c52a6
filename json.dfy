/** JSON values as the bot synchronisation reads and sends them, with the two
    JavaScript notions the service depends on: truthiness (`if (x)`) and strict
    equality (`===`). */
module Json {

  datatype Option<+T> = None | Some(value: T)

  /** A JSON value. Numbers are kept as reals. JSON.parse never yields NaN; an overflowing
      literal parses to plus or minus Infinity, which the reals do not represent. */
  datatype Json =
    | JNull
    | JBool(b: bool)
    | JNum(n: real)
    | JStr(s: string)
    | JArr(items: seq<Json>)
    | JObj(fields: map<string, Json>)

  /** A flow record (local or remote): a plain object, i.e. its own properties. */
  type Record = map<string, Json>

  /** JavaScript truthiness of a JSON value. Arrays and objects are always truthy,
      even when empty. */
  predicate Truthy(v: Json)
  {
    match v
    case JNull => false
    case JBool(b) => b
    case JNum(n) => n != 0.0
    case JStr(s) => s != ""
    case JArr(_) => true
    case JObj(_) => true
  }

  /** The property `key` of a record as JavaScript reads it: `None` is `undefined`. */
  function Prop(r: Record, key: string): (p: Option<Json>)
    ensures p.Some? <==> key in r
    ensures p.Some? ==> p.value == r[key]
  {
    if key in r then Some(r[key]) else None
  }

  /** `a === b` on two property reads. `undefined === undefined` holds; two arrays or
      objects are distinct references here (they come from different parses), so they are
      never strictly equal; primitives compare by value. */
  predicate StrictEquals(a: Option<Json>, b: Option<Json>)
  {
    a == b && !(a.Some? && (a.value.JArr? || a.value.JObj?))
  }

  /** Whether converting a parsed JSON value to text (`${v}` in a template literal) throws.
      A JSON value is never callable, so an object with an own `toString` property falls
      through to `valueOf`, which (own and uncallable, or inherited and returning the object
      itself) yields no primitive: a TypeError. Any other object prints as
      `[object Object]`; an array prints by joining its elements, so it throws exactly when
      one of them does; `null` inside an array prints as the empty string, and every
      primitive converts. */
  predicate TextConversionThrows(v: Json)
    decreases v
  {
    match v
    case JObj(fields) => "toString" in fields
    case JArr(items) => exists i :: 0 <= i < |items| && TextConversionThrows(items[i])
    case _ => false
  }
}
