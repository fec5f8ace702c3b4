/** How a plain JavaScript object (`{}`) treats the names it inherits from
    `Object.prototype`, for the reads and writes the pages make. */
module JsObject {
  /** The key whose inherited accessor reads and sets the prototype. */
  const ProtoKey: string := "__proto__"

  /** The names every plain JavaScript object inherits from
      `Object.prototype`; reading one that is not an own key gives a truthy
      value (a function, or the prototype itself for `__proto__`). */
  const Inherited: set<string> := {
    "constructor", "hasOwnProperty", "isPrototypeOf", "propertyIsEnumerable",
    "toLocaleString", "toString", "valueOf", ProtoKey,
    "__defineGetter__", "__defineSetter__", "__lookupGetter__", "__lookupSetter__"}

  /** `obj[k] = v` with a string `v`. An own key is overwritten and any other
      name becomes an own key, except `__proto__` when it is not an own key:
      the assignment then calls the inherited setter, which ignores a value
      that is not an object, and the object is unchanged. (Object literals
      with a computed key `[k]: v` and spreads define own keys and do not go
      through this.) */
  function Assigned(m: map<string, string>, k: string, v: string): (r: map<string, string>)
    ensures k in r <==> k in m || k != ProtoKey
    ensures k in r ==> r[k] == v
    ensures forall j :: j != k ==> (j in r <==> j in m)
    ensures forall j :: j != k && j in m ==> r[j] == m[j]
  {
    if k == ProtoKey && k !in m then m else m[k := v]
  }
}
