/**
 * The JSON-like values that travel through the component: websocket message
 * bodies, blueprint definition files and the records kept by the store.
 * Floating-point numbers are not modelled.
 */
module JsonValues {

  datatype Json =
    | JNull
    | JBool(b: bool)
    | JInt(i: int)
    | JStr(s: string)
    | JList(items: seq<Json>)
    | JObj(fields: map<string, Json>)

  /** Python truthiness of a value (`if value:`). */
  predicate Truthy(j: Json)
  {
    match j
    case JNull => false
    case JBool(b) => b
    case JInt(i) => i != 0
    case JStr(s) => s != ""
    case JList(items) => items != []
    case JObj(fields) => fields != map[]
  }

  /** Home Assistant's `cv.ensure_list`: `None` is the empty list, a list is
      itself, anything else is wrapped in a one-element list. */
  function EnsureList(j: Json): (r: seq<Json>)
  {
    match j
    case JNull => []
    case JList(items) => items
    case _ => [j]
  }

  /** Python's `str()` of a non-negative integer: its decimal digits. */
  function NatToString(n: nat): (s: string)
    ensures |s| >= 1
    ensures forall k :: 0 <= k < |s| ==> '0' <= s[k] <= '9'
    decreases n
  {
    var digit := [(48 + n % 10) as char];
    if n < 10 then digit else NatToString(n / 10) + digit
  }

  /** Python's `str()` of an integer. */
  function IntToString(i: int): (s: string)
  {
    if i < 0 then "-" + NatToString(-i) else NatToString(i)
  }

  /** Values that Home Assistant's `cv.string` accepts: anything except
      `None`, lists and dictionaries. */
  predicate StringCoercible(j: Json)
  {
    j.JStr? || j.JInt? || j.JBool?
  }

  /** The string `cv.string` turns an accepted value into (`str(value)`). */
  function CoercedString(j: Json): (s: string)
    requires StringCoercible(j)
  {
    match j
    case JStr(s) => s
    case JInt(i) => IntToString(i)
    case JBool(b) => if b then "True" else "False"
  }
}
