/**
 * JSON values as the Python code holds them after `json.loads`: `None`,
 * `bool`, `int`, `str`, `list` and `dict` (an ordered dictionary).
 * Together with Python's truthiness and `str()` rendering of such values.
 */
module JsonValues {
  import opened OrderedDicts

  datatype Json =
    | JNull
    | JBool(b: bool)
    | JInt(i: int)
    | JStr(s: string)
    | JArr(items: seq<Json>)
    | JObj(obj: ODict<string, Json>)

  /** A JSON object, i.e. a Python `dict[str, Any]`. */
  type Object = ODict<string, Json>

  /** Python's `bool(value)`: `None`, `False`, `0`, `""`, `[]` and `{}` are false. */
  predicate Truthy(j: Json) {
    match j
    case JNull => false
    case JBool(b) => b
    case JInt(i) => i != 0
    case JStr(s) => s != []
    case JArr(items) => items != []
    case JObj(o) => o.vals != map[]
  }

  /** Every object inside the value lists each key once: what `json.load` produces. */
  ghost predicate WellFormedJson(j: Json) {
    match j
    case JArr(items) => forall i | 0 <= i < |items| :: WellFormedJson(items[i])
    case JObj(o) => o.Valid() && forall k | k in o.vals :: WellFormedJson(o.vals[k])
    case _ => true
  }

  /** Values Python can use as a dictionary key; `list` and `dict` are not hashable. */
  predicate Hashable(j: Json) {
    !j.JArr? && !j.JObj?
  }

  /** Python's message for using an unhashable value as a key. */
  function UnhashableMessage(j: Json): string {
    if j.JArr? then "unhashable type: 'list'" else "unhashable type: 'dict'"
  }

  function Digit(d: nat): char
    requires d < 10
  {
    "0123456789"[d]
  }

  /** Decimal digits of a natural number. */
  function NatToString(n: nat): (r: string)
    ensures r != []
  {
    if n < 10 then [Digit(n)] else NatToString(n / 10) + [Digit(n % 10)]
  }

  /** `str(i)` for an `int`. */
  function IntToString(i: int): (r: string)
    ensures r != []
  {
    if i < 0 then "-" + NatToString(-i) else NatToString(i)
  }

  /** Python's `str(value)`; only the empty string renders as nothing. */
  function Str(j: Json): (r: string)
    ensures r == [] <==> j == JStr([])
    decreases j, 1
  {
    match j
    case JNull => "None"
    case JBool(b) => if b then "True" else "False"
    case JInt(i) => IntToString(i)
    case JStr(s) => s
    case JArr(items) => "[" + ReprItems(items) + "]"
    case JObj(o) => "{" + ReprFields(o.keys, o) + "}"
  }

  /** Python's `repr(value)` as it appears inside a rendered list or dict. */
  function Repr(j: Json): string
    decreases j, 2
  {
    if j.JStr? then "'" + j.s + "'" else Str(j)
  }

  function ReprItems(items: seq<Json>): string
    decreases items
  {
    if items == [] then ""
    else Repr(items[0]) + (if |items| == 1 then "" else ", " + ReprItems(items[1..]))
  }

  function ReprFields(ks: seq<string>, o: Object): string
    decreases o, |ks|
  {
    if ks == [] then ""
    else
      var entry := if ks[0] in o.vals then "'" + ks[0] + "': " + Repr(o.vals[ks[0]]) else "";
      entry + (if |ks| == 1 then "" else ", " + ReprFields(ks[1..], o))
  }
}
