/**
 * Parsed JSON values as the route handlers see them (a request body, the
 * tagger's reply after `JSON.parse`), with JavaScript's truthiness, `||`
 * and property access written out.
 */
module Json {
  import opened Wrappers

  /** A JSON value; numbers are kept as reals (NaN and infinities do not occur in JSON). */
  datatype Json =
    | JNull
    | JBool(b: bool)
    | JNum(x: real)
    | JStr(s: string)
    | JArr(items: seq<Json>)
    | JObj(fields: map<string, Json>)

  /** JavaScript truthiness: `null`, `false`, `0` and `""` are falsy; arrays and objects, even empty ones, are truthy. */
  predicate Truthy(v: Json) {
    match v
    case JNull => false
    case JBool(b) => b
    case JNum(x) => x != 0.0
    case JStr(s) => s != ""
    case JArr(_) => true
    case JObj(_) => true
  }

  /**
   * `a || b`: one of its two operands, truthy exactly when either operand is,
   * and the left one whenever that one is truthy.
   */
  function Or(a: Json, b: Json): (r: Json)
    ensures r == a || r == b
    ensures Truthy(r) <==> Truthy(a) || Truthy(b)
    ensures Truthy(a) ==> r == a
    ensures !Truthy(a) ==> r == b
  {
    if Truthy(a) then a else b
  }

  /**
   * `v.key` for the data properties the core reads from parsed JSON (`type`,
   * `url`, `text`, `title`, `author`, `categories`, `category`, `summary`).
   * Reading a property of `null` throws (`None`); such a property that is
   * absent, or read from a string, number, boolean or array, is `undefined`,
   * which every use in the core treats like `null`. Built-in members such as
   * `.length` are not read through this function.
   */
  function Prop(v: Json, key: string): (r: Option<Json>)
    ensures r.None? <==> v.JNull?
    ensures r.Some? && Truthy(r.value) ==> v.JObj? && key in v.fields && r.value == v.fields[key]
    ensures v.JObj? && key in v.fields ==> r == Some(v.fields[key])
    ensures r.Some? && !(v.JObj? && key in v.fields) ==> r == Some(JNull)
  {
    match v
    case JNull => None
    case JObj(fields) => if key in fields then Some(fields[key]) else Some(JNull)
    case _ => Some(JNull)
  }

  /** `v.key` on a value already known not to be `null`. */
  function Get(v: Json, key: string): Json
    requires !v.JNull?
  {
    Prop(v, key).value
  }
}
