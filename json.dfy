/**
 * Values produced by `JSON.parse`, the property reads the source performs on
 * them (`v.key`, `v?.[key]`, `??`) and the `String(v)` coercion used when a
 * value is interpolated into a message or tested against a regular expression.
 */
module Json {
  import opened Wrappers
  import opened Text

  /** A parsed JSON value; numbers are modelled as integers (see README). */
  datatype Json =
    | JNull
    | JBool(b: bool)
    | JNum(n: int)
    | JStr(s: string)
    | JArr(items: seq<Json>)
    | JObj(fields: map<string, Json>)

  /**
   * `v[key]` for the property names the source reads (none of them is an
   * array index or `length`); `None` stands for `undefined`. A read on `null`
   * throws in the source: callers that do so decide that case themselves.
   */
  function Get(v: Json, key: string): (r: Option<Json>)
    ensures r.Some? ==> v.JObj? && key in v.fields && r.value == v.fields[key]
    ensures v.JObj? && key in v.fields ==> r.Some?
  {
    match v
    case JObj(fields) => if key in fields then Some(fields[key]) else None
    case _ => None
  }

  /** `v?.[key]`: `undefined` when `v` is `undefined` or `null`. */
  function GetOpt(v: Option<Json>, key: string): Option<Json> {
    match v
    case Some(x) => Get(x, key)
    case None => None
  }

  /** `v === undefined || v === null`. */
  predicate IsNullish(v: Option<Json>) {
    v.None? || v.value.JNull?
  }

  /** `v ?? fallback`. */
  function Coalesce(v: Option<Json>, fallback: Json): (r: Json)
    ensures !IsNullish(v) ==> r == v.value
    ensures IsNullish(v) ==> r == fallback
  {
    if IsNullish(v) then fallback else v.value
  }

  /** `typeof v === 'object' && v !== null`: objects and arrays. */
  predicate IsObject(v: Option<Json>) {
    v.Some? && (v.value.JObj? || v.value.JArr?)
  }

  /**
   * `String(v)` for a value that is not `undefined`. An object is taken to
   * inherit `toString`; a parsed object with its own `toString` key, for which
   * `String(v)` throws a `TypeError`, is not distinguished.
   */
  function ToText(v: Json): string
    decreases v
  {
    match v
    case JNull => "null"
    case JBool(b) => if b then "true" else "false"
    case JNum(n) => IntToString(n)
    case JStr(s) => s
    case JArr(items) => ArrayToText(items)
    case JObj(_) => "[object Object]"
  }

  /** `String(array)`: elements joined by `,`, with `null` elements printed as empty. */
  function ArrayToText(items: seq<Json>): string
    decreases items
  {
    if items == [] then ""
    else
      var head := if items[0].JNull? then "" else ToText(items[0]);
      if |items| == 1 then head else head + "," + ArrayToText(items[1..])
  }

  /** `String(v)` (and `${v}`), where `None` prints as `undefined`. */
  function Stringify(v: Option<Json>): string {
    match v
    case Some(x) => ToText(x)
    case None => "undefined"
  }

  /**
   * The host functions the source calls on text: `JSON.parse` (`None` when it
   * throws) and `new Date(v).getTime()` (`None` when the result is `NaN`);
   * `Date.parse(s)` is `time(JStr(s))`.
   */
  datatype Runtime = Runtime(parse: string -> Option<Json>, time: Json -> Option<int>)
}
