/** The JavaScript values that reach the handlers in request bodies and in schema-less
    documents, with the language's truthiness and its `||` operator. */
module JsValues {

  import opened Wrappers
  import Strings

  /** A JSON-like JavaScript value. `Obj` is a plain object with its own properties.
      `Date` is a Date object: its time (milliseconds since the epoch) and the text its
      `toString()` gives, which depends on the server's time zone. Numbers are integers:
      fractional numbers and NaN are not modelled. */
  datatype Json =
    | Undefined
    | Null
    | Bool(b: bool)
    | Num(n: int)
    | Str(s: string)
    | Arr(items: seq<Json>)
    | Obj(fields: map<string, Json>)
    | Date(t: int, text: string)

  /** A Date value, such as the one `new Date()` makes. */
  type DateValue = d: Json | d.Date? witness Date(0, "")

  /** JavaScript truthiness: `undefined`, `null`, `false`, `0` and `''` are falsy. */
  predicate Truthy(v: Json) {
    match v
    case Undefined => false
    case Null => false
    case Bool(b) => b
    case Num(n) => n != 0
    case Str(s) => s != ""
    case Arr(_) => true
    case Obj(_) => true
    case Date(_, _) => true
  }

  /** `null` or `undefined`: what `?.` and destructuring defaults test for. */
  predicate Nullish(v: Json) {
    v == Undefined || v == Null
  }

  /** JavaScript `a || b`: the first operand if it is truthy, else the second. */
  function Or(a: Json, b: Json): Json {
    if Truthy(a) then a else b
  }

  /** A destructuring default `{ x = d } = body`: applies only when the value is `undefined`. */
  function DefaultIfUndefined(v: Json, d: Json): Json {
    if v == Undefined then d else v
  }

  /** `v._id` when it is a non-empty string: an object holding one stands for a document
      and casts to its id. */
  function StringId(v: Json): (r: Option<string>)
    ensures r.Some? ==> r.value != ""
  {
    if v.Obj? && "_id" in v.fields && v.fields["_id"].Str? && v.fields["_id"].s != "" then
      Some(v.fields["_id"].s)
    else None
  }

  /** Casting a value to a `String` path (Mongoose's string cast): `null` and `undefined`
      stay absent; an object with a string `_id` becomes that id; numbers, booleans and
      dates become their `toString()` text; arrays and other objects are a cast error
      (`None`). */
  function CastString(v: Json): (r: Option<Option<string>>)
    ensures v.Str? ==> r == Some(Some(v.s))
    ensures Nullish(v) ==> r == Some(None)
    ensures v.Date? ==> r == Some(Some(v.text))
    ensures v.Bool? ==> r == Some(Some(if v.b then "true" else "false"))
    ensures v.Num? ==> r.Some? && r.value.Some?
    ensures v.Obj? ==> (r.Some? <==> StringId(v).Some?) && (r.Some? ==> r.value == StringId(v))
    ensures v.Arr? ==> r.None?
  {
    match v
    case Undefined => Some(None)
    case Null => Some(None)
    case Str(s) => Some(Some(s))
    case Num(n) => Some(Some(Strings.IntToString(n)))
    case Bool(b) => Some(Some(if b then "true" else "false"))
    case Date(_, text) => Some(Some(text))
    case Obj(_) => if StringId(v).Some? then Some(StringId(v)) else None
    case Arr(_) => None
  }
}
