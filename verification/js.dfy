/**
 * The JavaScript values the front end handles: request bodies after decoding,
 * response bodies before serialisation and configuration settings.
 */
module Js {

  /** A JavaScript value. Numbers are restricted to integers (see README). */
  datatype Value =
    | Undefined
    | Null
    | Bool(b: bool)
    | Number(n: int)
    | Str(s: string)
    | Array(items: seq<Value>)
    | Object(fields: map<string, Value>)

  /** The object literal `{error: message}` every error response carries. */
  function ErrorBody(message: string): (v: Value)
    ensures v.Object? && v.fields.Keys == {"error"}
    ensures v.fields["error"] == Str(message)
  {
    Object(map["error" := Str(message)])
  }
}
