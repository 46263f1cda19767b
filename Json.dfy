/**
 * The JSON values that `json.loads` produces and the result of a call to it.
 * The decoder itself is outside the model: every component that parses text
 * takes it as a function `string -> Parsed`.
 */
module Json {
  /** A decoded JSON value; numbers are modelled as integers only. */
  datatype Value =
    | Null
    | Bool(b: bool)
    | Num(n: int)
    | Str(s: string)
    | Arr(items: seq<Value>)
    | Obj(fields: map<string, Value>)

  /** What a call to `json.loads` does: return a value or raise a decode error with a message. */
  datatype Parsed = Ok(value: Value) | DecodeError(message: string)

  /** The decoder, as an opaque total function of its input text. */
  type Parser = string -> Parsed
}
