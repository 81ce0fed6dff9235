/**
 * Shared vocabulary of the model: optional values, bytes and the scalar JSON
 * values a request body can carry.
 */
module Common {

  /** A value that may be absent (JavaScript's `undefined`). */
  datatype Option<+T> = None | Some(value: T)

  /** An octet of an uploaded file or of a stored image buffer. */
  type byte = x: int | 0 <= x < 256

  /** A scalar JSON value of a parsed request body. Arrays, objects and `null` are not modelled. */
  datatype Json = JStr(str: string) | JNum(num: int) | JBool(flag: bool)

  /** A parsed JSON request body: its keys and their values. */
  type Body = map<string, Json>
}
