/** Small shared vocabulary: optional values, results, bytes, JavaScript truthiness
    of an optional string, and the ASCII lower-casing that header names go through. */
module Prelude {

  /** A JavaScript value that may be `undefined`. */
  datatype Option<+T> = None | Some(value: T)

  /** The value of a call that may throw instead of returning. */
  datatype Result<+T, +E> = Ok(value: T) | Err(error: E)

  type byte = b: int | 0 <= b < 0x100

  /** Process-wide configuration read from the environment at start-up:
      `SHOPIFY_API_KEY`, `SHOPIFY_API_SECRET` and `HOST`. */
  datatype Config = Config(apiKey: string, apiSecret: string, host: string)

  /** A query or cookie value is truthy in JavaScript exactly when it is a non-empty string. */
  predicate Truthy(v: Option<string>)
  {
    v.Some? && v.value != ""
  }

  predicate IsUpperAscii(c: char)
  {
    'A' <= c <= 'Z'
  }

  /** `toLowerCase` restricted to the ASCII letters. */
  function LowerChar(c: char): (d: char)
    ensures IsUpperAscii(c) ==> d as int == c as int + 32
    ensures !IsUpperAscii(c) ==> d == c
    ensures !IsUpperAscii(d)
  {
    if IsUpperAscii(c) then (c as int + 32) as char else c
  }

  function Lower(s: string): string
  {
    seq(|s|, i requires 0 <= i < |s| => LowerChar(s[i]))
  }
}
