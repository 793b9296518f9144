/** Request bodies and handler replies. */
module Http {
  import opened Js

  /** A parsed JSON body, query string or route-parameter object: a missing
      key reads as `undefined`. */
  type Body = map<string, JsVal>

  /** `body.key` */
  function Field(b: Body, key: string): (v: JsVal)
    ensures key !in b ==> v == Undefined
    ensures key in b ==> v == b[key]
  {
    if key in b then b[key] else Undefined
  }

  /** What a handler sends back: a success with its status and payload, a
      JSON error `{ error }` with its status, or nothing at all because an
      exception escaped the handler and no response was written. */
  datatype Reply<+T> = Ok(status: int, value: T) | Err(status: int, error: string) | Unhandled

  /** A handler's effect on a store together with its reply. */
  datatype Effect<S, +T> = Effect(store: S, reply: Reply<T>)
}
