/** The JavaScript values that reach the core through JSON request bodies, headers and tokens. */
module Values {
  import opened Wrappers

  /** A JSON value as the middlewares see it. Arrays are arrays of strings (the only arrays the
      record fields carry); numbers are integers. A key missing from a body is `undefined`. */
  datatype Value =
    | Str(s: string)
    | StrArray(items: seq<string>)
    | Num(n: int)
    | Bool(b: bool)
    | Null
    | Obj(fields: map<string, Value>)

  /** A request body, `req.body`: absent keys read as `undefined`. */
  type Body = map<string, Value>

  /** JavaScript truthiness (`if (v)`). Arrays and objects are always truthy. */
  predicate Truthy(v: Value) {
    match v
    case Str(s) => s != ""
    case StrArray(_) => true
    case Num(n) => n != 0
    case Bool(b) => b
    case Null => false
    case Obj(_) => true
  }

  /** Truthiness of an optional string (a header, a claim, `req.aesKey`): `undefined` and `""`
      are falsy. */
  predicate Present(o: Option<string>) {
    o.Some? && o.value != ""
  }

  /** `a || b` on optional strings. */
  function OrElse(a: Option<string>, b: Option<string>): (r: Option<string>)
    ensures Present(a) ==> r == a
    ensures !Present(a) ==> r == b
  {
    if Present(a) then a else b
  }

  /** An HTTP response that ends the middleware chain. */
  datatype Response = Response(status: int, message: string)

  /** What a middleware does with a request: call `next()` with the (possibly rewritten) body,
      or answer and stop the chain. */
  datatype Step = Next(body: Body) | Halt(response: Response)

  /** A controller's answer: the status, the `message` of the JSON body (empty when the body
      carries none) and the other JSON fields it sends. */
  datatype Reply = Reply(status: int, message: string, json: Body)

  /** What Express sends when a handler throws outside any `try`. */
  const Uncaught := Reply(500, "Internal Server Error", map[])
}
