/** JSON values as they arrive in a parsed request body, and the body itself. */
module Values {

  /** The identity of a document or sub-document. An ObjectId is compared with a
      request parameter by `==`, which compares their hex strings; here two ids
      are the same exactly when they are equal. */
  type Id = nat

  datatype Option<+T> = None | Some(value: T)

  /** A JSON value. Numbers are integers here: floating point is not modelled. */
  datatype Value = Null | Bool(b: bool) | Num(n: int) | Str(s: string) | Arr(items: seq<Value>)

  /** A parsed request body: a JSON object from key to value. */
  type Body = map<string, Value>

  /** `body.key`: the value under the key, or None (JavaScript's `undefined`) when it is absent. */
  function Field(body: Body, key: string): Option<Value>
  {
    if key in body then Some(body[key]) else None
  }

  /** JavaScript's `v === true`: only the boolean true passes, not "true", 1 or `undefined`. */
  predicate IsTrue(v: Option<Value>)
  {
    v == Some(Bool(true))
  }

  /** `Object.keys(body).every(k => allowed.includes(k))`. */
  predicate KeysAllowed(body: Body, allowed: set<string>)
  {
    forall key | key in body :: key in allowed
  }
}
