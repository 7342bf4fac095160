/** JavaScript value semantics the rest of the model relies on: absent values,
    JSON answers of the remote backend and their truthiness, and the `%` operator. */
module JsValues {

  /** `null` / `undefined` versus a present value. */
  datatype Option<+T> = None | Some(value: T)

  /** A JSON document as decoded by `response.json()`. Numbers are integers here. */
  datatype Json =
    | JNull
    | JBool(b: bool)
    | JNumber(n: int)
    | JString(s: string)
    | JArray(elems: seq<Json>)
    | JObject(fields: map<string, Json>)

  /** JavaScript truthiness of a decoded JSON value: `null`, `false`, `0` and `""`
      are falsy; every array and object (even an empty one) is truthy. */
  predicate Truthy(j: Json)
  {
    match j
    case JNull => false
    case JBool(b) => b
    case JNumber(n) => n != 0
    case JString(s) => s != ""
    case JArray(_) => true
    case JObject(_) => true
  }

  /** The remote backend answered the call with a value that `if (x)` accepts. */
  predicate Answered(reply: Option<Json>)
  {
    reply.Some? && Truthy(reply.value)
  }

  /** An error body such as `{ error: "User already exists" }` passes `if (x)`. */
  lemma ErrorBodyIsTruthy(message: string)
    ensures Answered(Some(JObject(map["error" := JString(message)])))
  {
  }

  /** Result of an operation that first asks the remote backend: either the
      remote answer, handed back unchanged, or the result of the local fallback. */
  datatype Fetched<+T> = Remote(body: Json) | Local(value: T)

  /** JavaScript's `a % b` for `b > 0`: the remainder truncates toward zero, so it
      takes the sign of `a` (Dafny's `%` is Euclidean and never negative). With
      the sign bounds, `a == q * b + r` for the truncated quotient pins `r`. */
  function TruncRem(a: int, b: int): (r: int)
    requires b > 0
    ensures a >= 0 ==> 0 <= r < b
    ensures a < 0 ==> -b < r <= 0
    ensures a == TruncQuotient(a, b) * b + r
    ensures a >= 0 ==> r == a % b
    ensures a < 0 ==> -r == (-a) % b
  {
    if a >= 0 then a % b else
      assert -a == ((-a) / b) * b + (-a) % b;
      -((-a) % b)
  }

  /** The quotient rounded toward zero. */
  function TruncQuotient(a: int, b: int): int
    requires b > 0
  {
    if a >= 0 then a / b else -((-a) / b)
  }
}
