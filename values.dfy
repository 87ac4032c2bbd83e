/**
 * Values as the JavaScript screens see them: a field that may be absent,
 * and the truthiness test that `a || b` and `if (!a)` apply to strings and
 * numbers.
 */
module Values {

  /** A field of a record or a query parameter that may be `undefined`/`null`. */
  datatype Option<T> = None | Some(value: T)

  /** A string is truthy in JavaScript when it is present and not empty. */
  predicate Truthy(s: Option<string>)
  {
    s.Some? && s.value != ""
  }

  /** JavaScript `a || fallback` for an optional string. */
  function OrElse(a: Option<string>, fallback: string): (r: string)
    ensures Truthy(a) ==> r == a.value
    ensures !Truthy(a) ==> r == fallback
  {
    if Truthy(a) then a.value else fallback
  }

  /** JavaScript `a || b` for two optional strings, which is again optional. */
  function Or(a: Option<string>, b: Option<string>): (r: Option<string>)
    ensures Truthy(r) <==> Truthy(a) || Truthy(b)
    ensures Truthy(a) ==> r == a
    ensures !Truthy(a) ==> r == b
  {
    if Truthy(a) then a else b
  }

  /** A number is truthy in JavaScript when it is present and not zero. */
  predicate NumTruthy(n: Option<int>)
  {
    n.Some? && n.value != 0
  }

  /** JavaScript `n || fallback` for an optional number. */
  function NumOr(n: Option<int>, fallback: int): (r: int)
    ensures NumTruthy(n) ==> r == n.value
    ensures !NumTruthy(n) ==> r == fallback
  {
    if NumTruthy(n) then n.value else fallback
  }
}
