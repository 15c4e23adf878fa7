/**
 * Optional values, and JavaScript's `||` over optional strings: `undefined`,
 * `null` and the empty string are falsy, every other string is truthy.
 */
module Optional {

  datatype Option<+T> = None | Some(value: T)

  /** A present, non-empty string. */
  predicate Truthy(o: Option<string>) {
    o.Some? && o.value != ""
  }

  /** `a || b` where `b` is always a string. */
  function OrElse(a: Option<string>, b: string): (r: string)
    ensures Truthy(a) ==> r == a.value
    ensures !Truthy(a) ==> r == b
  {
    if Truthy(a) then a.value else b
  }

  /** `a || b` where both may be missing. */
  function OrMaybe(a: Option<string>, b: Option<string>): (r: Option<string>)
    ensures Truthy(a) ==> r == a
    ensures !Truthy(a) ==> r == b
  {
    if Truthy(a) then a else b
  }

  /** `x || undefined`: keeps only a truthy string. */
  function TruthyOnly(a: Option<string>): (r: Option<string>)
    ensures r.Some? <==> Truthy(a)
    ensures r.Some? ==> r == a
  {
    if Truthy(a) then a else None
  }
}
