/** Small helpers shared by every module of the model: the error type that stands
    for a Python exception, first-index lookup in a list, and substring tests on strings. */
module Common {

  /** A value that Python may leave missing (None or NaN). */
  datatype Option<+T> = None | Some(value: T)

  /** The exceptions the source raises, by kind. */
  datatype Error =
    | IndexError      // `.index[0]`, `[...][0]` or `list[0]` on an empty selection
    | KeyError        // a missing dictionary key, or an explicit `raise KeyError`
    | NameError       // a variable read before any assignment reached it
    | TypeError       // an operation on values of incompatible Python types
    | ValueError      // `float("ND")` or a length mismatch in an assignment
    | AssertionError  // a failed `assert`

  /** The outcome of a Python call: a value, or the exception it raises. */
  datatype Result<+T> = Success(value: T) | Failure(error: Error)

  /** The position of the first occurrence of `x` in `s`, as `list.index(x)` or
      `df[df[col] == x].index[0]` compute it (over a default 0-based index). */
  function IndexOf<T(==)>(s: seq<T>, x: T): (r: Option<nat>)
    ensures r.Some? ==> r.value < |s| && s[r.value] == x && x !in s[..r.value]
    ensures r.None? <==> x !in s
  {
    if |s| == 0 then None
    else if s[0] == x then Some(0)
    else match IndexOf(s[1..], x)
      case None => None
      case Some(k) =>
        assert s[1..][..k] == s[1..k + 1];
        Some(k + 1)
  }

  /** Python's `sub in s` for strings. */
  predicate ContainsSubstring(s: string, sub: string)
  {
    sub <= s || (|s| > 0 && ContainsSubstring(s[1..], sub))
  }

  /** Python truthiness of an optional string, as used by `a or b`: None and "" are false. */
  predicate Truthy(x: Option<string>)
  {
    x.Some? && x.value != ""
  }

  /** Python's `x or d` for an optional string `x`. */
  function Or(x: Option<string>, d: Option<string>): (r: Option<string>)
    ensures Truthy(x) ==> r == x
    ensures !Truthy(x) ==> r == d
  {
    if Truthy(x) then x else d
  }

  function Max(a: real, b: real): real
  {
    if a >= b then a else b
  }

  function Abs(a: real): (r: real)
    ensures r >= 0.0
  {
    if a < 0.0 then -a else a
  }
}
