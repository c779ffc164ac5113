/** Python value conventions the rest of the model relies on: `None`,
    raised exceptions, truthiness, and the integer arithmetic the source
    performs with `//`, `abs` and `int(...)`. */
module PySemantics {

  /** `Optional[T]`: either `None` or a value. */
  datatype Option<+T> = None | Some(value: T)
  {
    function GetOr(default: T): T
    {
      match this
      case Some(v) => v
      case None => default
    }
  }

  /** The outcome of a call that may raise: the returned value or the raised error. */
  datatype Result<+T, +E> = Ok(value: T) | Raised(error: E)

  /** `bool(s)` for a `str`: only the empty string is false. */
  predicate StrTruthy(s: string)
  {
    |s| > 0
  }

  /** `bool(o)` for an `Optional[int]`: `None` and `0` are both false. */
  predicate OptIntTruthy(o: Option<int>)
  {
    o.Some? && o.value != 0
  }

  /** `s or None` for a `str`. */
  function StrOrNone(s: string): (r: Option<string>)
    ensures r.None? <==> s == ""
    ensures r.Some? ==> r.value == s
  {
    if StrTruthy(s) then Some(s) else None
  }

  function Abs(x: int): (r: nat)
    ensures r == x || r == -x
  {
    if x < 0 then -x else x
  }

  /** Python's `a // b` for a positive divisor: the quotient rounded down. */
  function FloorDiv(a: int, b: int): (q: int)
    requires b > 0
    ensures b * q <= a < b * q + b
    ensures a >= 0 ==> q >= 0
  {
    a / b
  }

  /** `int(a / b)` for a positive divisor: the quotient truncated toward zero,
      which differs from `//` when `a` is negative. */
  function TruncDiv(a: int, b: int): (q: int)
    requires b > 0
    ensures Abs(q) * b <= Abs(a) < Abs(q) * b + b
    ensures q == 0 || (q > 0) == (a > 0)
  {
    var m := FloorDiv(Abs(a), b);
    assert Abs(m) == m && Abs(-m) == m;
    if a >= 0 then m else -m
  }
}
