// Single-precision constants and the C math library, seen through exact reals.
//
// Every `float` of the ray tracer is modelled as a Dafny `real`: rounding,
// infinities and NaN are not represented. The library functions the program
// calls (sqrt, sin, atan2, asin, exp, pow) are not given a definition; they travel as
// the fields of a `Math` value, and a proof that depends on a law of one of them
// states that law as a precondition (for example `SqrtLaws`).
module Floats {

  /** FLT_EPSILON of <cfloat>: 2^-23. */
  const FLT_EPSILON: real := 1.0 / 8388608.0

  /** FLT_MAX of <cfloat>: (2^24 - 1) * 2^104. */
  const FLT_MAX: real := 340282346638528859811704183484516925440.0

  /** An unsigned char. */
  newtype Byte = x: int | 0 <= x < 256

  /** The C math library functions the renderer calls. */
  datatype Math = Math(
    sqrt: real -> real,
    sin: real -> real,
    atan2: (real, real) -> real,
    asin: real -> real,
    exp: real -> real,
    pow: (real, real) -> real)

  /** `m.sqrt(x)` is the non-negative square root of `x` (when `x` is non-negative). */
  ghost predicate IsSqrtAt(m: Math, x: real)
  {
    0.0 <= x ==> 0.0 <= m.sqrt(x) && m.sqrt(x) * m.sqrt(x) == x
  }

  /** `sqrt` is the non-negative square root on the non-negative reals. */
  ghost predicate SqrtLaws(m: Math)
  {
    forall x: real :: IsSqrtAt(m, x)
  }

  /** `sin` stays within [-1, 1]. */
  ghost predicate SinLaws(m: Math)
  {
    forall x: real :: -1.0 <= m.sin(x) <= 1.0
  }

  /** M_PI of <cmath>. */
  const M_PI: real := 3.14159265358979323846

  lemma SqrtAt(m: Math, x: real)
    requires SqrtLaws(m)
    requires 0.0 <= x
    ensures 0.0 <= m.sqrt(x) && m.sqrt(x) * m.sqrt(x) == x
  {
    assert IsSqrtAt(m, x);
  }

  /** std::min(a, b), which is `(b < a) ? b : a`. */
  function Min(a: real, b: real): (r: real)
    ensures r <= a && r <= b
    ensures r == a || r == b
  {
    if b < a then b else a
  }

  /** std::max(a, b), which is `(a < b) ? b : a`. */
  function Max(a: real, b: real): (r: real)
    ensures a <= r && b <= r
    ensures r == a || r == b
  {
    if a < b then b else a
  }

  /** x / y, where a zero y (an infinity or NaN in C++) gives 0. */
  function Divide(x: real, y: real): (q: real)
    ensures y != 0.0 ==> q * y == x
  {
    if y == 0.0 then 0.0 else x / y
  }

  function Abs(a: real): (r: real)
    ensures 0.0 <= r
    ensures r == a || r == -a
  {
    if a < 0.0 then -a else a
  }

  /** The C conversion `(int)x` of a float: truncation toward zero. */
  function TruncateToInt(x: real): (r: int)
    ensures 0.0 <= x ==> 0 <= r && r as real <= x < r as real + 1.0
    ensures x < 0.0 ==> r <= 0 && r as real - 1.0 < x <= r as real
  {
    if 0.0 <= x then x.Floor else -((-x).Floor)
  }

  /** C's `/` on ints: the quotient truncated toward zero. */
  function CDiv(a: int, b: int): int
    requires b != 0
  {
    if 0 <= a then
      (if 0 < b then a / b else -(a / -b))
    else
      (if 0 < b then -((-a) / b) else (-a) / (-b))
  }

  /** C's `%` on ints: the remainder takes the sign of the dividend. */
  function CRem(a: int, b: int): (r: int)
    requires b != 0
    ensures a == b * CDiv(a, b) + r
    ensures 0 <= a ==> 0 <= r < (if b < 0 then -b else b)
    ensures a < 0 ==> 0 < -r + 1 && -r < (if b < 0 then -b else b)
  {
    a - b * CDiv(a, b)
  }

  /** The C++ test `n % 2 == 0` holds exactly for the even integers, negative ones included. */
  lemma {:induction false} CRemTwoZeroIffEven(n: int)
    ensures (CRem(n, 2) == 0) <==> (n % 2 == 0)
  {
    if 0 <= n {
      assert CDiv(n, 2) == n / 2;
    } else {
      assert CDiv(n, 2) == -((-n) / 2);
      assert (-n) % 2 == 0 <==> n % 2 == 0;
    }
  }
}
