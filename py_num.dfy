/** Python's int() applied to a float, on exact reals: truncation toward zero. */
module PyNum {

  /** int(x): the integer part of x, rounded toward zero. */
  function Trunc(x: real): (n: int)
    ensures x >= 0.0 ==> 0 <= n && n as real <= x < n as real + 1.0
    ensures x < 0.0 ==> n <= 0 && n as real - 1.0 < x <= n as real
  {
    if x >= 0.0 then x.Floor else -((-x).Floor)
  }

  /** Truncation never goes below an integer the value reaches. */
  lemma TruncAtLeast(x: real, m: int)
    requires x >= m as real
    ensures Trunc(x) >= m
  {
    if x >= 0.0 {
      assert (Trunc(x) + 1) as real > m as real;
    }
  }

  /** An integral value is its own truncation. */
  lemma TruncOfInt(m: int)
    ensures Trunc(m as real) == m
  {
  }

  /** A value that is not positive truncates to a value that is not positive. */
  lemma TruncNonPositive(x: real)
    requires x <= 0.0
    ensures Trunc(x) <= 0
  {
  }

  /** max(a, b) of two floats. */
  function Max(a: real, b: real): (m: real)
    ensures m >= a && m >= b && (m == a || m == b)
  {
    if b > a then b else a
  }
}
