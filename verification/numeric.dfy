/** The float-to-int conversions the C++ code relies on, over exact reals. */
module Numeric {

  /** `static_cast<int>(r)`: truncation toward zero. */
  function Trunc(r: real): (t: int)
    ensures r >= 0.0 ==> t as real <= r < t as real + 1.0
    ensures r < 0.0 ==> t as real - 1.0 < r <= t as real
  {
    if r >= 0.0 then r.Floor else -((-r).Floor)
  }

  /** `std::round(r)`: the nearest integer, halves rounded away from zero. */
  function Round(r: real): (t: int)
    ensures r - 0.5 <= t as real <= r + 0.5
    ensures r >= 0.0 ==> t as real > r - 0.5
    ensures r < 0.0 ==> t as real < r + 0.5
  {
    if r >= 0.0 then (r + 0.5).Floor else -((-r + 0.5).Floor)
  }

  lemma TruncMonotonic(r: real, s: real)
    requires r <= s
    ensures Trunc(r) <= Trunc(s)
  {
  }

  lemma RoundMonotonic(r: real, s: real)
    requires r <= s
    ensures Round(r) <= Round(s)
  {
  }

  /** On an integer both conversions are the identity. */
  lemma ConversionsOfIntegers(n: int)
    ensures Trunc(n as real) == n && Round(n as real) == n
  {
  }
}
