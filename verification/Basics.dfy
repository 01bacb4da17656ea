/** What every model needs. */
module Basics {
  datatype Option<+T> = None | Some(value: T)

  /** Conversion of a number with a fraction to an integer, towards zero. */
  function Truncate(r: real): int {
    if r >= 0.0 then r.Floor else -((-r).Floor)
  }

  /** The integer nearest to r between 0 and r. */
  lemma TruncatesTowardsZero(r: real)
    ensures r >= 0.0 ==> 0.0 <= Truncate(r) as real <= r < Truncate(r) as real + 1.0
    ensures r <= 0.0 ==> Truncate(r) as real - 1.0 < r <= Truncate(r) as real <= 0.0
  {
  }

  lemma SubsetSize<T>(a: set<T>, b: set<T>)
    requires a <= b
    ensures |a| <= |b|
  {
    assert b == a + (b - a);
  }
}
