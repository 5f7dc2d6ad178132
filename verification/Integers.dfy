/** Small facts about integers. */
module Integers {
  function Pow2(n: nat): (r: nat)
    ensures r >= 1
  {
    if n == 0 then 1 else 2 * Pow2(n - 1)
  }

  lemma MultipleAtLeast(k: int, b: int)
    requires k >= 1 && b >= 1
    ensures b * k >= b
  {
  }

  lemma AtMostZero(k: int, b: int)
    requires k <= 0 && b >= 1
    ensures b * k <= 0
  {
  }

  lemma DivUnique(a: int, q: int, r: int, b: int)
    requires b >= 1 && a == b * q + r && 0 <= r < b
    ensures a / b == q
  {
    var q', r' := a / b, a % b;
    var d := q - q';
    assert b * d == r' - r;
    if d >= 1 { MultipleAtLeast(d, b); } else if d <= -1 { MultipleAtLeast(-d, b); }
  }
}
