/** Minimum and clamping, and facts about products and quotients that the solver does not find
    on its own. */
module Arithmetic {

  function Min(a: int, b: int): int { if a <= b then a else b }

  function Clamp(x: int, low: int, high: int): int {
    if x < low then low else if x > high then high else x
  }

  lemma {:induction false} MulMono(a: int, b: int, c: int)
    requires a <= b && c >= 0
    ensures a * c <= b * c
  {
    assert b * c - a * c == (b - a) * c;
  }

  /** Quotient and remainder are determined by their defining equation. */
  lemma {:induction false} DivUnique(x: int, y: int, k: int, r: int)
    requires y > 0 && x == k * y + r && 0 <= r < y
    ensures x / y == k && x % y == r
  {
    var d := x / y - k;
    assert x == (x / y) * y + x % y;
    assert d * y == r - x % y;
    if d >= 1 {
      MulMono(1, d, y);
    } else if d <= -1 {
      MulMono(d, -1, y);
    }
  }
}
