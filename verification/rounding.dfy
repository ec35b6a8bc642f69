/** `Mathf.RoundToInt(x * 0.5f)` for an integer `x`: the engine rounds to the nearest
    integer and sends a tie (an odd `x`) to the even neighbour. The float product is
    exact for every price and base value the game uses, so the model works on integers. */
module Rounding {

  /** True when `r` is a correct rounding of x/2: at distance at most one half from it,
      and even whenever the distance is exactly one half. */
  predicate IsHalfRoundedToEven(x: int, r: int) {
    && -1 <= 2 * r - x <= 1
    && (2 * r != x ==> r % 2 == 0)
  }

  /** The rounding of x/2 to the nearest integer, ties to even. */
  function HalfRoundedToEven(x: int): (r: int)
    ensures IsHalfRoundedToEven(x, r)
  {
    var q := x / 2;  // the floor of x/2
    if x % 2 == 0 || q % 2 == 0 then q else q + 1
  }

  /** The rounding is unique: any value meeting the rounding rule is the one computed. */
  lemma HalfRoundedToEvenUnique(x: int, r: int)
    requires IsHalfRoundedToEven(x, r)
    ensures r == HalfRoundedToEven(x)
  {
  }

  /** Rounding is monotone: a larger input never rounds lower. */
  lemma HalfRoundedToEvenMonotone(x: int, y: int)
    requires x <= y
    ensures HalfRoundedToEven(x) <= HalfRoundedToEven(y)
  {
  }

  /** A non-negative input never rounds below zero. */
  lemma HalfRoundedToEvenNonNegative(x: int)
    requires x >= 0
    ensures HalfRoundedToEven(x) >= 0
  {
  }
}
