/** The integer arithmetic of the layout element: the non-negative clamp of
    the position setters, `Math.round(p / g)` and `Math.ceil(n / g)` for a
    positive grid unit `g`. */
module Rounding {

  /** A grid unit in pixels; the layout never divides by a non-positive one. */
  type Pos = n: int | n > 0 witness 1

  /** `Math.max(value, 0)`. */
  function Clamp(value: int): (r: int)
    ensures r >= 0 && r >= value
    ensures r == value || r == 0
  {
    if value < 0 then 0 else value
  }

  /** `r * g` is the multiple of `g` nearest to `p`, a tie going to the
      larger multiple (`Math.round` rounds halves towards +infinity). */
  ghost predicate RoundsTo(p: int, g: Pos, r: int)
  {
    2 * r * g - g <= 2 * p < 2 * r * g + g
  }

  /** `Math.round(p / g)`, as floor((2p + g) / 2g). */
  function Round(p: int, g: Pos): (r: int)
    ensures RoundsTo(p, g, r)
  {
    var q := (2 * p + g) / (2 * g);
    var m := (2 * p + g) % (2 * g);
    assert 2 * p + g == (2 * g) * q + m && 0 <= m < 2 * g;
    assert 2 * q * g == (2 * g) * q;
    q
  }

  /** At most one integer rounds from `p`, so `RoundsTo` pins `Math.round` down. */
  lemma RoundsToUnique(p: int, g: Pos, r1: int, r2: int)
    requires RoundsTo(p, g, r1) && RoundsTo(p, g, r2)
    ensures r1 == r2
  {
    if r1 != r2 {
      var lo, hi := if r1 < r2 then r1 else r2, if r1 < r2 then r2 else r1;
      assert RoundsTo(p, g, lo) && RoundsTo(p, g, hi);
      // 2*hi*g - g <= 2p < 2*lo*g + g
      assert 2 * hi * g - 2 * lo * g < 2 * g;
      assert 2 * hi * g - 2 * lo * g == 2 * ((hi - lo) * g);
      MulAtLeastOne(hi - lo, g);
      assert false;
    }
  }

  /** A positive count of units covers at least one unit. */
  lemma MulAtLeastOne(k: int, g: Pos)
    requires k >= 1
    ensures k * g >= g
  {
    assert k * g == (k - 1) * g + g;
  }

  /** An exact multiple rounds back to its quotient. */
  lemma RoundOfMultiple(x: int, g: Pos)
    ensures Round(x * g, g) == x
  {
    assert RoundsTo(x * g, g, x);
    RoundsToUnique(x * g, g, Round(x * g, g), x);
  }

  /** Rounding keeps non-negative values non-negative. */
  lemma RoundNonNegative(p: int, g: Pos)
    ensures p >= 0 ==> Round(p, g) >= 0
  {
  }

  /** `Math.ceil(n / g)`: the least count of `g`-sized units covering `n`. */
  function CeilDiv(n: int, g: Pos): (r: int)
    ensures r * g >= n
    ensures (r - 1) * g < n
  {
    var q := (n + g - 1) / g;
    var m := (n + g - 1) % g;
    assert n + g - 1 == g * q + m && 0 <= m < g;
    q
  }

  /** The ceiling of a positive count is at least one unit. */
  lemma CeilDivPositive(n: int, g: Pos)
    requires n > 0
    ensures CeilDiv(n, g) >= 1
  {
  }
}
