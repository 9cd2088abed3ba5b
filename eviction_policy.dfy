/**
 * How many items one cleanup pass of the cache releases. The fraction
 * `unloadPercent` is the rational num / den; `Math.ceil` of a quotient is
 * CeilDiv.
 */
module EvictionPolicy {

  function Max(a: int, b: int): int
  {
    if a >= b then a else b
  }

  function Min(a: int, b: int): int
  {
    if a <= b then a else b
  }

  /** The least integer q with a <= q * b, i.e. the ceiling of a / b. */
  function CeilDiv(a: int, b: int): (q: int)
    requires b > 0
    ensures (q - 1) * b < a <= q * b
  {
    assert a == (a / b) * b + a % b;
    if a % b == 0 then a / b else a / b + 1
  }

  /** The excess figure of a pass: never smaller than the target size itself. */
  function Excess(size: int, minSize: int): int
  {
    Max(size - minSize, minSize)
  }

  /** The batch a pass aims for: the ceiling of the fraction num / den of the excess. */
  function Batch(size: int, minSize: int, num: nat, den: nat): int
    requires den > 0
  {
    CeilDiv(Excess(size, minSize) * num, den)
  }

  /**
   * The number of items a pass releases from a cache holding `size` items of
   * which `used` are marked used, with target size minSize and fraction
   * num / den. Nothing is released unless the cache is above its target and
   * has an unused item; otherwise the pass releases the ceiling of the given
   * fraction of the excess, but never more than there are unused items.
   */
  function EvictionCount(size: int, used: int, minSize: int, num: nat, den: nat): (n: nat)
    requires den > 0
    ensures n <= Max(size - used, 0)
    ensures !(size > minSize && size - used > 0) ==> n == 0
    ensures size > minSize && size - used > 0 && num > 0 ==> n > 0
  {
    var unused := size - used;
    if size > minSize && unused > 0 then
      assert Excess(size, minSize) * num >= 0;
      Min(unused, Batch(size, minSize, num, den))
    else
      0
  }

  /**
   * A pass that runs releases the smaller of the unused count and the least
   * number of items that covers the fraction num / den of the excess.
   */
  lemma EvictionCountIsCeiling(size: int, used: int, minSize: int, num: nat, den: nat)
    requires den > 0 && size > minSize && size - used > 0
    ensures var n := EvictionCount(size, used, minSize, num, den);
            var e := Excess(size, minSize) * num;
            && n <= size - used
            && (n - 1) * den < e
            && (n == size - used || e <= n * den)
  {
  }

  /** The ceiling of a quotient grows with the dividend. */
  lemma CeilDivMonotone(a: int, b: int, d: int)
    requires d > 0 && a <= b
    ensures CeilDiv(a, d) <= CeilDiv(b, d)
  {
  }

  /**
   * Because the excess is floored at the target size, a pass on a cache with
   * a non-negative target always releases at least the given fraction of the
   * target size (or every unused item, if there are fewer).
   */
  lemma BatchFloor(size: int, used: int, minSize: nat, num: nat, den: nat)
    requires den > 0 && size > minSize && size - used > 0
    ensures EvictionCount(size, used, minSize, num, den) >= Min(size - used, CeilDiv(minSize * num, den))
  {
    assert minSize * num <= Excess(size, minSize) * num;
    CeilDivMonotone(minSize * num, Excess(size, minSize) * num, den);
  }

  /**
   * The batch grows with the excess: a larger cache never gets a smaller
   * ceiling figure.
   */
  lemma BatchMonotone(size1: int, size2: int, minSize: int, num: nat, den: nat)
    requires den > 0 && size1 <= size2
    ensures CeilDiv(Excess(size1, minSize) * num, den) <= CeilDiv(Excess(size2, minSize) * num, den)
  {
    assert Excess(size1, minSize) * num <= Excess(size2, minSize) * num;
    CeilDivMonotone(Excess(size1, minSize) * num, Excess(size2, minSize) * num, den);
  }

  /**
   * With the default options (target 600, fraction 0.2) a cache of 750 unused
   * items releases max(150, 600) * 0.2 = 120 of them.
   */
  lemma DefaultPass()
    ensures EvictionCount(750, 0, 600, 1, 5) == 120
  {
  }

  /**
   * Just above the target a pass still releases a fifth of the target size,
   * so the cache can end well below its target: 601 unused items lose 120.
   */
  lemma PassUndershootsTarget()
    ensures EvictionCount(601, 0, 600, 1, 5) == 120
    ensures 601 - EvictionCount(601, 0, 600, 1, 5) < 600
  {
  }
}
