/** The elixir arithmetic of the tracker: the clamp that every tick and every tap
    goes through, the regeneration tick and the tap that consumes a card's cost.

    Elixir is an exact `real`; the source works on IEEE-754 doubles, so the
    per-tick increment `1.0 / 2.8` is the exact rational 5/14 here.
 */
module Elixir {

  function MinR(a: real, b: real): real {
    if a <= b then a else b
  }

  function MaxR(a: real, b: real): real {
    if a >= b then a else b
  }

  function AbsR(x: real): real {
    if x < 0.0 then -x else x
  }

  /** `clamp(n, min, max) = Math.max(min, Math.min(max, n))`.
      When the bounds are inverted the lower bound wins, as `Math.max` is applied last. */
  function Clamp(n: real, lo: real, hi: real): (r: real)
    ensures lo <= r
    ensures lo <= hi ==> r <= hi
    ensures lo <= n <= hi ==> r == n
    ensures n < lo ==> r == lo
    ensures lo <= hi < n ==> r == hi
    ensures hi < lo ==> r == lo
  {
    MaxR(lo, MinR(hi, n))
  }

  /** Clamping a clamped value changes nothing. */
  lemma ClampIdempotent(n: real, lo: real, hi: real)
    ensures Clamp(Clamp(n, lo, hi), lo, hi) == Clamp(n, lo, hi)
  {
  }

  /** Reference definition: for a non-empty interval the clamp is the point of
      `[lo, hi]` nearest to `n`. */
  lemma ClampIsNearestPoint(n: real, lo: real, hi: real, y: real)
    requires lo <= hi
    requires lo <= y <= hi
    ensures lo <= Clamp(n, lo, hi) <= hi
    ensures AbsR(Clamp(n, lo, hi) - n) <= AbsR(y - n)
  {
  }

  /** Clamping is monotone in the clamped value. */
  lemma ClampMonotone(n: real, m: real, lo: real, hi: real)
    requires n <= m
    ensures Clamp(n, lo, hi) <= Clamp(m, lo, hi)
  {
  }

  /** Seconds of game time needed to regenerate one elixir. */
  const RegenRateSec: real := 2.8

  /** Elixir added by one tick of the one-second interval: `1.0 / regenRateSec`. */
  const RegenPerTick: real := 1.0 / RegenRateSec

  lemma RegenPerTickIsFiveFourteenths()
    ensures RegenPerTick == 5.0 / 14.0
    ensures 0.0 < RegenPerTick < 1.0
  {
  }

  /** The interval body `prev => clamp(prev + 1.0 / regenRateSec, 0, maxElixir)`. */
  function Tick(prev: real, maxElixir: int): (r: real)
    ensures 0 <= maxElixir ==> 0.0 <= r <= maxElixir as real
    ensures 0.0 <= prev <= maxElixir as real ==> prev <= r
    ensures 0.0 <= prev + RegenPerTick <= maxElixir as real ==> r == prev + RegenPerTick
    ensures 0 <= maxElixir && maxElixir as real < prev + RegenPerTick ==> r == maxElixir as real
  {
    Clamp(prev + RegenPerTick, 0.0, maxElixir as real)
  }

  /** The tap update `e => clamp(e - card.cost, 0, maxElixir)`: a cost larger than
      the current estimate floors at zero instead of failing. */
  function Consume(e: real, cost: int, maxElixir: int): (r: real)
    ensures 0 <= maxElixir ==> 0.0 <= r <= maxElixir as real
    ensures 0 <= cost && cost as real <= e <= maxElixir as real ==> r == e - cost as real
    ensures e < cost as real ==> r == 0.0
    ensures 0 <= cost && 0.0 <= e <= maxElixir as real ==> r <= e
  {
    Clamp(e - cost as real, 0.0, maxElixir as real)
  }

  /** `n` ticks in a row. */
  function Ticks(e: real, n: nat, maxElixir: int): real
    decreases n
  {
    if n == 0 then e else Ticks(Tick(e, maxElixir), n - 1, maxElixir)
  }

  /** Elixir gained by `n` uncapped ticks. */
  function Gain(n: nat): real
  {
    if n == 0 then 0.0 else Gain(n - 1) + RegenPerTick
  }

  /** `n` uncapped ticks gain `n * 5/14`. */
  lemma {:induction false} GainIsMultiple(n: nat)
    ensures Gain(n) == n as real * RegenPerTick
  {
    if n > 0 {
      GainIsMultiple(n - 1);
      assert n as real * RegenPerTick == (n - 1) as real * RegenPerTick + RegenPerTick;
    }
  }

  /** From an in-range value, `n` ticks add exactly `n * 5/14` elixir, capped at
      the maximum. */
  lemma {:induction false} TicksClosedForm(e: real, n: nat, maxElixir: int)
    requires 0.0 <= e <= maxElixir as real
    ensures Ticks(e, n, maxElixir) == MinR(e + Gain(n), maxElixir as real)
    ensures 0.0 <= Gain(n)
    decreases n
  {
    if n > 0 {
      TicksClosedForm(Tick(e, maxElixir), n - 1, maxElixir);
    }
  }

  /** Once `n` ticks' worth of regeneration covers the gap to the maximum, the
      estimate sits exactly at the maximum; in exact arithmetic, a maximum of 10
      is reached from empty after 28 ticks, as 28 * 5/14 == 10. */
  lemma FullAfterEnoughTicks(e: real, n: nat, maxElixir: int)
    requires 0.0 <= e <= maxElixir as real
    requires maxElixir as real - e <= n as real * RegenPerTick
    ensures Ticks(e, n, maxElixir) == maxElixir as real
  {
    TicksClosedForm(e, n, maxElixir);
    GainIsMultiple(n);
  }
}
