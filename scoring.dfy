/**
 * Score and fall speed after a line clear (game.js:168-174). The source keeps
 * the fall interval `step` in seconds (0.6, 0.01, 0.1); here it is kept in
 * whole milliseconds, where the same formula is exact.
 */
module Scoring {

  /** `SPEED_START`, `SPEED_DEC`, `SPEED_MIN` in milliseconds. */
  const SPEED_START: nat := 600
  const SPEED_DEC: nat := 10
  const SPEED_MIN: nat := 100

  function Pow2(n: nat): (r: nat)
    ensures r >= 1
  {
    if n == 0 then 1 else 2 * Pow2(n - 1)
  }

  /** Points for clearing c rows at once: `100 * 2 ** (c - 1)`. */
  function Points(c: nat): nat
    requires c >= 1
  {
    100 * Pow2(c - 1)
  }

  /** The fall interval after `rows` rows in total: `max(SPEED_MIN, SPEED_START - SPEED_DEC * rows)`. */
  function StepFor(rows: nat): nat
  {
    if SPEED_START - SPEED_DEC * rows > SPEED_MIN then SPEED_START - SPEED_DEC * rows else SPEED_MIN
  }

  /** Each additional row in one clear doubles the award: 100, 200, 400, 800 for one to four rows. */
  lemma PointsDouble(c: nat)
    requires c >= 1
    ensures Points(c + 1) == 2 * Points(c)
    ensures Points(1) == 100 && Points(2) == 200 && Points(3) == 400 && Points(4) == 800
  {
  }

  /** The fall interval stays within [SPEED_MIN, SPEED_START] and never grows as rows accumulate. */
  lemma StepMonotone(r1: nat, r2: nat)
    requires r1 <= r2
    ensures SPEED_MIN <= StepFor(r2) <= StepFor(r1) <= SPEED_START
    ensures StepFor(0) == SPEED_START
  {
  }

  /** It reaches its floor at 50 rows and stays there; 10 rows give 500 ms. */
  lemma StepFloor(rows: nat)
    ensures StepFor(rows) == SPEED_MIN <==> rows >= 50
    ensures StepFor(10) == 500
  {
  }
}
