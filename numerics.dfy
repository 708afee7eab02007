/** Real-number stand-ins for the floating-point helpers the kernel uses. */
module Numerics {

  /** numpy's `np.pi`, as a decimal. */
  const PI: real := 3.141592653589793

  /** One full turn, `2 * np.pi`. */
  const FULL_TURN: real := 2.0 * PI

  /** `np.deg2rad`. */
  function DegToRad(degrees: real): real
  {
    degrees * PI / 180.0
  }

  /**
   * Python's float `x % (2 * np.pi)`: the remainder takes the sign of the
   * divisor, so the angle is wrapped into [0, 2 pi).
   */
  function WrapAngle(x: real): (r: real)
    ensures 0.0 <= r < FULL_TURN
    ensures ((x - r) / FULL_TURN).Floor as real == (x - r) / FULL_TURN
  {
    var k := (x / FULL_TURN).Floor;
    assert (k as real * FULL_TURN) / FULL_TURN == k as real;
    x - k as real * FULL_TURN
  }

  /** Wrapping leaves an angle that is already in [0, 2 pi) unchanged. */
  lemma WrapReduced(x: real)
    requires 0.0 <= x < FULL_TURN
    ensures WrapAngle(x) == x
  {
    assert (x / FULL_TURN).Floor == 0;
  }

  /**
   * The transcendental functions of numpy the kernel calls, left abstract:
   * `sqrt` is `np.sqrt`, `arctan2` is `np.arctan2(row, column)` and
   * `slope(rise, run)` is `np.arctan(rise / run)`.
   */
  datatype Transcendentals = Transcendentals(
    sqrt: real -> real,
    arctan2: (real, real) -> real,
    slope: (real, real) -> real)
}
