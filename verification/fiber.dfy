/**
 * The per-line physics of core/elements.py: latency from the line length
 * and the fibre propagation speed, and a linear noise model.
 */
module Fiber {

  /** Speed of light in vacuum, metres per second. */
  const C_VACUUM: real := 3e8

  /** Speed of light in the fibre: two thirds of C_VACUUM (exactly 2e8 m/s). */
  const FIBER_SPEED: real := (2.0 / 3.0) * C_VACUUM

  /** Seconds needed to cross `length` kilometres of fibre. */
  function LatencyGeneration(length: real): (seconds: real)
    ensures seconds * FIBER_SPEED == length * 1000.0
    ensures length >= 0.0 ==> seconds >= 0.0
  {
    (length * 1000.0) / FIBER_SPEED
  }

  /** Noise a line of `length` kilometres adds to a signal of `power` watts. */
  function NoiseGeneration(power: real, length: real): (noise: real)
    ensures power >= 0.0 && length >= 0.0 ==> noise >= 0.0
    ensures power == 0.0 || length == 0.0 ==> noise == 0.0
  {
    1e-9 * power * length
  }
}
