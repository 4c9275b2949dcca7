/** The game's tuning constants. Python floats are idealised as exact reals. */
module Constants {

  /** Side of one grid cell in pixels. */
  const TileWidth: int := 50

  /** Added to the player's per-tick acceleration every tick; not scaled by the frame time. */
  const Gravity: real := 0.02

  /** Falling speed above which `dy` is clamped. */
  const MaxVelocity: real := 1.0

  /** Acceleration given to the player on entering the jump state. */
  const LaunchVelocity: real := -0.2

  /** Gravity is multiplied by this while running in the air. */
  const RunGravityFactor: real := 0.9

  /** Horizontal speed of the player, pixels per millisecond. */
  const MarioSpeed: real := 0.5

  const MarioJumpHeight: int := 150

  /** How far below the player the ground probes look. */
  const GroundProbeOffset: int := 10
}
