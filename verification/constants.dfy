/** Numeric constants shared by the table builder, the exit-energy solver and the
    layer evaluator. */
module Constants {

  /** Kinetic energy per nucleon (MeV/u) below which a projectile counts as stopped.
      Only its positivity is used by the proofs. */
  const Ezero: real := 0.001

  /** Residual tolerance of the exit-energy iteration, in range units. */
  const Epsilon: real := 0.00001

  /** The exit-energy iteration gives up once its counter exceeds this value. */
  const MaxIterations: nat := 100

  /** Speed of light in the units of the time-of-flight table. */
  const CLight: real := 299.792458

  /** The bit of Config.skip that disables the time-of-flight computation. */
  const SkipTof: bv8 := 1

  /** Absolute value, as `fabs`. */
  function Abs(x: real): real {
    if x < 0.0 then -x else x
  }
}
