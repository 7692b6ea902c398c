/** The process-wide numeric constants of include/constants.h, as exact reals. */
module Constants {

  // RK4Constants
  const STEP_SIZE: real := 0.001
  const MAX_STEPS: int := 100000000

  // Math
  const EPS: real := 0.01
  const DETERMINANT_ZERO: real := 0.000000000001
  /** Math::SAFE_MATRICES: the bounds and dimension checks of include/linalg.h are compiled out. */
  const SAFE_MATRICES: bool := false

  // Physics: normalisation "units" handed to the Newton solver
  const NORM_VEL: real := 0.001
  const NORM_DEG: real := 1.0
  const CONVERGENCE_COEFFICIENT: real := 1.0

  const EARTH_MASS: real := 5972000000000000000000000.0
  const EARTH_RADIUS: real := 6371000.0
  const EARTH_ANGULAR_VELOCITY: real := 0.0000729
  const G: real := 0.00000000006674
  const ENERGY_TOLERANCE: real := 0.1
  /** Squared angular landing error accepted by the inverse solver. */
  const LOCATION_TOLERANCE: real := 0.000000000001
}
