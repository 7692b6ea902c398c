# traject-cpp core in Dafny

A model of the deterministic core of traject-cpp, a ballistic launch planner. The program picks
a launch speed, east angle and ground angle that land a projectile on a goal latitude and
longitude with the least kinetic energy. The floating-point numerics (trigonometry, `sqrt`,
`exp`, convergence of the Newton search and of RK4) are not modelled. What they feed into is
modelled over exact `real` and `int`:

- **Linear algebra** (`include/linalg.h` and the older top-level `linalg.h`). `Vectors` holds
  `Vector3` and its indexed access, sum, difference, dot and cross products and scalar products.
  `Matrices` holds the row-major `Matrix` as compiled with `Math::SAFE_MATRICES == false`: the
  bounds and shape checks are compiled out, so they become preconditions. `Determinants` holds
  the row-0 cofactor determinant, `minor` and the adjugate `inverse`. `Inverses` proves that the
  inverse is two-sided for 2 x 2 and 3 x 3, and `InverseFix` covers the 1 x 1 case, where it is
  not. `CheckedMatrices` is the always-checked top-level `linalg.h`, whose failures are
  `Result` values.
- **RK4 driver** (`include/rk4.h`). `Rk4` has the exact update, the step/stop/count loop, and
  the count it reports.
- **Physics helpers** (`include/physics.h`). `Physics` has the ground velocity, the
  local/inertial frame change and its round trip, the equations of motion, the landing test,
  and the wiring of `getFinalPosition`. An angle is the pair (sin, cos) with sin² + cos² = 1.
  `sqrt` is a function value that is only known to square back.
- **Solver bookkeeping** (`include/trajectoryoptimization.h`). `TrajectoryOptimization` has the
  Newton search of `getInputs`: the forward-difference Jacobian, the singular test and retry,
  damping, the Newton step, the speed and angle repair, and the loop. `simulate` and `exp` are
  function parameters. `TrajectorySearch` has the three-candidate parabolic energy search of
  `optimizeTrajectory`, with `getInputs` as a function parameter.
- **Renderer** (`include/renderer.h`). `Rendering` has the `RenderObject` grids of glyph codes
  and depths, nearest-wins `merge`, circles, lines and polylines, and the `Renderer` buffer. It
  also has the frame text that `render` writes: two characters per pixel and a newline per row.

`Errors` gives the exception classes with their messages and the `Result`/`Option` types.
`Constants` holds the values of `include/constants.h`.

A loop with no iteration cap is modelled with a `fuel: nat` argument. These are the `getInputs`
Newton loop and the `optimizeTrajectory` search. Running out of fuel gives `None`.

## Model

| member | source | states |
|---|---|---|
| Vectors.Get | include/linalg.h:46-60 | index 0, 1, 2 reads x, y, z; every other index, negative ones included, fails with out_of_range "Vector dimension exceeded" |
| Vectors.Set | include/linalg.h:29-43 | a write succeeds exactly for indices 0..2; the written component reads back and the other two read as before |
| Vectors.FromSeq | include/linalg.h:19-26 | a std::vector makes a vector exactly when it holds three values, in index order; otherwise invalid_argument "Vector dimension must be 3" |
| Vectors.IndexRoundTrip | include/linalg.h:19-60 | reading the three components and constructing from them gives back the same vector |
| Vectors.AddSubInverse | include/linalg.h:76-95 | subtraction undoes addition and addition undoes subtraction; v - v is the zero vector |
| Vectors.R2ZeroIff | include/linalg.h:147-150 | `r2()` is zero exactly for the zero vector |
| Vectors.DotProperties | include/linalg.h:98-103 | the dot product is symmetric and linear in its first factor, and v . v is r2() |
| Vectors.CrossOrthogonal | include/linalg.h:106-113 | the cross product is orthogonal to both of its factors |
| Vectors.CrossCyclesBasis | include/linalg.h:106-113 | i x j = k, j x k = i, k x i = j |
| Vectors.ScaleProperties | include/linalg.h:116-126 | n * v equals v * n, and scaling by n multiplies r2() by n² |
| Vectors.SampleValues | tests/testvector3.h:34-81 | (1,2,3) . (0,-1,3) = 7 and the other unit-test values; writing index 3 fails |
| Matrices.Zero | include/linalg.h:184-189 | the (rows, cols) constructor gives that shape with every entry 0 |
| Matrices.FromRows | include/linalg.h:191-207 | no rows or an empty first row is invalid_argument "Matrix cannot have dimension 0"; otherwise the first row fixes the width and entries are copied |
| Matrices.Set | include/linalg.h:240-254 | the written entry reads back and every other entry is unchanged |
| Matrices.Equal | include/linalg.h:284-295 | `==` holds exactly when the two matrices are the same value: same shape and same entries |
| Matrices.AddSubProperties | include/linalg.h:310-341 | + and - are entrywise, + commutes, and (a + b) - b = a |
| Matrices.MulEntry3 | include/linalg.h:344-359 | an entry of a product with inner dimension 3 is the three-term row-by-column sum |
| Matrices.MulIdentity | include/linalg.h:344-359 | id is neutral on both sides of the product |
| Matrices.ScaleLeft | include/linalg.h:362-373 | n * m scales every entry by n, the same as m * n |
| Matrices.Id | include/linalg.h:376-383 | ones on the diagonal and zeros elsewhere |
| Matrices.Transpose | include/linalg.h:386-393 | dimensions swap and entry (i, j) is the old (j, i) |
| Matrices.TransposeInvolution | include/linalg.h:386-393 | transposing twice gives back the matrix |
| Matrices.TransposeOfProduct | include/linalg.h:344-393 | (a b)^T = b^T a^T |
| Matrices.MulVec | include/linalg.h:478-488 | a matrix that is not 3 x 3 is invalid_argument; otherwise component r is row r dotted with v |
| Matrices.ApplyIsMul | include/linalg.h:478-488 | the matrix-vector product agrees with the matrix product by the vector as a column |
| Matrices.SampleMatrixVector | tests/testmatrix.h:170-178 | diag(2, 3, 1) times (7, 6, 2) is (14, 18, 2) |
| Determinants.SubmatrixKeeps | include/linalg.h:421-432 | every entry outside row x and column y survives, moved up past the deleted row and left past the deleted column |
| Determinants.Det | include/linalg.h:396-411 | a non-square matrix is a domain_error and a square one succeeds |
| Determinants.Minor | include/linalg.h:414-434 | a non-square matrix is a domain_error and a square one succeeds |
| Determinants.Det2 | include/linalg.h:396-434 | the row-0 expansion of a 2 x 2 matrix is ad - bc |
| Determinants.Minor3 | include/linalg.h:414-434 | a 3 x 3 minor is the 2 x 2 determinant of the rows and columns left over, in order |
| Determinants.Inverse | include/linalg.h:437-458 | fails exactly for a non-square matrix (domain_error) or a zero determinant (runtime_error), with those messages; otherwise square of the same size |
| Determinants.InverseEntries | include/linalg.h:445-456 | entry (j, i) of the inverse is (-1)^(i+j) minor(i, j) / det |
| Determinants.SampleDeterminants | tests/testmatrix.h:119-127 | det [[1, 2], [3, 4]] = -2 and det [[1, 2], [2, 4]] = 0 |
| Inverses.Inverse2 | include/linalg.h:437-458 | the inverse of a 2 x 2 matrix is [[d, -b], [-c, a]] / det |
| Inverses.RowExpansion2 | include/linalg.h:396-434 | in a 2 x 2 matrix, row j against the cofactors of row i gives det when i = j and 0 otherwise |
| Inverses.RowExpansion3 | include/linalg.h:396-434 | Laplace expansion along any row, and the alien-cofactor sums are 0, for 3 x 3 |
| Inverses.CofactorRowIsCross | include/linalg.h:414-456 | the signed cofactors of row i of a 3 x 3 matrix are the cross product of the next two rows, taken cyclically |
| Inverses.DetIsTripleProduct | include/linalg.h:396-411 | the determinant of a 3 x 3 matrix is the triple product of its rows |
| Inverses.InverseRight | include/linalg.h:437-458 | for size 2 or 3 with non-zero determinant, a * inverse = id |
| Inverses.InverseTranspose | include/linalg.h:386-458 | the inverse of the transpose is the transpose of the inverse |
| Inverses.InverseLeft | include/linalg.h:437-458 | for size 2 or 3 with non-zero determinant, inverse * a = id |
| Inverses.InverseTwoSided | include/linalg.h:437-458 | for size 2 or 3 with non-zero determinant the adjugate inverse is a two-sided inverse |
| InverseFix.InverseOneByOne | include/linalg.h:414-420 | as written, the inverse of [[a]] with a != 0 is [[1]], which is no inverse unless a = 1 |
| InverseFix.InverseOfTwo | include/linalg.h:437-458 | as written, [[2]] inverts to [[1]], and [[2]] [[1]] = [[2]] |
| InverseFix.CorrectedInverse | include/linalg.h:437-458 | fails exactly when inverse() fails, and with the same error; on every size but 1 it equals inverse(); a success is square of the input's size |
| InverseFix.CorrectedInverseTwoSided | include/linalg.h:437-458 | for sizes 1 to 3 with non-zero determinant the corrected inverse succeeds and is two-sided; for 1 x 1 that makes it [[1 / a]] |
| CheckedMatrices.At | linalg.h:88-99 | a column past the width is out_of_range "Matrix width exceeded", checked before the row; a row past the height is "Matrix height exceeded"; otherwise the entry |
| CheckedMatrices.Update | linalg.h:74-86 | the write fails exactly as the read would; otherwise the entry reads back and all other reads are unchanged |
| CheckedMatrices.Plus | linalg.h:138-149 | invalid_argument on any shape mismatch, otherwise the entrywise sum |
| CheckedMatrices.Minus | linalg.h:152-163 | invalid_argument on any shape mismatch, otherwise the entrywise difference |
| CheckedMatrices.Times | linalg.h:166-178 | invalid_argument unless cols = m.rows; otherwise rows x m.cols with entry (j, i) the row-by-column sum |
| CheckedMatrices.CheckedAgreesWithUnchecked | linalg.h:138-178 | where the shapes fit, the checked operators equal the unchecked ones, and (a + b) - b = a; otherwise + and - fail |
| CheckedMatrices.LikeProperties | linalg.h:265-280 | `like` is reflexive for a positive tolerance, and symmetric |
| CheckedMatrices.SampleProducts | tests/testmatrix.h:60-87 | [[1, 2, 3]] [[1], [2], [3]] = [[14]], the outer product the other way round, and a 2 x 2 with a 3 x 3 is rejected by *, + and - |
| CheckedMatrices.SampleInverse | tests/testmatrix.h:129-136 | the test matrix has determinant 24, and a a^-1 is like both a^-1 a and id(3) |
| Rk4.ConstantStep | include/rk4.h:43-48 | with a constant derivative c one advance is exactly y + h c: the samples weigh 1, 2, 2, 1 over 6 |
| Rk4.ConstantIterate | include/rk4.h:41-53 | with a constant derivative c the state after k advances is y0 + k h c |
| Rk4.Solve | include/rk4.h:33-56 | steps <= maxSteps; maxSteps <= 0 returns the initial state with 0 steps; a run that stops reports the (steps + 1)-th state, which satisfies the end condition; otherwise exactly maxSteps advances; no earlier counted state satisfied the condition; stepSize is h and error 0 |
| Rk4.StopsAtFirst | include/rk4.h:50-55 | when the end condition first holds after advance k <= maxSteps, the run reports k - 1 steps and the k-th state |
| Rk4.SampleUnitSlope | tests/testrk4.h:7-22 | x' = 1 from 0 with h = 0.001, stopping at x >= 0.5, ends at exactly 0.5 after 500 advances and reports 499 steps |
| Physics.Spinningv | include/physics.h:8-15 | the ground velocity is omega R cos lat times the local east direction (-sin lon, cos lon, 0), the first row of the local basis, so the Earth spins eastward; it has z = 0, is orthogonal to the surface point, and has squared speed (omega R cos lat)² |
| Physics.LocalInertialRoundTrip | include/physics.h:17-35 | inertialToLocal undoes localToInertial when sin² + cos² = 1 for both angles |
| Physics.InertialLocalRoundTrip | include/physics.h:17-35 | localToInertial undoes inertialToLocal under the same condition |
| Physics.Pack | include/physics.h:66-73 | the state holds the position in entries 0..2 and the velocity in 3..5 |
| Physics.GravitationalDerivatives | include/physics.h:37-54 | the position derivative is the velocity; away from the centre the acceleration is anti-parallel to the position, with (GM)² = \|a\|² r⁴ |
| Physics.InsideEarthIffBelowRadius | include/physics.h:56-61 | the landing test holds exactly when the distance from the centre is below EARTH_RADIUS |
| Physics.GetFinalPosition | include/physics.h:63-75 | step size STEP_SIZE and at most 100000 steps; an early stop ends inside the Earth at the (steps + 1)-th state of the packed start; no earlier counted state was inside |
| TrajectoryOptimization.Err2ZeroIff | include/trajectoryoptimization.h:76 | the squared landing error is zero exactly on the goal |
| TrajectoryOptimization.Fmod | include/trajectoryoptimization.h:99-130 | fmod by positive b keeps the sign of the dividend, is below b in magnitude, differs from a by a whole multiple of b, and leaves (-b, b) alone |
| TrajectoryOptimization.InitialGuess | include/trajectoryoptimization.h:64-67 | the first guess has speed 1000 NORM_VEL and east angle fmod(450 - azimuth, 360) NORM_DEG: in [0, 360 NORM_DEG) and differing from 450 - azimuth by a whole multiple of 360 degrees, which turns the compass bearing into an angle from east |
| TrajectoryOptimization.AffineJacobian | include/trajectoryoptimization.h:82-89 | for an affine simulation the forward-difference Jacobian is exactly its linear part, speed column first |
| TrajectoryOptimization.NotSingularInvertible | include/trajectoryoptimization.h:91-114 | a Jacobian that passes the singular test has non-zero det ad - bc, so inverse() succeeds |
| TrajectoryOptimization.Damping | include/trajectoryoptimization.h:112 | convCoeff is max(0.1, exp(-CONVERGENCE_COEFFICIENT err²)): it is 0.1 or that exponential, at least both, and so lies in [0.1, 1] |
| TrajectoryOptimization.NewtonDelta | include/trajectoryoptimization.h:114 | the step solves the linearised landing equation J delta = goal - y |
| TrajectoryOptimization.NewtonDeltaIsInverseProduct | include/trajectoryoptimization.h:114 | the step is J.inverse() times the 2 x 1 residual |
| TrajectoryOptimization.Repair | include/trajectoryoptimization.h:122-130 | afterwards v >= 0 with the same magnitude and the angle is in (-360, 360) NORM_DEG; a negative speed is negated and its angle turned by 180 before fmod |
| TrajectoryOptimization.NewtonStep | include/trajectoryoptimization.h:112-130 | given the Newton correction Δ and convCoeff, the damped move x + convCoeff·Δ (convCoeff² on the angle) is repaired: a negative speed is negated and the angle turned by 180 NORM_DEG, then the angle is reduced by fmod 360 NORM_DEG; so the next guess has v >= 0 and an angle in (-360, 360) NORM_DEG, and a move already in range is taken as it is |
| TrajectoryOptimization.SingularRetry | include/trajectoryoptimization.h:91-107 | the speed is kept; the new east angle is fmod(e + 330 NORM_DEG, 360 NORM_DEG): it differs from e + 330 NORM_DEG by a whole multiple of 360 NORM_DEG, lies in (-360, 360) NORM_DEG and has the sign of e + 330 NORM_DEG |
| TrajectoryOptimization.RetryFromNinety | include/trajectoryoptimization.h:99 | adding 330 modulo 360 turns 90 degrees into 60 and then 30, speed unchanged |
| TrajectoryOptimization.AsWritten | include/trajectoryoptimization.h:74-143 | the singular count never decreases and never passes 4; the run gives up exactly on the 4th singular Jacobian; guesses in range stay in range |
| TrajectoryOptimization.AsWrittenSingularPass | include/trajectoryoptimization.h:76-107 | a pass that meets a singular Jacobian only turns the angle, counts it, and leaves the fresh landing point for the next test |
| TrajectoryOptimization.ConvergedAsWritten | include/trajectoryoptimization.h:76 | the loop stops at once when the landing point it tests is within tolerance |
| TrajectoryOptimization.Corrected | include/trajectoryoptimization.h:74-143 | the same bounds, and a converged run returns a guess whose own landing point is within tolerance |
| TrajectoryOptimization.GetInputsAsWritten | include/trajectoryoptimization.h:43-148 | the reported launch is in m/s and degrees with v >= 0 and the angle in (-360, 360) |
| TrajectoryOptimization.GetInputs | include/trajectoryoptimization.h:43-148 | with the corrected exit test, a converged search reports a launch that lands within tolerance of the goal |
| TrajectoryOptimization.StaleExit | include/trajectoryoptimization.h:76-107 | as written, the run from (1, 90) under a two-hit simulation stops at (1, 30), which misses the goal |
| TrajectoryOptimization.StaleExitCorrected | include/trajectoryoptimization.h:76-107 | with the test on the current guess, the same run stops at (1, 60), on the goal |
| TrajectoryOptimization.StaleExitFromAzimuth | include/trajectoryoptimization.h:64-145 | from azimuth 0, `getInputs` as written reports 1000 m/s at 30 degrees and the corrected one 1000 m/s at 60 degrees |
| TrajectorySearch.Energy | include/trajectoryoptimization.h:161 | m v² / 2 is non-negative for a non-negative mass |
| TrajectorySearch.EnergyOrder | include/trajectoryoptimization.h:161-202 | for a positive mass, energies compare as the squared speeds do |
| TrajectorySearch.MaxIndex | include/trajectoryoptimization.h:191-196 | the scan returns the first index holding the largest energy |
| TrajectorySearch.MinIndex | include/trajectoryoptimization.h:172-179 | the scan returns the first index holding the smallest energy |
| TrajectorySearch.Vertex | include/trajectoryoptimization.h:184-187 | the vertex is undefined exactly when two angles coincide or the three points are collinear |
| TrajectorySearch.CurvatureZeroIff | include/trajectoryoptimization.h:184-186 | the curvature a is zero exactly when the three points are collinear |
| TrajectorySearch.VertexOfParabola | include/trajectoryoptimization.h:184-187 | through three points of A (t - t*)² + C with A != 0 and distinct angles, the new angle is t* |
| TrajectorySearch.Replace | include/trajectoryoptimization.h:198-203 | only the replaced candidate changes |
| TrajectorySearch.ReplaceWorst | include/trajectoryoptimization.h:191-218 | replacing the worst candidate by a cheaper one raises neither the lowest nor the highest energy |
| TrajectorySearch.Search | include/trajectoryoptimization.h:171-219 | the lowest and highest energies never increase; every candidate stays what getInputs answers for its angle; it ends within tolerance exactly when the spread is <= ENERGY_TOLERANCE; it ends Degenerate only when the final candidates have no parabola vertex, and NoImprovement only when the vertex exists and its launch needs at least the worst candidate's energy, so the worst is replaced only by a strictly cheaper one |
| TrajectorySearch.Seed | include/trajectoryoptimization.h:158-169 | the seeds are angles 35, 45 and 65 with their getInputs launches and energies |
| TrajectorySearch.OptimizeTrajectory | include/trajectoryoptimization.h:150-221 | the answer is the first final candidate of least energy (its angle and launch, with every earlier candidate strictly dearer); its launch is what getInputs answers for its angle, and its energy is at most that of every seed |
| TrajectorySearch.ParabolaFirstPass | include/trajectoryoptimization.h:180-208 | on an upward parabola the first pass tries exactly its vertex and replaces the worst candidate or stops, as the energies decide |
| Rendering.New | include/renderer.h:60-66 | a new object has every pixel code 0 at depth -1 |
| Rendering.Set | include/renderer.h:68-73 | only pixel (x, y) changes |
| Rendering.Merge | include/renderer.h:91-106 | the shape is kept and every pixel becomes the merge of this object's pixel with the other's: the other's wins only when it is not empty and this one is empty or farther (MergePixelNearest gives the rule's meaning) |
| Rendering.MergePixelNearest | include/renderer.h:91-106 | merge keeps the nearer non-empty pixel, keeps this one on ties, and is empty exactly where both were |
| Rendering.MergePixelAssociative | include/renderer.h:91-106 | merging pixels is associative |
| Rendering.MergeLaws | include/renderer.h:91-106 | merging an empty object changes nothing, and merging the same object twice equals merging once |
| Rendering.AddObjectIsMerge | include/renderer.h:206-226 | the renderer's addObjectToData is the same pixel rule as merge |
| Rendering.AddObjectToBuffer | include/renderer.h:268-273 | rejected with invalid_argument exactly when checkCompatibility fails, that is when the size differs; otherwise appended, with nothing else changed |
| Rendering.NewRenderer | include/renderer.h:229-235 | a new renderer has an empty buffer and a grid of code 0 at depth 0.0 |
| Rendering.DrawObjects | include/renderer.h:240-247 | the grid becomes the buffered objects composited in order onto an empty grid, and the buffer is emptied |
| Rendering.CompositeNearest | include/renderer.h:206-247 | a composited pixel is empty exactly when every object is empty there, and otherwise shows the nearest object, the earliest among equally near ones |
| Rendering.DrawPixel | include/renderer.h:190-204 | each code draws as two characters; reading them back gives codes 1..5, and every other code draws as two spaces |
| Rendering.FramePixel | include/renderer.h:256-264 | the glyph of pixel (x, y) sits at characters y (2w + 1) + 2x and the next one, an empty pixel draws as two spaces, and row y ends in a newline |
| Rendering.Render | include/renderer.h:248-267 | the frame has h (2w + 1) characters and draws the composited grid; the buffer is empty afterwards |
| Rendering.Circle | include/renderer.h:110-127 | every pixel is classified by the squared distance from its midpoint to the centre |
| Rendering.CircleShape | include/renderer.h:110-127 | a pixel is drawn exactly within r + 0.5 and at depth rndt; a pixel nearer the centre than a code-1 pixel is code 1 too |
| Rendering.Plot | include/renderer.h:42-53 | a pixel is overwritten only when empty or no nearer, with code 3 or 4 at the new depth |
| Rendering.AddLine | include/renderer.h:23-57 | a segment with equal endpoints leaves the object unchanged |
| Rendering.LineDepths | include/renderer.h:31-53 | a line pixel keeps its value or takes code 3 or 4 at a depth between the endpoint depths, and only over an empty or no nearer pixel |
| Rendering.Line | include/renderer.h:129-138 | a degenerate line is an empty object |
| Rendering.Multiline | include/renderer.h:140-150 | unequal point lists are invalid_argument "Point and rendist data does not match"; at most one point draws nothing |
| Rendering.RepeatedPointsDrawNothing | include/renderer.h:140-150 | a polyline whose points all coincide draws nothing |
| Rendering.SampleCompatibility | tests/testrenderer.h:52-67 | a 30 x 30 renderer accepts a 30 x 30 object and then rejects a 30 x 20 one |

`solve` increments its
counter only after an advance that does not end the run, so a run that stops on its k-th
advance reports k - 1 (`Rk4.Solve`, `Rk4.StopsAtFirst`).

## Left out

- Transcendental functions and `double` rounding. `sin`, `cos`, `sqrt`, `exp` and `atan2` are parameters. Each is known only through the algebraic fact its caller needs: sin² + cos² = 1, sqrt squares back, exp(t) lies in (0, 1] for t <= 0. All arithmetic is exact. `fromSpherical`, `r()`, `theta()`, `phi()` and the Vector3 `like` are left out.
- `simulate` (a whole RK4 flight followed by spherical coordinates) is the function parameter `sim`. The ground angle it also takes is fixed for one `getInputs` call, so it does not appear.
- TrajectoryOptimization.InitialGuess: takes the forward azimuth as a number in [-180, 180], because the `atan2` formula of line 64 is left out.
- TrajectoryOptimization.Fmod: covers only the positive divisors the program passes (360 NORM_DEG).
- TrajectoryOptimization.AsWritten: the loop has no iteration cap, so `fuel` bounds the passes. The same goes for TrajectoryOptimization.Corrected, GetInputs, GetInputsAsWritten and TrajectorySearch.Search. Nothing is claimed about runs longer than the fuel, including convergence.
- TrajectorySearch.Vertex: answers None where the C++ code divides by zero (coinciding angles or collinear points). The search then ends as `Degenerate`, where the C++ code would continue with an infinite or NaN angle.
- Physics.GravitationalDerivatives: takes the factor as 0 at the Earth's centre, where the C++ code divides by zero.
- Physics.GetFinalPosition: `gravitationalDerivatives` returns its matrix, but `solve` expects a derivative that writes into an out-parameter. The model passes the value-returning function.
- Inverses.InverseTwoSided: proved for sizes 2 and 3 only. Those are the sizes the program inverts. Larger sizes are not proved.
- Determinants.Signed: written for the non-negative sign exponents the callers use.
- Matrices.FromRows: requires later rows at least as long as the first. The C++ code reads them out of bounds otherwise.
- CheckedMatrices.At: negative indices are not checked by the C++ code either, so they are excluded.
- Vectors and Matrices: the element type `T` of `Vector3<T>` and `Matrix<T>` is fixed to `real`. The tests also use `int` instances. The model has no fixed-width integer overflow, and no truncating integer division in `Matrix<int>::inverse` (include/linalg.h:452 divides in `T`).
- Rk4.Solve: the derivative is a pure function from state to rate. `solve` in include/rk4.h allocates k1 to k4 once, before the loop, and the derivative fills them through an out-parameter. A derivative that writes only some entries, and so leaves the previous stage's values in the rest, is not modelled.
- Matrices.Get: with SAFE_MATRICES false, range checks and shape checks are preconditions instead of failures. The same goes for Matrices.Set, Add, Sub and Mul, and for Determinants.Minor, whose index requires for sizes above 1 stands for the unchecked writes of include/linalg.h:430.
- Rendering.Set: requires (x, y) on the grid. `set` at include/renderer.h:68-73 writes `data[y * width + x]` unchecked, so an x past the width lands on a pixel of a later row, and a point past the last row is out of bounds. Neither is modelled.
- Rendering.Merge: requires both objects to have the same size. `merge` at include/renderer.h:91-106 indexes the other object with this object's width and height, so an object of another size is read with the wrong stride or out of bounds. Neither is modelled. The renderer composites through `addObjectToData` instead, and only with objects that passed `checkCompatibility` in `addObjectToBuffer`.
- Rendering.AddLine: the `(int)` casts of `floor` and `ceil` are exact here, so overflow is not modelled.
- The `Renderer` buffer keeps pointers in the C++ code. The model keeps values, so an object changed after it was buffered is not modelled.
- `RenderObject::Sphere` is left out because its depth needs `sqrt`.
- Console output is left out: `clearScreen`, the `std::cout` warnings and writing the frame. `render` produces the frame text as a string.
- Memory management is left out (`new[]`, `delete[]`, copy constructors, assignment). Every value is a Dafny value.
- `include/userinput.h`, `main.cpp`, `src/` and the top-level `renderer.h` stub are not part of this model.
- RK4 accuracy on the circular-motion test (tests/testrk4.h:24-41) needs floating point, so it is left out.

## Findings

| source | as written | input that shows it | evidently intended | confidence | as-written member | corrected member |
|---|---|---|---|---|---|---|
| include/linalg.h:414-420 | `minor` of a 1 x 1 matrix returns its entry, so `inverse()` of [[a]] is [[a / a]] = [[1]] | [[2]]: inverse() is [[1]], and [[2]] [[1]] = [[2]], not id(1) | the 1 x 1 cofactor is the empty determinant 1, giving [[1 / a]] | high; not executed | InverseFix.InverseOneByOne, InverseFix.InverseOfTwo | InverseFix.CorrectedInverse, InverseFix.CorrectedInverseTwoSided |
| include/trajectoryoptimization.h:69-107 | the exit test at the head of the loop reads `y`, which was simulated at the start of the previous pass, before that pass changed the guess | azimuth 0, goal (0, 0), and a simulation landing on the goal only at east angles 60 and 60.01 (flat elsewhere). The guess turns 90 to 60 on a singular Jacobian, then 60 to 30 on another, and the test then stops on the landing point of 60. It reports 1000 m/s at 30 degrees, which misses | stop on the landing point of the guess being returned, which here is 1000 m/s at 60 degrees | medium; not executed | TrajectoryOptimization.StaleExit, TrajectoryOptimization.StaleExitFromAzimuthAsWritten | TrajectoryOptimization.Corrected, TrajectoryOptimization.StaleExitFromAzimuthCorrected |

The program only inverts 2 x 2 Jacobians. There `InverseFix.CorrectedInverse` and
`Determinants.Inverse` agree, as its contract states. `TrajectoryOptimization.GetInputs` uses
the corrected loop. `TrajectoryOptimization.GetInputsAsWritten` keeps the loop as written.
