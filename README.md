# mapConservativeFields — a verified model of the test harness

`mapConservativeFields` is an OpenFOAM utility that tests the conservative
mesh-to-mesh interpolation engine. It fills a scalar field and its gradient
on a source mesh with a known analytic pattern. It then maps the field to a
target mesh and back again for a number of cycles, resetting the boundary
values to the analytic pattern after every hop. Finally it scores the result
against the exact pattern (sum of squared deviations, largest deviation and a
per-cell error map) and reports the volume integral of the field before and
after the remapping.

This project models that harness in Dafny:

- `Geometry`: vectors and the parts of a mesh the harness reads (cell
  centres, cell volumes, boundary face centres per patch).
- `TestPatterns`: the `CONSTANT` and `LINEAR` test patterns, their values
  and their gradients (`constScalVal = 2.0`).
- `TimeSelection`: `getTimeIndex`, the search for the time directory nearest
  to a requested time.
- `TestFields`: the cell-centred scalar and vector fields as classes whose
  cell values live in an array and whose boundary values are a list of
  per-patch lists. Also `initTestField` and `initBoundaryFields`.
- `ErrorNorms`: `computeError`, its running sum of squares, its running
  maximum and the per-cell error map.
- `CyclicRemap`: `testCyclicRemap`. This covers the hop/reset schedule
  (recorded as a ghost trace of steps), the field values it arrives at, the
  volume integrals it reports, and what a conserving engine implies about
  them.

The interpolation engine (`conservativeMeshToMesh`) is not part of this
model. It enters as a caller-supplied function from the source field's cell
values, boundary values and cell gradients to each target cell's value, one
such function per mesh pair. The interpolation method is one of the three
values the program accepts: conservative, inverse distance and conservative
first order.

## Model

| member | source | states |
|---|---|---|
| TimeSelection.GetTimeIndex | mapConservativeFields/mapConservativeFields.C:58-80 | The result is -1 or a valid index. A non-negative result is the nearest time directory: never "constant", closer than `GREAT`, no farther than any other time directory, and strictly closer than every earlier one (the first of equal candidates wins). The result is -1 exactly when every time directory is at least `GREAT` away, including when there is none. |
| TimeSelection.NearestIsUnique | mapConservativeFields/mapConservativeFields.C:70-76 | The strict `<` makes the nearest index unique: two indices that both meet the nearest-directory property are equal. |
| TestPatterns.GradientIsExact | mapConservativeFields/mapConservativeFields.C:378-399 | The gradient stored with each pattern is exact: the value at `x + h` is the value at `x` plus the gradient dotted with `h`. |
| TestPatterns.GradientIsUniform | mapConservativeFields/mapConservativeFields.C:378-399 | The stored gradient is the same at every point (zero for the constant pattern, (2, 3, 1) for the linear one). |
| TestFields.InitBoundaryFields | mapConservativeFields/mapConservativeFields.C:185-233 | Every boundary face of every patch gets the pattern's value at that face's centre. The cell values are left unchanged. |
| TestFields.InitTestField | mapConservativeFields/mapConservativeFields.C:314-512 | It returns fresh scalar and gradient fields on the given mesh. When populating, every cell holds the pattern's value and gradient at its centre, and every boundary face holds the pattern's value. Otherwise every cell and face is zero. |
| ErrorNorms.ComputeError | mapConservativeFields/mapConservativeFields.C:517-669 | The two loops yield, for each side, the sum of squared deviations from the exact pattern and the largest absolute deviation. They also yield the target's per-cell error map. Both norms are non-negative. Every map entry is at most the target's largest deviation. That largest deviation is zero or equal to some map entry. |
| ErrorNorms.MeanSquareError | mapConservativeFields/mapConservativeFields.C:678-688 | The quantity under the reported L2 square root (sum of squares over cell count) is non-negative. It is zero exactly when the sum is zero. Times the cell count it gives back the sum. |
| ErrorNorms.SumOfSquaresNonNegative | mapConservativeFields/mapConservativeFields.C:606 | The accumulated sum of squared deviations is never negative. |
| ErrorNorms.SumOfSquaresPositive | mapConservativeFields/mapConservativeFields.C:606 | A single non-zero deviation makes the sum of squares strictly positive. |
| ErrorNorms.SumOfSquaresZero | mapConservativeFields/mapConservativeFields.C:606 | The sum of squares is zero if and only if every deviation is zero. |
| ErrorNorms.AllZeroSumOfSquares | mapConservativeFields/mapConservativeFields.C:665 | Deviations that are all zero give a zero sum of squares. |
| ErrorNorms.MaxAbsBounds | mapConservativeFields/mapConservativeFields.C:607 | The running maximum that starts at 0 is non-negative and bounds every absolute deviation. It is either 0 or one of those deviations. |
| ErrorNorms.MaxAbsZero | mapConservativeFields/mapConservativeFields.C:666 | The largest deviation is zero if and only if every deviation is zero. |
| ErrorNorms.ZeroErrorIffExact | mapConservativeFields/mapConservativeFields.C:551-608 | Either error norm is zero if and only if every cell holds exactly the pattern's value at its centre. |
| ErrorNorms.PopulatedFieldHasZeroError | mapConservativeFields/mapConservativeFields.C:366-402 | A freshly populated field scores zero on both norms. |
| ErrorNorms.SummaryBounds | mapConservativeFields/mapConservativeFields.C:665-668 | Every entry of the error map is bounded by the largest deviation, which is attained or zero. Both norms are non-negative. |
| CyclicRemap.Interpolate | mapConservativeFields/mapConservativeFields.C:762-768 | A hop overwrites every target cell with what the engine computes from the source's cell values, boundary values and gradients. The target keeps its mesh and boundary shape. |
| CyclicRemap.ConstantPatternIntegral | mapConservativeFields/mapConservativeFields.C:724 | For the constant pattern, the recorded source integral is `constScalVal` times the total cell volume. |
| CyclicRemap.ConstantIntegral | mapConservativeFields/mapConservativeFields.C:724 | The volume integral of a field that is `constScalVal` everywhere is that constant times the total volume. |
| CyclicRemap.ScheduleHops | mapConservativeFields/mapConservativeFields.C:762-802 | The hops alternate direction, starting source-to-target. There is one hop when `nCycles` is below 2, and otherwise `2 * nCycles - 1`. |
| CyclicRemap.ResetsFollowEveryHop | mapConservativeFields/mapConservativeFields.C:770-801 | Every hop is followed immediately by a reset of the target boundary and then the source boundary. |
| CyclicRemap.IntegralFirstForwardLast | mapConservativeFields/mapConservativeFields.C:714-801 | The run starts with populating the source and then recording its integral. That is the only recording, and it comes before any hop. The run ends with a source-to-target hop and the two resets. |
| CyclicRemap.ConservativeRoundsKeepIntegral | mapConservativeFields/mapConservativeFields.C:812-819 | If both engines conserve the volume integral, then after any number of rounds both the source's and the target's integrals equal the integral recorded before the first hop. |
| CyclicRemap.HopAndReset | mapConservativeFields/mapConservativeFields.C:778-801 | One hop followed by both resets. The receiving field holds the engine's image of the sending field. Both fields end with analytic boundary values. |
| CyclicRemap.RunRounds | mapConservativeFields/mapConservativeFields.C:775-802 | After the `nCycles - 1` rounds, the fields hold the values that the rounds specification gives. Both boundaries are analytic, and the steps taken are exactly the rounds of the schedule. |
| CyclicRemap.TestCyclicRemap | mapConservativeFields/mapConservativeFields.C:698-820 | The harness performs exactly the schedule for `nCycles`. It reports the analytic source integral recorded before any hop, and the error norms, error map and integrals of the final fields. It also reports the magnitude of the source-target integral difference. With a single cycle the source integral cannot change. With conserving engines the reported difference is zero and the source integral is unchanged. |

## Left out

- The `SINUSOID_2D`, `SINUSOID_3D` and `COSINE_HILL_2D` patterns: they need sine, cosine and square roots, which have no exact counterpart over the reals here.
- The `Foam::sqrt` of the L2 error and the `cbrt` mesh spacing `dx`: `MeanSquareError` models the quantity under the square root. The spacing and the `Info` output are not modelled.
- The interpolation engine's internals (`conservativeMeshToMesh`, its addressing, threads, `forceRecalc` and `writeAddr`): the engine is a function parameter.
- CyclicRemap.Interpolate: states nothing about the target's boundary values after a hop beyond their shape, because what the engine writes there is not visible. The harness resets them anyway.
- Parallel reduction: `gSum` is modelled as a sequential sum over the local cells.
- All file I/O: field `write` calls, reading fields in `MapConservativeVolFields` and the `iError` field's `AUTO_WRITE`.
- `MapConservativeVolFields`, `mapConservativeMesh`, `testMappingError` and `main`: they read cases from disk or drive the engine directly, outside the cyclic test.
- The `default` branches that abort with `FatalError` for an unknown pattern: the pattern type has only the two modelled values, so that branch cannot arise.
- TestFields.InitBoundaryFields: takes the field's own mesh rather than a separate mesh argument, because every call passes the field's own mesh.
- The gradient fields' `zeroGradient` boundary condition: only the cell gradients are read by the engine here.
- Floating point: all arithmetic is exact over the reals. `Foam::GREAT` is the double-precision value 1.0e15.
