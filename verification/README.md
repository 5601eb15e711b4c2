# A verified model of the algorithms of xdyn

xdyn simulates the motion of ships. This project models the self-contained algorithms of the simulator
in Dafny and proves what they promise, for all inputs: the generator of wave directions, the
discretisation of wave spectra, the motion of bodies with forced degrees of freedom, the algebra of
wrenches and the integration of surface forces, the search for the nearest variable name, and the mesh
files. `dafny verify dfyconfig.toml` checks the whole project.

## How the system is modelled

- `double` is `real`. Rounding is not modelled. Where the source divides by zero or takes the root of a
  negative number, the model returns `NotFinite`.
- The square root is a parameter of which only `r >= 0` and `r * r == x` are used. Cosine and sine, pi, the
  linear solver, the interpolators, the elementary force on a facet, the unit normal of a facet and the
  float codec are parameters too. Results about the solver hold for whatever vector it returns.
- Wave directions are kept as the integer vectors whose arguments the source computes with `acos`, and
  compared exactly, by half-plane and cross product. `std::sort` and `std::list::sort` are stood for by
  insertion sorts that meet the contracts of the library functions.
- The kinematic tree is the pose of every frame in NED. Points compare exactly, where the source
  compares their coordinates approximately. Exceptions are results of their own.
- Forced degrees of freedom come from YAML tables. An interpolator is the value and the k-th derivative
  as functions of time.
- Bytes are numbers below 256; `int` has 32 bits, `size_t` 64 bits, `char` is signed and numbers are
  stored little-endian, as on the platforms of the simulator.

Files: `CoprimePairs`, `IntRange`, `WaveDirections` (directions); `AreaCurves`, `EqualAreaBins`, `AngularFrequencies`,
`Spectra`, `SpectrumFilter` (spectra); `LinearAlgebra`, `BlockedDofs`, `ForcedMotion`, `BodyAccelerations`,
`QuaternionKinematics`, `ForcedPositions`, `StateDerivatives` (bodies); `Rotations`, `Wrenches`, `SurfaceForces` (forces);
`RowMajor`, `Insertion` (tables and sorting); `EditDistance` (names); `FanTriangulation`, `BinaryStl`, `StlIdentification` (meshes).

## What the code does, where one might expect otherwise

- `get_directions(n, true)` returns eight directions when n is below eight, and the set is closed under
  quarter turns and reflections exactly when n is at most eight or a multiple of eight.
- `levenshtein_distance` leaves the borders of its table at zero. What it computes is the least true
  distance after dropping, for free, some prefix of one of the two strings; `closest_string` may
  therefore miss a name that is among the candidates, and the model says exactly when.
- `equal_area_abscissae` gives values that are not numbers for a curve of three or more points without
  area.
- `filter` does not copy the phases.
- A position forced at the very end of its window gets a zero second derivative, because second
  derivatives are forced on a half-open window and the forcing matrices on a closed one.
- The rotation matrix of a body is that of a quaternion that need not have norm 1. Along the derivative of
  the state, dR_NED is its first-order term whatever the norm; the identity dR_NED v = R (omega x v) holds
  for all omega and v if and only if the norm is 1.
- The position rows of the forced-motion equation transport velocities by the centre of inertia. A forced
  x, y or z always has its prescribed second derivative if and only if the centre of inertia is at the
  origin of the body; for any other centre the model exhibits a body whose held position accelerates.
- The size test for binary STL files reads the bytes of the count as signed. It accepts files that are
  too short for the count they declare, exactly when a byte of the count is 128 or more, and refuses
  written meshes whose count has such a byte.

## Model

| member | source | states |
|---|---|---|
| CoprimePairs.BuildCoprimes | xdyn/environment_models/WaveDirectionalSpreading.cpp:28-55 | The two-queue loop returns n entries, entry i being the pair taken at turn i/8, in the breadth-first order of the two ternary trees; no queue is read out of range. |
| CoprimePairs.ListIsRecurrent | xdyn/environment_models/WaveDirectionalSpreading.cpp:32-53 | The list begins with (2,1) and (3,1), every pair fills eight entries, and the children (2m-p, m), (m+2p, p) and (2m+p, m) of the pair of turn j follow at every second turn from 3j+2 on if j is even, from 3j on if j is odd. |
| CoprimePairs.TakenIsCoprimePair | xdyn/environment_models/WaveDirectionalSpreading.cpp:37-48 | Soundness: the pair of every turn has m > p >= 1 and no common divisor, with opposite parities on even turns and two odd members on odd turns. |
| CoprimePairs.EveryCoprimePairIsTaken | xdyn/environment_models/WaveDirectionalSpreading.cpp:30-48 | Completeness: every coprime pair m > p >= 1 is taken at a turn given by descent to its parent. |
| CoprimePairs.TurnOfTaken | xdyn/environment_models/WaveDirectionalSpreading.cpp:30-48 | No repetition: the turn can be recovered from the pair, so each pair is taken once. |
| CoprimePairs.BuiltListMembership | xdyn/environment_models/WaveDirectionalSpreading.cpp:37-54 | A pair is in the list built for n if and only if it is a coprime pair whose turn comes before n/8. |
| CoprimePairs.RatioDeterminesPair | xdyn/environment_models/WaveDirectionalSpreading.cpp:46-48 | Coprime pairs of the same ratio are equal, by descent through the three child rules. |
| CoprimePairs.NodeIsLinearlyBounded | xdyn/environment_models/WaveDirectionalSpreading.cpp:44-48 | The pair at position k of a queue is at most the root's m times 2k+1: linear growth. |
| CoprimePairs.PushedIsLinear | xdyn/environment_models/WaveDirectionalSpreading.cpp:44-48 | The pairs pushed at turn j are at most 9 (j + 1). |
| IntRange.LastRuleIsLargest | xdyn/environment_models/WaveDirectionalSpreading.cpp:46-48 | Of the three child rules, the last one leads to the largest values, however many levels follow. |
| IntRange.EarlierPeaks | xdyn/environment_models/WaveDirectionalSpreading.cpp:44-48 | If all that lies to the left of a path stays in range, so does every earlier position of the queue. |
| IntRange.NoIntOverflowIff | xdyn/environment_models/WaveDirectionalSpreading.cpp:37-48 | No int overflows while n entries are built if and only if n is at most 976299632264. |
| WaveDirections.GetDirections | xdyn/environment_models/WaveDirectionalSpreading.cpp:72-94 | Exactly max(n, 8) directions in strictly increasing order of angle; the lookup at 8*index is always in range. Which ones they are is said by DirectionsOfPair and DirectionIff. |
| WaveDirections.FreshPair | xdyn/environment_models/WaveDirectionalSpreading.cpp:76-90 | The entry read at 8*index gives block index+1 of the directions, and no earlier block has a direction of the same angle. |
| WaveDirections.PushedAnglesDiffer | xdyn/environment_models/WaveDirectionalSpreading.cpp:73-91 | No two directions pushed have the same angle. |
| WaveDirections.BeforeTransitive | xdyn/environment_models/WaveDirectionalSpreading.cpp:92-92 | The exact angular order used for sorting is transitive. |
| WaveDirections.BeforeTrichotomy | xdyn/environment_models/WaveDirectionalSpreading.cpp:92-92 | Two vectors have the same angle or are ordered one way only. |
| WaveDirections.BeforeComparesCosines | xdyn/environment_models/WaveDirectionalSpreading.cpp:82-92 | The order is that of the angles: by decreasing x/h up to pi, where the source takes acos(x/h), and by increasing x/h from there on, where it takes 2 pi - acos(x/h). |
| WaveDirections.SymmetricIffWholeBlocks | xdyn/environment_models/WaveDirectionalSpreading.cpp:72-94 | The directions are closed under quarter turns and axis reflections if and only if n <= 8 or n is a multiple of 8. |
| WaveDirections.DirectionsOfPair | xdyn/environment_models/WaveDirectionalSpreading.cpp:76-91 | For every n: of a coprime pair (m, p) of turn j, direction (p, m) is returned if and only if 8j+8 < n, and (m, p), (-p, m), (-m, p), (-m, -p), (-p, -m), (m, -p), (p, -m) one place later each. |
| WaveDirections.DirectionIff | xdyn/environment_models/WaveDirectionalSpreading.cpp:72-94 | With whole blocks, a direction is returned if and only if it is one of the axes and diagonals, or its larger and smaller coordinates without signs are a coprime pair whose turn comes up. |
| AreaCurves.AreaCurve | xdyn/environment_models/discretize.cpp:292-316 | Accepts exactly curves with equal sizes, non-negative ordinates and strictly increasing abscissae, and returns the cumulated trapezoidal areas. |
| AreaCurves.AreaIsIntegral | xdyn/environment_models/discretize.cpp:306-313 | The cumulated areas start at zero and are the values of the integral of the piecewise-linear curve at the abscissae. |
| AreaCurves.IntegralWithinSegment | xdyn/environment_models/discretize.cpp:306-313 | Between two abscissae of one segment, the integral grows by their distance times the mean of the ordinates on the line. |
| AreaCurves.LineIsChord | xdyn/environment_models/discretize.cpp:319-329 | The line of a segment passes through a point if and only if the slope from the start of the segment is that of the segment. |
| AreaCurves.IntegralGrows | xdyn/environment_models/discretize.cpp:306-313 | The integral never decreases along the curve. |
| EqualAreaBins.BoundIsExact | xdyn/environment_models/discretize.cpp:319-329 | On a segment that holds a positive target, divisor and discriminant are legitimate, and the abscissa lies in the segment and leaves exactly the target area. |
| EqualAreaBins.FindBound | xdyn/environment_models/discretize.cpp:331-341 | The bound is computed on the first segment whose cumulated areas enclose the target, or is the last area when there is none. |
| EqualAreaBins.SomeSegmentHolds | xdyn/environment_models/discretize.cpp:333-340 | A target up to the total area is enclosed by some segment: the fall-through is unreachable. |
| EqualAreaBins.ChosenSegmentIsNotFlat | xdyn/environment_models/discretize.cpp:333-339 | The segment chosen for a positive target has positive area, and the remaining target fits in it. |
| EqualAreaBins.CutsMakePartition | xdyn/environment_models/discretize.cpp:356-360 | Cuts of the integral at equally spaced values are strictly increasing with equal areas between neighbours. |
| EqualAreaBins.NoAreaNoBound | xdyn/environment_models/discretize.cpp:319-339 | Without any area the first segment is chosen and divides zero by zero. |
| EqualAreaBins.EqualAreaAbscissae | xdyn/environment_models/discretize.cpp:343-363 | The result is an equal-area partition with the same end points if and only if the curve has at most two points or positive area; inner values are numbers exactly then. |
| EqualAreaBins.FlatCurve | xdyn/environment_models/discretize.cpp:319-341 | At the abscissae 0, 1, 2 with ordinates 0 the inner value is zero over zero. |
| AngularFrequencies.RegularIsIncreasing | xdyn/environment_models/WaveSpectralDensity.cpp:100-105 | Equally spaced frequencies are strictly increasing from omega_min to omega_max, as the area curve demands. |
| AngularFrequencies.RegularIffEquallySpaced | xdyn/environment_models/WaveSpectralDensity.cpp:100-105 | Equal steps from omega_min to omega_max determine the frequencies: there is one such list, the one computed. |
| AngularFrequencies.PeriodicFrequency | xdyn/environment_models/WaveSpectralDensity.cpp:81-99 | Frequency r*n+i fits exactly i+1 deep-water wavelengths in repetition size r, when that size is positive. |
| AngularFrequencies.GetAngularFrequencies | xdyn/environment_models/WaveSpectralDensity.cpp:31-116 | Exactly the invalid ranges, and periodic waves without a size, are refused; otherwise the periodic frequencies, n frequencies in equal steps from omega_min to omega_max or, with equal-energy bins, an equal-area partition of the density sampled in such steps whenever it has area. |
| Spectra.Flatten | xdyn/environment_models/discretize.cpp:137-206 | The loops build the flattening of all rays, and refuse spectra whose sizes disagree. |
| Spectra.RayIndex | xdyn/environment_models/discretize.cpp:151-202 | Ray i*nPsi+j has frequency and wave number i, direction j with its cosine and its sine, and phase (i, j). |
| Spectra.RayEnergy | xdyn/environment_models/discretize.cpp:193-200 | The amplitude of ray i*nPsi+j is not negative, and its square is twice the product of the energies of bins i and j. |
| Spectra.SharesIntegrate | xdyn/environment_models/discretize.cpp:153-171 | The bin widths are the weights of the trapezoidal rule, for any number of points. |
| Spectra.FlattenConservesEnergy | xdyn/environment_models/discretize.cpp:193-200 | The squared amplitudes of all rays add up to twice the product of the two integrals. |
| SpectrumFilter.SortDescending | xdyn/environment_models/discretize.cpp:235-235 | The energies in descending order, equal ones in order of index, each index once. |
| SpectrumFilter.Filter | xdyn/environment_models/discretize.cpp:217-252 | The rays kept are the shortest prefix of the ranking that holds the requested share, or all; every column but the phases is copied in step. |
| SpectrumFilter.FilteredColumns | xdyn/environment_models/discretize.cpp:238-250 | Entry i of the amplitudes, frequencies, directions, cosines, sines and wave numbers kept is the entry of the same column at the i-th index kept. |
| SpectrumFilter.FilteredRay | xdyn/environment_models/discretize.cpp:151-250 | Ray p*nPsi+q of a flattened spectrum, when kept, has frequency p and direction q in all columns of the result. |
| SpectrumFilter.KeptIsDescending | xdyn/environment_models/discretize.cpp:235-250 | The rays kept are distinct input rays in descending order of energy. |
| SpectrumFilter.NoSmallerSelection | xdyn/environment_models/discretize.cpp:209-252 | No smaller set of rays holds the requested share of the energy. |
| SpectrumFilter.HoldsRequestedShare | xdyn/environment_models/discretize.cpp:209-252 | The rays kept hold the share if and only if the ratio is at most 1 or there is no energy at all. |
| SpectrumFilter.FilteredFlattening | xdyn/environment_models/discretize.cpp:137-252 | The rays kept of a flattened spectrum hold the ratio of twice the product of its two integrals if and only if the ratio is at most 1 or that product is zero. |
| BlockedDofs.CheckNotDefinedTwice | xdyn/core/BlockedDOF.cpp:139-160 | The check passes exactly when no two tables name the same state. |
| BlockedDofs.Build | xdyn/core/BlockedDOF.cpp:231-324 | Refuses exactly duplicate states, tables that make no interpolator, and positions together with velocities, in that order; otherwise windows, interpolators and forcing patterns are those of the tables and nothing else is forced. |
| BlockedDofs.WindowIsSampled | xdyn/core/BlockedDOF.cpp:103-123 | After the construction a state is forced at the samples of its table and at all times between two of them, and at no other; for derivatives the last sample is left out. |
| BlockedDofs.GetDelta | xdyn/core/BlockedDOF.cpp:664-734 | Visiting the map in any order gives the forcing matrix of the states blocked at t. |
| BlockedDofs.ForcingMatrices | xdyn/core/BlockedDOF.cpp:664-734 | After a successful construction both matrices are diagonal with entries 0 and 1, for x, y, z, phi, theta, psi and for u, v, w, p, q, r in this order, and never both non-zero. |
| BlockedDofs.GetForced | xdyn/core/BlockedDOF.cpp:488-662 | Exactly the components of the states forced at that order are replaced, by the k-th derivative of their tables. |
| BlockedDofs.ForcedComponent | xdyn/core/BlockedDOF.cpp:350-360 | Component by component, in the order x, y, z, phi, theta, psi and u, v, w, p, q, r: the value at order 0 up to the last sample, the k-th derivative before it, and the free component otherwise. |
| BlockedDofs.SecondDerivatives | xdyn/core/BlockedDOF.cpp:350-360 | The second derivatives are zero on free axes and on a forced axis at the end of its window, else those of the table. |
| BlockedDofs.StateIndexIsInjective | xdyn/core/BlockedDOF.cpp:362-406 | Slots of distinct states differ within and across bodies, stay in their body, and avoid the real part of the quaternion. |
| BlockedDofs.ForceStates | xdyn/core/BlockedDOF.cpp:420-440 | The state vector keeps every slot but those of the states forced at t, which get their values; the slots are said by ForcedSlots. |
| BlockedDofs.ForcedSlots | xdyn/core/BlockedDOF.cpp:362-440 | From the first slot of the body on: x, y, z, u, v, w, p, q, r in this order, slot 9 is never touched, and phi, theta, psi go to slots 10 to 12. |
| BlockedDofs.ForcingIsDeterminateAndIdempotent | xdyn/core/BlockedDOF.cpp:420-440 | The outcome does not depend on the order of the map, and forcing twice is forcing once. |
| BlockedDofs.ForcingStaysInItsBody | xdyn/core/BlockedDOF.cpp:420-440 | Slots of other bodies, and the real part of the quaternion, are untouched. |
| BlockedDofs.ForcingBodiesCommutes | xdyn/core/BlockedDOF.cpp:420-440 | Two bodies can be forced in either order. |
| ForcedMotion.UnknownsArePartitioned | xdyn/core/Body.cpp:508-520 | Free axes counted up from the front and forced axes counted down from the back never share an unknown, for any number of axes; free ones keep their order and forced ones reverse it. |
| ForcedMotion.EveryUnknownIsOwned | xdyn/core/Body.cpp:508-520 | Every unknown belongs to some axis. |
| ForcedMotion.FillSelection | xdyn/core/Body.cpp:508-511 | The loop fills T_Xi_Y with the selection of the free unknowns. |
| ForcedMotion.FillPatterns | xdyn/core/Body.cpp:512-520 | The loops fill T_tau_Y with the patterns of the forced axes in the columns of their unknowns. |
| LinearAlgebra.ProductEntry | xdyn/core/Body.cpp:522-522 | The product of matrices used is the usual one: entry (i, j) is row i times column j. |
| ForcedMotion.PatternsTimes | xdyn/core/Body.cpp:512-527 | T_tau_Y applied to the unknowns is the combination of the patterns of the forced axes only. |
| ForcedMotion.Solve | xdyn/core/Body.cpp:506-527 | The accelerations are those without forcing plus the push of the solver's answer. |
| ForcedMotion.SolvedIffPrescribed | xdyn/core/Body.cpp:506-527 | LHS Y = RHS if and only if every forced axis of A dV + B has exactly the prescribed value and every free one that of its unknown. |
| ForcedMotion.ReactionCombinesPatterns | xdyn/core/Body.cpp:555-570 | With Mt Minv = I the reaction is the combination of the patterns of the forced axes with the intensities found. |
| StateDerivatives.CalculateStateDerivatives | xdyn/core/Body.cpp:333-543 | Writes the thirteen slots of its body with R uvw and the current, the accelerations of the forced motion and the derivative of the quaternion, and no slot of another body. |
| StateDerivatives.StepOfState | xdyn/core/Body.cpp:333-543 | A step along the thirteen slots moves the position at R uvw and the current, the velocities at the accelerations of the forced motion and the quaternion at its own derivative. |
| StateDerivatives.QuaternionSlots | xdyn/core/Body.cpp:356-366 | On the slots: twice the derivatives of slots 9 to 12 are the product of the quaternion and the rotation rate, and they leave its squared norm stationary. |
| StateDerivatives.ForcedVelocitySlot | xdyn/core/Body.cpp:530-542 | The slot of a forced velocity holds the first derivative of its table before the last sample. |
| StateDerivatives.ForcedMotionState | xdyn/core/BlockedDOF.cpp:362-440 | Forcing the state sets u, v, w, p, q, r of the motion, and phi, theta, psi in place of the last three quaternion components, to the values of their tables, and nothing else. |
| BodyAccelerations.CalculateAccelerations | xdyn/core/Body.cpp:368-543 | Writes the six acceleration slots of its body with the accelerations of the forced motion. |
| BodyAccelerations.ForcedMotionIsMet | xdyn/core/Body.cpp:368-543 | From the tables to the derivative vector: the solver solves the system if and only if every forced position gets its second derivative and every free one its own unknown. |
| BodyAccelerations.ForcedVelocityIsMet | xdyn/core/Body.cpp:530-542 | A forced velocity has the derivative of its table, but at the end of its window; all other accelerations are those of the forces. |
| BodyAccelerations.ReactionOfForcedPositions | xdyn/core/Body.cpp:555-570 | The reaction combines only the patterns of the positions forced at t. |
| BodyAccelerations.ReactionOfOneTable | xdyn/core/Body.cpp:506-570 | With a single table, of a position, each component of the reaction is that of its forcing pattern times the last unknown. |
| BodyAccelerations.NoForcingNoReaction | xdyn/core/Body.cpp:555-570 | Without any forced state the accelerations are those of the forces, and the reaction is zero. |
| QuaternionKinematics.DerivativeIsTqw | xdyn/core/Body.cpp:424-429 | The operator T_qw applied to the rotation rate is twice the derivative written to the state. |
| QuaternionKinematics.NormIsStationary | xdyn/core/Body.cpp:356-366 | Along that derivative the squared norm of the quaternion changes at second order only. |
| QuaternionKinematics.RotationAlong | xdyn/core/BodyStates.cpp:141-149 | The rotation matrix of q + h d, for any q and d: its first-order term is dR_NED less 2 q.d on the diagonal. |
| QuaternionKinematics.FirstOrderIffOrthogonal | xdyn/core/Body.cpp:452-462 | dR_NED is the first-order term of the rotation matrix along d if and only if d is orthogonal to q. |
| QuaternionKinematics.StateRateIsFirstOrder | xdyn/core/Body.cpp:452-462 | Hence it is along the derivative of the state, whatever the norm of q. |
| QuaternionKinematics.TurnsIffUnit | xdyn/core/Body.cpp:452-462 | dR_NED v = R (omega x v) for all omega and v if and only if q has norm 1. |
| QuaternionKinematics.RotationOfVector | xdyn/core/BodyStates.cpp:141-149 | With q = (w, u) the rotation matrix takes v to v + 2 w (u x v) + 2 u x (u x v), whatever the norm of q. |
| ForcedPositions.TpgTransports | xdyn/core/Body.cpp:419-423 | T_pg (v, omega) = v + G x omega. |
| ForcedPositions.PositionRowAgainstRate | xdyn/core/Body.cpp:493-502 | A position row of A dV + B is cos(theta) times the rate of R v plus the lever of G, for any rotation matrix and any rate of it. |
| ForcedPositions.VelocityRateIsExact | xdyn/core/Body.cpp:344-354 | The rate of R v is the first-order change of the derivative of the position that the function writes, whatever the norm of q. |
| ForcedPositions.MissIsLever | xdyn/core/Body.cpp:493-527 | After a solved system, a forced position misses the second derivative of its table by exactly the lever of G. |
| ForcedPositions.HoldingIsBuilt | xdyn/core/BlockedDOF.cpp:231-324 | The forced position of the next row is what the constructor makes of one table. |
| ForcedPositions.MissedPosition | xdyn/core/Body.cpp:493-527 | For every other G, every axis and any angle rows: a body with unit quaternion and identity inertia, held on that axis, whose position is missed although the system is solved. |
| ForcedPositions.AlwaysMetIff | xdyn/core/Body.cpp:419-527 | A forced position on a given axis is met in every situation whose system is solved if and only if G is at the origin of the body. |
| Wrenches.Wrench.ChangeFrame | xdyn/core/Wrench.cpp:63-78 | Force and torque are rotated together, the point is kept; unknown frames leave the wrench as it was. |
| Wrenches.Wrench.TransportTo | xdyn/core/Wrench.cpp:88-96 | The torque gains BA x F and the point changes, unless the point is already there. |
| Wrenches.Wrench.ChangePointAndFrame | xdyn/core/Wrench.cpp:98-102 | Transport, then change of frame, with the state left behind when the second step throws. |
| Wrenches.Wrench.AddWrench | xdyn/core/Wrench.cpp:132-137 | The other wrench is brought to this point and frame and added; it is itself unchanged. |
| Wrenches.TransportInNed | xdyn/core/Wrench.cpp:80-96 | In NED, a transport from A to B leaves the force, and the torque gains (A - B) x F; A and B are axes times coordinates plus origin of their frames. |
| Wrenches.TransportKeepsCanonical | xdyn/core/Wrench.cpp:88-96 | Transport does not change force and moment about the origin of NED. |
| Wrenches.ReframeKeepsCanonical | xdyn/core/Wrench.cpp:63-78 | Neither does a change of frame, for proper rotations: force and torque have the same coordinates in NED. |
| Wrenches.CanonicalDetermines | xdyn/core/Wrench.cpp:28-34 | At a given point and frame that physical wrench determines the value. |
| Wrenches.MovesCompose | xdyn/core/Wrench.cpp:98-102 | Moving through an intermediate point and frame is moving directly. |
| Wrenches.TransportsCompose | xdyn/core/Wrench.cpp:88-96 | A to B to C equals A to C, and A to B to A is the identity. |
| Wrenches.TransportCommutesWithReframe | xdyn/core/Wrench.cpp:63-102 | Transport and change of frame commute. |
| Wrenches.MovesKeepPower | xdyn/core/Wrench.cpp:63-102 | The power of the wrench in any rigid motion is unchanged by moves. |
| Wrenches.AddSumsCanonicals | xdyn/core/Wrench.cpp:132-137 | Adding wrenches adds the physical wrenches, whatever the points and frames. |
| Wrenches.AddCommutes | xdyn/core/Wrench.cpp:132-137 | Both sums agree once brought to the same point and frame. |
| Wrenches.PlusAgreesWithAdd | xdyn/core/Wrench.cpp:175-186 | operator+ accepts exactly equal points and frames, and then agrees with add. |
| SurfaceForces.GetForce | xdyn/core/SurfaceForceModel.cpp:22-57 | The facet loop integrates the elementary forces, the i-th one being that of facet i, for any number of facets. |
| SurfaceForces.SingleFacet | xdyn/core/SurfaceForceModel.cpp:40-54 | One facet gives its force, applied at its centre and transported to G. |
| SurfaceForces.MeshesAddUp | xdyn/core/SurfaceForceModel.cpp:36-56 | No facet gives the zero wrench, and the wrench of two lists of facets is the sum of their wrenches. |
| SurfaceForces.MomentAboutOther | xdyn/core/SurfaceForceModel.cpp:40-54 | The moment about another point is that about G plus the lever moment of the resultant. |
| SurfaceForces.IntegrationCommutesWithTransport | xdyn/core/SurfaceForceModel.cpp:40-54 | Transporting the integrated wrench to any point equals integrating with arms measured from it. |
| EditDistance.LevenshteinDistance | xdyn/core/Observer.cpp:94-117 | The flat table filled in place ends with the value of the recurrence with zero borders. |
| EditDistance.NoShorterScript | xdyn/core/Observer.cpp:110-112 | Reference: no script of single-character edits is shorter than the Levenshtein distance. |
| EditDistance.ShortestScript | xdyn/core/Observer.cpp:110-112 | Reference: some script has exactly that length. |
| EditDistance.Neighbours | xdyn/core/Observer.cpp:104-113 | Neighbouring cells differ by at most one, which justifies the diagonal on a match. |
| EditDistance.TableIsLeast | xdyn/core/Observer.cpp:94-117 | The value is at most the true distance after dropping any prefix of one string. |
| EditDistance.TableIsReached | xdyn/core/Observer.cpp:94-117 | Some such drop reaches the value: together they make it the minimum. |
| EditDistance.TableIsSymmetric | xdyn/core/Observer.cpp:94-117 | The value is symmetric. |
| EditDistance.TableZeroIffSuffix | xdyn/core/Observer.cpp:94-117 | It is zero if and only if one string is a suffix of the other. |
| EditDistance.TableIsNotLevenshtein | xdyn/core/Observer.cpp:99-99 | It never exceeds the true distance, and is zero on pairs whose true distance is as large as one likes. |
| EditDistance.TableIsTrueIff | xdyn/core/Observer.cpp:94-117 | It is the true distance if and only if no drop from one of the strings is cheaper. |
| EditDistance.ClosestString | xdyn/core/Observer.cpp:119-137 | Returns the first candidate of least distance, distances from INT_MAX on counting as INT_MAX. |
| EditDistance.NearestWithoutCap | xdyn/core/Observer.cpp:124-133 | For names shorter than INT_MAX the cap plays no part. |
| EditDistance.ExactNameReturned | xdyn/core/Observer.cpp:119-137 | A name among the candidates is returned if and only if no earlier candidate is a suffix of it or ends with it. |
| EditDistance.ListedNameMissed | xdyn/core/Observer.cpp:119-137 | Asked for "xy" among "y" and "xy", the choice is "y". |
| FanTriangulation.ConcatenatePoints | xdyn/external_file_formats/stl_io_hdf5.cpp:49-64 | The coordinates of all vertices, row by row in reading order. |
| FanTriangulation.ConcatenateTriangles | xdyn/external_file_formats/stl_io_hdf5.cpp:66-82 | The fans of all polygons, with the running offset numbering their vertices from 1. |
| FanTriangulation.ConcatenateFacets | xdyn/external_file_formats/stl_io_hdf5.cpp:147-157 | The fans of all facets, with the numbers of the shared nodes from 1. |
| FanTriangulation.GetNumberOfTriangles | xdyn/external_file_formats/stl_io_hdf5.cpp:22-42 | The sum of size - 2. |
| FanTriangulation.OwnFacesAreCounted | xdyn/external_file_formats/stl_io_hdf5.cpp:98-108 | The number of rows declared for the faces is the number of faces written. |
| FanTriangulation.WriteMesh | xdyn/external_file_formats/stl_io_hdf5.cpp:92-109 | The file lists the points and the fans of the mesh, with the declared sizes. |
| FanTriangulation.WriteFacets | xdyn/external_file_formats/stl_io_hdf5.cpp:121-159 | The file lists the nodes and the fans of the facets, with the declared sizes. |
| FanTriangulation.PointInFile | xdyn/external_file_formats/stl_io_hdf5.cpp:128-135 | Point n takes three values of the data set in a row: x, y, z. |
| FanTriangulation.VertexInFile | xdyn/external_file_formats/stl_io_hdf5.cpp:49-64 | In the file of a mesh, vertex j of a polygon follows j rows after its first vertex, which follows all vertices of earlier polygons. |
| FanTriangulation.TriangleInFile | xdyn/external_file_formats/stl_io_hdf5.cpp:66-82 | Triangle k of a polygon whose first vertex has number c is written as c, c+k+1, c+k+2, after the triangles of earlier polygons. |
| FanTriangulation.FacetInFile | xdyn/external_file_formats/stl_io_hdf5.cpp:147-157 | Triangle k of a facet is written as its nodes 0, k+1 and k+2, numbered from 1. |
| FanTriangulation.ReadMesh | xdyn/external_file_formats/stl_io_hdf5.cpp:168-191 | Each row of the faces becomes the polygon of the points that it numbers, unless some number is outside 1..nPoints. |
| FanTriangulation.VertexRead | xdyn/external_file_formats/stl_io_hdf5.cpp:177-189 | Vertex j of the polygon read from row i is the point of the number in column j, with its three coordinates in order. |
| FanTriangulation.WrittenMeshReadsAsFans | xdyn/external_file_formats/stl_io_hdf5.cpp:49-191 | Written numbers are in 1..nPoints, and reading gives the fans of the polygons in order. |
| FanTriangulation.WrittenFacetsReadAsFans | xdyn/external_file_formats/stl_io_hdf5.cpp:121-191 | The same for facets on shared nodes: the fans of the polygons they describe. |
| FanTriangulation.UnchangedIffTriangles | xdyn/external_file_formats/stl_io_hdf5.cpp:49-191 | Writing and reading is the identity if and only if every polygon is a triangle. |
| FanTriangulation.AreaOfFan | xdyn/external_file_formats/stl_io_hdf5.cpp:73-78 | The first n triangles of a fan have the vector area of the polygon cut after vertex n+1. |
| FanTriangulation.FansKeepArea | xdyn/external_file_formats/stl_io_hdf5.cpp:71-80 | The fans keep the vector area of the first n polygons, for every n, planar or not. |
| FanTriangulation.MeshReadKeepsArea | xdyn/external_file_formats/stl_io_hdf5.cpp:49-191 | In the mesh read back, the triangles of the first n polygons have their vector area, for every n. |
| BinaryStl.WriteBinaryStl | xdyn/external_file_formats/stl_writer.cpp:79-113 | Header, count reduced to 32 bits, and 50 bytes per facet: normal, three vertices, spacer. |
| BinaryStl.ReadBinaryStl | xdyn/external_file_formats/stl_reader.cpp:181-219 | The declared number of facets, each from its nine floats; None when the stream ends before the last of them. |
| BinaryStl.BytesOfFile | xdyn/external_file_formats/stl_writer.cpp:79-113 | 80 header bytes of value 1, then the number of facets modulo 2^32 with its lowest byte first, then 50 bytes per facet. |
| BinaryStl.BytesOfFacet | xdyn/external_file_formats/stl_writer.cpp:79-113 | Facet i begins at byte 84 + 50 i: normal, first three vertices, two zeros; a vertex is x, y, z with four bytes each. |
| BinaryStl.VertexReadFrom | xdyn/external_file_formats/stl_reader.cpp:181-219 | Vertex j of facet i is read from the twelve bytes from 96 + 50 i + 12 j on, four for each coordinate in order. |
| BinaryStl.WrittenReadsRounded | xdyn/external_file_formats/stl_reader.cpp:181-219 | Reading what was written gives the first three vertices of each facet written, with rounded coordinates. |
| BinaryStl.RoundTripIffExact | xdyn/external_file_formats/stl_reader.cpp:181-225 | The round trip is the identity if and only if the mesh has less than 2^32 facets, all triangles with coordinates that the codec represents. |
| StlIdentification.Find | xdyn/external_file_formats/stl_reader.cpp:276-277 | The first occurrence of the keyword at or after a position, or none. |
| StlIdentification.IdentifiedAsIff | xdyn/external_file_formats/stl_reader.cpp:274-301 | ASCII if and only if "solid" is in the file with "endsolid" there or after it, unless the size is right for a binary file and this happens within the first 80 bytes; otherwise binary if and only if the size is right. |
| StlIdentification.SignedCount | xdyn/external_file_formats/stl_reader.cpp:245-261 | The count built from signed bytes never exceeds the unsigned one, and equals it if and only if every byte is below 128. |
| StlIdentification.AcceptedSize | xdyn/external_file_formats/stl_reader.cpp:264-272 | The size test accepts exactly files of 84 + 50 n bytes for a non-negative signed count n. |
| StlIdentification.AcceptedIsCompleteIff | xdyn/external_file_formats/stl_reader.cpp:149-301 | A file recognised as binary holds all the facets it declares if and only if every byte of the count is below 128. |
| StlIdentification.AcceptedButIncomplete | xdyn/external_file_formats/stl_reader.cpp:245-301 | A file of 200 facets that declares 456 is recognised as binary and runs out of bytes. |
| StlIdentification.WrittenIsIdentifiedAs | xdyn/external_file_formats/stl_reader.cpp:274-301 | A written mesh is ASCII if "endsolid" follows a "solid", else binary if every byte of its number of facets is below 128, else refused. |
| StlIdentification.RefusedMesh | xdyn/external_file_formats/stl_reader.cpp:274-301 | A mesh of 128 triangles, written with floats that are all zero, is refused. |
| StlIdentification.FileRoundTripIff | xdyn/external_file_formats/stl_reader.cpp:149-165 | Through recognition and the binary reader, a written mesh comes back unchanged if and only if its bytes do not look like an ASCII file, every byte of its count is below 128 and it is exactly representable. |

## Left out

- The Observer class, gRPC, websocket, command-line and FMI layers: input, output and calls into other libraries.
- Interpolators, `Kinematics`, `DataSource`, steppers, `History`, `Mesh` and `MeshIntersector`: not part of this model; abstract functions and poses stand for them where needed.
- Forced states read from CSV files: `read_table_from_csv` never sets the state of its table, so nothing can be said about which state is forced.
- Interpolators that throw outside their tables: the windows keep the times inside.
- The Euler-angle part of `Body` (`drot`, `Lambda`, `sigma` and the angle rows of A and B) is arbitrary in the model: `sigma(1)` squares the pitch angle where its rate is expected. The exceptions for a pitch of 90 degrees and for other rotation conventions are left out with it.
- ForcedPositions.AlwaysMetIff: the second derivative is that in still water; the current that the source adds to the derivative of the position may change along the path, and the forced-motion equation does not know it.
- `Body::force_states` beyond `BlockedDOF::force_states`: the velocities it recomputes stay in local variables.
- `BlockedDOF::force_state_derivatives` and `BlockedDOF::get_delta_F`: the first repeats the loop of `force_states`, the second the formula of `Body::get_delta_F`.
- `Seabed`, `Memoization` in `ForceModel.cpp`, the spectra, wind profiles, propellers and resistance models: closed formulas or members that would only be easy.
- `common`, the grids of `SurfaceElevationInterface` and `SurfaceElevationBuilder`, and the axis convention of `yaml2eigen`: easy members.
- The non-periodic branch of `get_directions`, and the dynamic pressure factors carried along by `flatten` and `filter`.
- Floating-point rounding, and angles that differ by less than the rounding of `acos`.
- WaveDirections.GetDirections: returns the direction vectors; the conversion to an angle by `acos` is not modelled.
- Wrenches.Wrench.TransportTo: points are compared exactly, where the source skips the move between points that are approximately equal.
- Wrenches.Wrench.ChangePointAndFrame: compares points exactly, through the transport.
- Wrenches.Wrench.AddWrench: compares points exactly, through the transport.
- Wrenches.PlusAgreesWithAdd: the source also accepts operands at points that are approximately equal.
- StlIdentification.FileRoundTripIff: a written mesh that is taken for an ASCII file goes to the ASCII reader, which is not part of this model.
- ASCII STL files and hydrodynamic data bases: grammars over library parsers.
- BinaryStl.ReadBinaryStl: what the source returns when the stream ends early depends on uninitialised memory and on the stream library, and is not modelled beyond the result None.
- BinaryStl.WriteBinaryStl: the formula of the unit normal is a parameter; the reader ignores the normals.
- FanTriangulation.ReadMesh: a vertex number out of range gives None; the source looks up whatever is there.
- FanTriangulation.ConcatenateTriangles: polygons of fewer than two vertices are excluded, as from the other writer, because the unsigned size minus two wraps around and the loop exhausts memory.
