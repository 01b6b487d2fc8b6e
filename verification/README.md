# Phoebus kernels, verified

Phoebus evolves magnetised fluids and radiation on curved spacetimes. This project models the numerical
kernels at its heart and proves, over exact real numbers and for grids, runs and schedules of any size, what
they promise: that the recovery of primitive variables inverts the conversion it is meant to invert, that the
discrete field stays divergence free, that deposition and transport conserve, that parallel repair loops do not
depend on their schedule, that the solved lapse obeys a maximum principle.

Square roots are functions `sqrt` with `sqrt(x) >= 0` and `sqrt(x) * sqrt(x) == x`; pi is any real, and the SMALL of
robust.hpp any positive one; the equation of state, the floors and the metric at a point are parameters, with the
assumptions a contract needs written in its `requires`. A `par_for` is a loop over a sequence of cells in arbitrary
order, or a `forall` statement when its iterations write disjoint entries. Where a kernel updates arrays or fields in
place, so does its model; pure expressions are functions.

| file | what it holds |
|---|---|
| Reals.dfy, Vectors.dfy | the helpers of robust.hpp; three-vectors, metrics, Cauchy-Schwarz |
| RootFind.dfy | the Illinois and ITP root finders, for arbitrary functions |
| PrimToCon.dfy, SignalSpeeds.dfy, Clamp.dfy | primitive to conserved variables; magnetosonic speeds; velocity ceilings |
| ConToPrim.dfy, RootAlgebra.dfy, Recovery.dfy, RoundTrip.dfy | the recovery of primitive variables, for any equation of state |
| UniqueRoot.dfy, IdealGas.dfy | what the recovery does for an ideal gas, and two families of states it fails on |
| Newton.dfy | the iteration of the older recovery |
| Tridiagonal.dfy, Monopole.dfy, Deposition.dfy | the monopole spacetime solver |
| DivB.dfy, NetField.dfy | constrained transport and the injection of a vector potential |
| Repair.dfy | neighbour averaging of failed cells |
| Density.dfy | the density equation under the local Lax-Friedrichs flux and the time-step estimate |
| Reconstruction.dfy | piecewise linear, WENO5Z and MP5 face values |
| Bondi.dfy, Tetrads.dfy, History.dfy, GeometryCache.dfy | the smaller kernels |

## Where the code and its intent part

* **The recovery can stop on a valid state.** When r >= h0 the search for the root ends at a midpoint that ITP leaves
  within 1e-3 of the root of `aux_func`, and that midpoint may lie below the root of the residual. For an ideal gas the
  run is stopped exactly when it does (`UniqueRoot.ConvertAndRecover`). `IdealGas.StalledStopsTheRun` has a family: in
  every metric, without a field, every physical ideal-gas state with h0 = 1, h^2 <= 1.01 and r^2 = h^2 (W^2 - 1) between
  3.98 and 4.02. The bound falls short by more than 6e-4 there, so this does not hang on rounding. `IdealGas.WarmStalls`
  shows such states.
* **The guard on rho (1 + eps) moves the root.** With nonzero pressure, the true mu is a root of the residual exactly when
  rho (1 + eps) >= EPS (`RoundTrip.RecoveryInvertsP2C`); `IdealGas.TenuousGasMissesItsRoot` has the states that fail.
* **A capped velocity is not stored.** When the velocity cap acts, the stored velocity keeps the trial speed and its
  Lorentz factor exceeds the one the density and energy were computed with (`Recovery.StoredLorentz`;
  `IdealGas.CappedIsFaster` for r = 100 and a ceiling of 10).
* **A root at the left end is dropped.** Both the ITP finder (sign of a zero left value) and the Bondi bisection
  (strict product test) leave a root that sits exactly at their left end. `RootFind.LeftRootSurvives` and
  `Bondi.LowRootSurvives` say exactly when the search still ends with a sign change. `RootFind.IdentityRootLost` shows ITP
  end at 0.9 for the root 0 of f(x) = x. The Bondi generator meets the case at its sonic radius, where the guess is the
  root: for every sonic radius up to 1e14 it returns ten times the sonic temperature (`Bondi.BondiTemperature`; over exact
  reals, while in floating point the value at the guess may round to either side of zero).
* **The ceiling on the Lorentz factor is not met.** In the repairs and floors the square root covers only the
  numerator: the result is the ceiling exactly when W^2 == 2, and respects it exactly when W^2 >= 2
  (`Clamp.FixupClamp`; `Clamp.FixupExamples` for a cell slowed from 20 to 1.12 and one made faster). At the faces the
  limited velocity is divided by the unlimited W, so beyond the ceiling the face velocity falls again, and the second
  limiter never acts (`Clamp.FinalLorentz`, `Clamp.FaceExample`).
* **The EPS floor under the face radicand can push a wave out of the light cone**, exactly when it exceeds the squared
  gap to the cone (`SignalSpeeds.FloorCausal`). The clamps on the sound speed do not prevent it: see
  `SignalSpeeds.FloorEscapes`, a fluid at rest along an axis with inverse metric component 1e-16.
* **A radial cell that covers a 3D cell swallows it**: all masked overlaps are then zero. Volume is conserved exactly when
  that never happens and every cell lies on the grid (`Deposition.DepositionConserves`); the source excludes coarse
  radial grids only in debug builds.
* **`CalculateMdot` with `gain` is always zero**: the parameter that would switch the gain calculation on is read and
  discarded (`History.CalculateMdot`).

## Model

| member | source | states |
|---|---|---|
| RootFind.Refine | src/phoebus_utils/root_find.hpp:41-58 | trying the guess keeps a subinterval; the kept end values agree in sign exactly when both ends do and the guess, if inside, does too |
| RootFind.FalsePosition | src/phoebus_utils/root_find.hpp:130-140 | the trial point stays in the bracket and can meet an end only if that end is a root |
| RootFind.ChordZero | src/phoebus_utils/root_find.hpp:133-133 | the trial point is the zero of the chord through the stored end values |
| RootFind.FalsiStores | src/phoebus_utils/root_find.hpp:133-161 | what a pass stores: the trial point replaces the end of its sign; the other end keeps its value the first time it stays and half of it from the second time in a row on |
| RootFind.FalsiSearch | src/phoebus_utils/root_find.hpp:132-167 | the iteration ends with a sign change of the function itself, in a bracket no wider than twice the tolerance or after the last pass it may make; halving a stale end value costs nothing |
| RootFind.RootFinder.RegulaFalsi | src/phoebus_utils/root_find.hpp:109-167 | for every function: gives up exactly on equal signs, is undefined exactly when both ends are roots and a pass is due, otherwise returns the midpoint of the bracket that the iteration ends with, and counts its passes |
| RootFind.ItpTrial | src/phoebus_utils/root_find.hpp:193-200 | the trial point stays in the bracket and within the step's budget of its centre |
| RootFind.ChordRootZero | src/phoebus_utils/root_find.hpp:194-194 | the interpolated point is the zero of the chord through the end values |
| RootFind.ItpStores | src/phoebus_utils/root_find.hpp:201-211 | the trial point replaces the end of its sign with its value, and a root closes the bracket |
| RootFind.FlatTrial | src/phoebus_utils/root_find.hpp:193-200 | between equal end values the centre is tried when both are zero, otherwise the farthest point in reach |
| RootFind.ProjectedIs | src/phoebus_utils/root_find.hpp:193-200 | truncation moves the zero of the chord towards the centre by a tenth of the squared width, projection takes the nearest point within reach of the centre |
| RootFind.ItpStep | src/phoebus_utils/root_find.hpp:192-212 | each step brings the bracket into the budget of one step fewer, and stays inside it when the stored end values straddle zero |
| RootFind.ItpStepKeeps | src/phoebus_utils/root_find.hpp:201-211 | each step keeps the sign change and the orientation of the stored end values |
| RootFind.RootFinder.ItpLoop | src/phoebus_utils/root_find.hpp:192-214 | the loop ends in the bracket of the step-by-step specification within the steps of the budget |
| RootFind.RootFinder.Itp | src/phoebus_utils/root_find.hpp:169-221 | for every function: never more steps than bisection; exactly which bracket it ends with; the bracket holds a sign change unless the left end was a root with positive values to its right |
| RootFind.LeftStep | src/phoebus_utils/root_find.hpp:188-211 | in that case the first pass keeps the sign change exactly when the function is not positive at the first trial point; otherwise both ends are positive afterwards |
| RootFind.LeftRootSurvives | src/phoebus_utils/root_find.hpp:188-214 | over the whole run the sign change survives exactly when no pass is due or some trial point is not positive |
| RootFind.PositiveLosesRoot | src/phoebus_utils/root_find.hpp:188-214 | so a function that is positive beyond its root at the left end always loses it once a pass is due |
| RootFind.IdentityRootLost | src/phoebus_utils/root_find.hpp:188-221 | f(x) = x on [0, 1] at tolerance 0.1: 0.9 is returned for the root 0 |
| RootFind.ItpResultAbove | src/phoebus_utils/root_find.hpp:192-221 | without a guess inside the interval the result is never below it, even after the root was lost |
| RootFind.BisectionSteps | src/phoebus_utils/root_find.hpp:176-176 | the step bound is the least number of halvings that reaches the tolerance |
| PrimToCon.Momentum | src/fluid/prim2con.hpp:75-82 | the accumulated momentum is the covariant vector rho_rel v - b0 b, densitized |
| PrimToCon.LowerField | src/fluid/prim2con.hpp:67-71 | lowering the four-dimensional comoving field, shift included, gives B / W + W (B.v) v lowered with the spatial metric |
| PrimToCon.FieldProducts | src/fluid/prim2con.hpp:57-61 | the double loop gives v^2, B^2 and B.v |
| PrimToCon.FlowIs | src/fluid/prim2con.hpp:57-104 | the fluid handed to the signal speeds: enthalpy rho + u + p, velocity vp / W and its square, comoving field b^2 = (B^2 + (B.vp)^2) / W^2 |
| PrimToCon.P2C | src/fluid/prim2con.hpp:48-106 | the kernel, written with comoving fields and four-metric, computes the textbook Valencia variables, which mention neither lapse nor shift, the conserved electron fraction, and the signal speeds of the same fluid |
| ConToPrim.RbarBounds | src/fluid/con2prim_robust.hpp:69-74 | 0 <= rbar^2(mu) <= r^2 for every mu >= 0 |
| ConToPrim.VelocitySane | src/fluid/con2prim_robust.hpp:80-92 | at every mu the trial speed is below one and the Lorentz factor finite and consistent with it |
| ConToPrim.StateEnthalpy | src/fluid/con2prim_robust.hpp:93-143 | the floored state at any mu has specific enthalpy at least h0 |
| ConToPrim.StateFlags | src/fluid/con2prim_robust.hpp:80-128 | what each flag means: the speed, density or energy it names sits at its cap, floor or ceiling |
| ConToPrim.LimitsHonoured | src/fluid/con2prim_robust.hpp:80-128 | the state at any mu against what GetFloors, GetCeilings and the equation of state return: density at least its floor, energy at least both the energy floor and the energy of the temperature floor unless it is at the ceiling, otherwise D / W and the trial energy; each flag exactly when |
| ConToPrim.CapIsLesser | src/fluid/con2prim_robust.hpp:63-64 | the cap on v^2 is the lesser of r^2 / (h0^2 + r^2) and 1 - 1 / gammaMax^2 |
| ConToPrim.UnflooredConserves | src/fluid/con2prim_robust.hpp:80-128 | a state without flags conserves: rho W = D and (1 + eps) / W = 1 + qbar - mu rbar^2, so the energy formula undoes the energy balance at every mu |
| ConToPrim.DenominatorPositive | src/fluid/con2prim_robust.hpp:145-149 | the denominator of muhat is positive and at least h0 / W + mu rbar^2, so the residual is defined for every mu >= 0 |
| ConToPrim.NegativeAtZero | src/fluid/con2prim_robust.hpp:130-151 | the residual is negative at mu = 0 |
| ConToPrim.NonnegativeBeyondAux | src/fluid/con2prim_robust.hpp:130-151 | the residual is nonnegative at every mu where aux_func is |
| ConToPrim.AuxSquared | src/fluid/con2prim_robust.hpp:189-194 | the sign of aux_func decides, both ways, whether (mu h0)^2 + mu^2 rbar^2 reaches one |
| ConToPrim.InverseEnthalpyBound | src/fluid/con2prim_robust.hpp:398-403 | mu = 1 / h0 is such a point, so it bounds the root whatever the momentum and the field |
| ConToPrim.KinematicCapInactive | src/fluid/con2prim_robust.hpp:63-90 | below the root of aux_func the part of the velocity cap that comes from r and h0 never acts; only the Lorentz ceiling can |
| RootAlgebra.RbarAtRoot | src/fluid/con2prim_robust.hpp:71-74 | at mu = 1 / (h W), rbar^2 is the squared momentum of the matter alone |
| RootAlgebra.QbarAtRoot | src/fluid/con2prim_robust.hpp:75-79 | at that mu, qbar is the energy of the matter alone |
| RootAlgebra.EnergyTrial | src/fluid/con2prim_robust.hpp:115-116 | the energy formula returns the specific energy |
| RootAlgebra.MasterAtRoot | src/fluid/con2prim_robust.hpp:142-150 | the residual vanishes there exactly when the guarded pressure ratio is the true one |
| RootAlgebra.VelocityAtRoot | src/fluid/con2prim_robust.hpp:430-433 | the unwrapped component W mu x (r + mu (b.r) b) is the primitive velocity component |
| Recovery.Residual.Call | src/fluid/con2prim_robust.hpp:130-151 | the stateful call returns the value of the master function and leaves the flags of the state at mu |
| Recovery.SetupAdmissible | src/fluid/con2prim_robust.hpp:343-393 | whatever the conserved variables, the problem searched has r^2 >= 0 and (b.r)^2 <= b^2 r^2, by Cauchy-Schwarz in the cell's metric |
| Recovery.FieldScaleFloored | src/fluid/con2prim_robust.hpp:362-393 | the field is divided by the root of D, or of the density floor where D is below it |
| Recovery.Prepare | src/fluid/con2prim_robust.hpp:343-393 | the loops build that problem |
| Recovery.BoundRange | src/fluid/con2prim_robust.hpp:153-158 | the bound of the search is a positive mu, and is missing exactly when r >= h0 and aux_func is positive at 1e-16 already and at 1 / h0 |
| Recovery.UpperBound | src/fluid/con2prim_robust.hpp:395-402 | the bound is 1 / h0 or the ITP midpoint on aux_func, inside a bracket of its root no wider than 2e-3 |
| Recovery.FindMu | src/fluid/con2prim_robust.hpp:395-406 | exactly one of three things happens: the search is given up (residual negative at the bound and at the guess), it is undefined (guess and bound both roots), or mu is the midpoint of the bracket the iteration ends with, no wider than twice the tolerance unless the passes ran out |
| Recovery.AlwaysBracketed | src/fluid/con2prim_robust.hpp:398-403 | below r = h0 it is never given up, for every state and guess |
| Recovery.Evaluate | src/fluid/con2prim_robust.hpp:414-425 | the calls after the search reproduce the state at mu |
| Recovery.StoredSpeed | src/fluid/con2prim_robust.hpp:412-433 | whatever mu is, the stored velocity has norm W mu rbar in the cell's metric, field included |
| Recovery.StoredLorentz | src/fluid/con2prim_robust.hpp:80-92 | its Lorentz factor is that of the state exactly when the velocity was not capped; otherwise it is larger |
| Recovery.StoreUnwrapped | src/fluid/con2prim_robust.hpp:412-469 | the stored primitives are those of mu; the conserved variables are overwritten exactly when a floor, ceiling or cap was used, by the Valencia variables of the stored primitives; the signal speeds belong to the stored primitives in both branches |
| Recovery.Solve | src/fluid/con2prim_robust.hpp:327-483 | the whole recovery: when it stops the run, when its search is undefined, which mu it found and how accurately, that density and energy keep both floors and the ceilings, that primitives, conserved variables, electron fraction and signal speeds agree with it, which status it returns; everything else unchanged |
| RoundTrip.SetupMade | src/fluid/con2prim_robust.hpp:343-393 | from the conserved variables that p2c makes, the search problem has the q, r^2, b^2 and (b.r)^2 of the primitive state |
| RoundTrip.StateAtRoot | src/fluid/con2prim_robust.hpp:413-425 | at mu = 1 / (h W) the state is the primitive state: same W, density and energy, no flag |
| RoundTrip.ValueAtRoot | src/fluid/con2prim_robust.hpp:130-151 | the residual vanishes there exactly when rho (1 + eps) >= EPS or the pressure is zero |
| RoundTrip.RecoveryInvertsP2C | src/fluid/con2prim_robust.hpp:327-463 | for every metric, field and physical state: p2c then the recovery at mu = 1 / (h W) returns density, velocity, energy and pressure; the mu lies in the search interval, no floor, ceiling or cap acts, and it is a root exactly when rho (1 + eps) >= EPS or the pressure is zero |
| UniqueRoot.ExcessGrows | src/fluid/con2prim_robust.hpp:69-79 | below light speed (1 + g) N - g k + mu rbar^2 - 1 / mu grows with mu, for every field, every g in [0, 1] and every k that falls: the monotone quantity behind the master function |
| UniqueRoot.NuCases | src/fluid/con2prim_robust.hpp:116-149 | whatever floor or ceiling binds, nu is the larger of its floored value and the smaller of its free and capped values |
| UniqueRoot.ChangesSignOnce | src/fluid/con2prim_robust.hpp:130-151 | for an ideal gas with adiabatic index up to two, any field, floors and ceilings: where the residual has reached zero it is positive at every larger mu |
| UniqueRoot.TwoRootsTakeMomentum | src/fluid/con2prim_robust.hpp:395-406 | for every equation of state, guess and bound can both be roots only when r >= h0 |
| UniqueRoot.NeverUndefined | src/fluid/con2prim_robust.hpp:395-406 | for the ideal gas they never are, so the first interpolation is never 0/0 |
| UniqueRoot.GivenUpShort | src/fluid/con2prim_robust.hpp:395-408 | for the ideal gas the search is given up exactly when its bound lies below the root |
| UniqueRoot.FoundNearRoot | src/fluid/con2prim_robust.hpp:395-412 | otherwise the root is inside the final bracket, within the tolerance of the mu returned unless the passes ran out |
| UniqueRoot.TrueRoot | src/fluid/con2prim_robust.hpp:327-406 | from the conserved variables of a physical ideal gas, mu = 1 / (h W) is that root |
| UniqueRoot.ConvertAndRecover | src/fluid/con2prim_robust.hpp:327-483 | p2c and then solve, for every metric, field and physical ideal-gas state: never undefined, stopped exactly when the bound is below 1 / (h W), otherwise within the tolerance of it |
| IdealGas.BoundShort | src/fluid/con2prim_robust.hpp:153-158 | without a field, for h0 = 1 and r^2 about four, seven ITP steps end more than 6e-4 below the root of aux_func |
| IdealGas.StalledBeforeRoot | src/fluid/con2prim_robust.hpp:395-408 | and so below the true mu, for every ideal gas of enthalpy up to 1.004 in every metric |
| IdealGas.StalledStopsTheRun | src/fluid/con2prim_robust.hpp:395-408 | p2c and then solve on those states: the run is stopped for every guess, tolerance and iteration limit |
| IdealGas.WarmStalls | src/fluid/con2prim_robust.hpp:343-393 | such states exist: gas with adiabatic index 4/3 in flat space, no floor or ceiling binding |
| IdealGas.CappedIsFaster | src/fluid/con2prim_robust.hpp:80-92 | r = 100, mu = 0.00999, ceiling 10: inside the search interval the cap acts and the stored Lorentz factor exceeds that of the state |
| IdealGas.TenuousGasMissesItsRoot | src/fluid/con2prim_robust.hpp:142-150 | every ideal gas at rest with rho (1 + eps) < EPS is physical, and its true mu is not a root of the residual |
| IdealGas.TenuousGasExists | src/fluid/con2prim_robust.hpp:142-150 | such gas exists |
| Newton.NormIs | src/fluid/con2prim.hpp:343-353 | what the damping compares is the sum of the squared residuals, zero only at a solution |
| Newton.Backtrack | src/fluid/con2prim.hpp:343-353 | the largest of the six parts of the step that decreases the residual is taken, or the smallest one |
| Newton.Jacobian | src/fluid/con2prim.hpp:298-313 | one-sided difference quotients over increments that are never zero |
| Newton.IncrementIs | src/fluid/con2prim.hpp:296-308 | the step of a quotient is the relative step times the guess, or the least step in its direction where that is shorter |
| Newton.SettledIs | src/fluid/con2prim.hpp:322-326 | at a positive guess an increment counts as converged exactly when it is below the tolerance times the guess |
| Newton.SlopesExact | src/fluid/con2prim.hpp:296-313 | on an affine residual the quotients are its coefficients, whatever the increments |
| Newton.FullStep | src/fluid/con2prim.hpp:333-341 | a step that stays in range is left alone; otherwise density falls to nine tenths or rises to D, temperature falls to nine tenths |
| Newton.Cramer | src/fluid/con2prim.hpp:314-322 | the increment solves the linearised equations |
| Newton.Solve | src/fluid/con2prim.hpp:264-375 | for every residual: within the iteration budget, 0 <= rho <= D and T >= 0 throughout, every pass a limited and damped Newton step (or none, with a larger increment next), a solution never left, success exactly when the Newton increment of the last pass was below tolerance |
| SignalSpeeds.RadicandNonneg | src/fluid/prim2con.hpp:40-42 | the radicand is nonnegative for subluminal fluids and causal sound speeds |
| SignalSpeeds.SpeedsCausal | src/fluid/prim2con.hpp:38-44 | slow wave, fluid, fast wave in this order, inside the light cone |
| SignalSpeeds.SpeedsSolveDispersion | src/fluid/prim2con.hpp:38-44 | the two speeds are the roots of the dispersion relation of waves that travel at c in the fluid's rest frame |
| SignalSpeeds.MagnetosonicBounds | src/fluid/prim2con.hpp:30-37 | the combined speed lies between each of its parts and one |
| SignalSpeeds.FastComplement | src/fluid/prim2con.hpp:28-36 | one minus the combined squared speed is (1 - gamma1 p / (rho h)) (1 - b^2 / (rho h + b^2)) |
| SignalSpeeds.ComponentBound | src/fluid/prim2con.hpp:39-42 | (v^m)^2 <= g^mm v^2 in every metric, which is what the formula needs |
| SignalSpeeds.SignalSpeeds | src/fluid/prim2con.hpp:24-46 | the loop computes the larger absolute wave speed along every axis |
| SignalSpeeds.SignalsCausal | src/fluid/prim2con.hpp:24-46 | for a causal equation of state no division is by zero, and along every axis the reported speed is at least that of the fluid and at most that of light |
| SignalSpeeds.SignalsAreWaves | src/fluid/prim2con.hpp:24-46 | each reported speed is the larger absolute coordinate speed among all solutions of the dispersion relation at that combined speed |
| SignalSpeeds.FloorCausal | src/fluid/riemann.hpp:197-208 | with the radicand held above EPS, each wave is inside the light cone exactly when the floored radicand is at most the squared gap |
| SignalSpeeds.FaceFastRange | src/fluid/riemann.hpp:197-201 | the clamps keep the squared sound speed at a face between EPS and 1 - EPS |
| SignalSpeeds.FaceFastComplement | src/fluid/riemann.hpp:197-201 | where no guard or clamp acts the face uses the same combined speed |
| SignalSpeeds.FloorEscapes | src/fluid/riemann.hpp:197-208 | within those clamps, a fluid at rest along an axis with g^mm = 1e-16 sends both waves out of the light cone |
| Clamp.ClampFixup | src/fixup/fixup_c2p.cpp:265-274 | the reported Lorentz factor is within the ceiling and is that of the stored velocity exactly when nothing was clamped, or W^2 == 2, or the ceiling is 1 |
| Clamp.FixupClamp | src/fixup/fixup_src.cpp:251-258 | the Lorentz factor the rescaled velocity really has, when it equals the ceiling and when it respects it |
| Clamp.FixupExamples | src/fixup/fixup_c2p.cpp:265-274 | with a ceiling of 10 a cell at Lorentz factor 20 is slowed below 1.12; with a ceiling of 1.1 one at 1.2 is made faster |
| Clamp.FaceSpeed | src/fluid/riemann.hpp:96-127 | v^2 W0^2 = min(W0, ceiling)^2 - 1 after the first limiter, below the second limit |
| Clamp.FinalLorentz | src/fluid/riemann.hpp:127-136 | the final Lorentz factor: exact below the ceiling, falling again beyond it |
| Clamp.FaceExample | src/fluid/riemann.hpp:127-136 | with a ceiling of 10 a face state at Lorentz factor 20 leaves with less than 1.16 |
| Clamp.SecondLimitCaps | src/fluid/riemann.hpp:127-134 | where the second limiter acts it keeps the direction and brings the reported and the real squared speed to 1 - 1 / gam_max^2 |
| Clamp.FaceVelocity | src/fluid/riemann.hpp:96-136 | the face velocity is subluminal, its Lorentz factor consistent and within the ceiling, and unchanged for admissible input |
| Tridiagonal.ForwardEquivalence | src/monopole_gr/monopole_gr.cpp:466-471 | forward substitution keeps the set of solutions, row by row |
| Tridiagonal.Unique | src/monopole_gr/monopole_gr.cpp:473-477 | with nonzero pivots there is at most one solution |
| Tridiagonal.Solve | src/monopole_gr/monopole_gr.cpp:466-477 | the two in-place sweeps leave the one solution of the system stored on entry, for every size |
| Monopole.IntegrateHypersurface | src/monopole_gr/monopole_gr.cpp:310-336 | the loop fills the arrays with the iterates of the midpoint step |
| Monopole.MomentumConstraint | src/monopole_gr/monopole_gr_utils.hpp:39-43 | the slope of K solves r K' + 3 K = 8 pi a^2 j r, and is zero at the centre |
| Monopole.HamiltonianConstraint | src/monopole_gr/monopole_gr_utils.hpp:31-37 | the slope of a solves 8 r a' = 4 (a - a^3) + a^3 r^2 (3 K^2 + 32 pi rho), and is zero at the centre |
| Monopole.MidpointStep | src/monopole_gr/monopole_gr.cpp:312-342 | one step is a midpoint step of those two equations, with the mean of the matter at both points and the radius of the first |
| Monopole.CentralStep | src/monopole_gr/monopole_gr.cpp:312-342 | the first step leaves the slice as it is |
| Monopole.FlatStep | src/monopole_gr/monopole_gr.cpp:312-342 | from flat space with a momentum density, the curvature after one step in closed form |
| Monopole.NoMomentumNoCurvature | src/monopole_gr/monopole_gr.cpp:310-336 | without momentum the extrinsic curvature stays zero for every density |
| Monopole.VacuumIsFlat | src/monopole_gr/monopole_gr.cpp:310-336 | in vacuum the slice is flat at every point |
| Monopole.OuterMatch | src/monopole_gr/monopole_gr_utils.hpp:56-65 | the outer residual vanishes exactly when no curvature and no matter reach the last point |
| Monopole.SlopeClosedForm | src/monopole_gr/monopole_gr_utils.hpp:31-37 | the first-derivative coefficient of the lapse equation in terms of the slice |
| Monopole.InteriorRow | src/monopole_gr/monopole_gr.cpp:444-451 | an interior row sums to minus i/2 times the source term |
| Monopole.RowSum | src/monopole_gr/monopole_gr.cpp:444-451 | an interior row sums to -i (a dr)^2 (3 K^2 + 8 pi (tr S + rho)) / 2: nothing else pulls the lapse down |
| Monopole.PivotsNegative | src/monopole_gr/monopole_gr.cpp:466-471 | every pivot is negative, bounded by the entry above the diagonal |
| Monopole.LapseMonotone | src/monopole_gr/monopole_gr.cpp:442-477 | discrete maximum principle: 0 < alpha(0) = alpha(1) <= ... <= alpha(n-1) <= 1 |
| Monopole.UnitLapse | src/monopole_gr/monopole_gr.cpp:442-477 | the lapse is one everywhere exactly when no interior point carries curvature or matter |
| Monopole.FillRows | src/monopole_gr/monopole_gr.cpp:442-464 | the loops write these rows |
| Monopole.DominantRegular | src/monopole_gr/monopole_gr.cpp:442-471 | rows with the signs of the maximum principle have nonzero pivots |
| Monopole.LinearSolveForAlpha | src/monopole_gr/monopole_gr.cpp:400-480 | whenever no pivot is zero, filling and eliminating in place leaves the one solution of the rows; when the rows have those signs it obeys the maximum principle |
| Monopole.VacuumLapse | src/monopole_gr/monopole_gr.cpp:310-477 | in vacuum the slice that the shooting loop returns is admissible for the lapse solve and the lapse is exactly one |
| Deposition.GetVolIntersect | src/monopole_gr/monopole_gr_utils.hpp:77-97 | the masked sum is the overlap fraction, coincident edges included, except when the small cell covers the big one |
| Deposition.MaskedExact | src/monopole_gr/monopole_gr_utils.hpp:80-83 | in that case, impossible when it is no wider, the whole cell is lost |
| Deposition.WeightsSum | src/monopole_gr/interp_3d_to_1d.hpp:146-158 | the overlaps of a cell sum to the fraction of it that lies on the grid, over its index range and over every wider one |
| Deposition.RangeIs | src/monopole_gr/interp_3d_to_1d.hpp:150-151 | the radial cells visited: from one below the point under r - dr to one above the point under r + dr, kept on the grid |
| Deposition.IndexIs | src/monopole_gr/interp_3d_to_1d.hpp:150-151 | the index of a position on the grid is that of the last point at or below it; positions beyond either end get the end cells |
| Deposition.FractionRange | src/monopole_gr/interp_3d_to_1d.hpp:146-158 | which is one exactly for cells inside the grid |
| Deposition.MaskedTotal | src/monopole_gr/interp_3d_to_1d.hpp:150-160 | the weights the kernel really uses sum to that fraction, or to nothing when a radial cell covers the cell |
| Deposition.FineGridUncovered | src/monopole_gr/monopole_gr_utils.hpp:79-82 | a radial grid no coarser than the 3D one covers nothing |
| Deposition.TallyAnyOrder | src/monopole_gr/interp_3d_to_1d.hpp:159-163 | the atomic adds give the same bins in any order |
| Deposition.BinsHoldDeposited | src/monopole_gr/interp_3d_to_1d.hpp:125-165 | for every grid and all cells, under every schedule of the atomic adds, exactly what the radial bins hold |
| Deposition.DepositionConserves | src/monopole_gr/interp_3d_to_1d.hpp:125-165 | volume is conserved exactly when every cell lies on the grid and none is covered, and then every matter variable is too; otherwise volume is lost |
| Deposition.CoarseGridLosesCell | src/monopole_gr/monopole_gr_utils.hpp:77-97 | a cell of width 1/2 on a radial grid of spacing 1 is lost altogether |
| Deposition.CellAdds | src/monopole_gr/interp_3d_to_1d.hpp:150-164 | the inner loop issues exactly the adds of the specification, for cells of any width and position |
| Deposition.ApplyAdds | src/monopole_gr/interp_3d_to_1d.hpp:85-93 | zeroed arrays plus the adds in any order: every bin holds the volume that arrived and, in rows 0 to 3, the weighted rho, J_R, tr S and S_RR that arrived |
| Deposition.CellInBin | src/monopole_gr/interp_3d_to_1d.hpp:125-165 | one cell puts each of its four variables times the overlapping volume into every bin of its range, and nothing elsewhere |
| Deposition.EachConserved | src/monopole_gr/interp_3d_to_1d.hpp:125-165 | each of the four variables summed over the bins equals its volume-weighted sum over whole cells |
| Deposition.DivideVols | src/monopole_gr/monopole_gr.cpp:620-651 | new contents of both matter arrays, the order of clearing the innermost radial entries included |
| Deposition.BinIsMean | src/monopole_gr/monopole_gr.cpp:632-637 | a divided bin lies within the range of the 3D cells under every schedule; an empty bin reads zero |
| Deposition.RowsAreMeans | src/monopole_gr/monopole_gr.cpp:632-637 | so each of the four variables of a bin lies within its own range over the cells |
| DivB.UniformFieldKept | src/fluid/fluid.cpp:796-839 | from the fluxes of a uniform electric field the corner average recovers it with its sign and the fluxes are unchanged |
| DivB.EmfAffine | src/fluid/fluid.cpp:796-831 | on the fluxes of an affine electric field, taken at face centres, the emf is the field at the edge |
| DivB.EmfFaces | src/fluid/fluid.cpp:796-831 | each of the four faces around an edge counts a quarter with its sign, and no other face counts, for all three components |
| DivB.RateOfSlopes | src/phoebus_driver.cpp:556-576 | the update of a cell is minus the slopes of the fluxes through its pairs of faces |
| DivB.DivergenceOfLinear | src/fluid/fluid.cpp:858-896 | on linear fields the node formula is the divergence |
| DivB.CurlFree | src/fluid/fluid.cpp:826-896 | the curl of any corner potential has zero node divergence in 3D |
| DivB.CurlFree2 | src/fluid/fluid.cpp:804-872 | and in 2D |
| DivB.RateIsCurlFree | src/fluid/fluid.cpp:796-896 | whatever fluxes come in, the field update made from the replaced ones has zero node divergence |
| DivB.StageIs | src/phoebus_driver.cpp:556-576 | a stage leaves in every component the weighted average of field and base plus beta dt times minus the divergence of the replaced fluxes |
| DivB.StageKeepsDivB | src/phoebus_driver.cpp:556-576 | a Runge-Kutta stage averages the divergences of its two inputs |
| DivB.RunKeepsDivB | src/phoebus_driver.cpp:556-576 | over any number of steps and stages, with any weights, fluxes and ghost contents, the divergence at every interior node never changes |
| DivB.FluxCT3D | src/fluid/fluid.cpp:812-839 | the two passes give every face of every interior cell its constrained flux, although the second pass also reads corners the first never wrote |
| DivB.FluxCT2D | src/fluid/fluid.cpp:796-811 | the same in 2D, the third component left alone |
| DivB.CalculateDivB | src/fluid/fluid.cpp:844-898 | the diagnostic array holds the node divergence of every interior low corner |
| NetField.BumpIsCurl | src/fixup/fixup_netfield.cpp:229-248 | in conserved form the added field is the curl of the potential, in 2D and 3D |
| NetField.BumpOfLinear | src/fixup/fixup_netfield.cpp:236-244 | a potential with slopes p and q adds p / (dx2 sqrt gamma) to the first component and takes q / (dx1 sqrt gamma) from the second |
| NetField.InjectionKeepsDivB | src/fixup/fixup_netfield.cpp:205-248 | for every potential, amplitude and metric determinant the conserved field keeps its divergence |
| NetField.ModifyNetField | src/fixup/fixup_netfield.cpp:155-253 | which cells change under which switches, and to what |
| NetField.ProbeNetField | src/phoebus_driver.cpp:435-453 | injecting with +1 and then -1 restores the primitive field exactly, with conserved = primitive times determinant |
| Repair.MaskedAverageIsMean | src/fixup/fixup_c2p.cpp:202-226 | the masked average is the mean of the good neighbours, and the test against one half asks whether there is one |
| Repair.FaceNeighbours | src/fixup/fixup_c2p.cpp:202-221 | the neighbours are the cells that share a face in a dimension of the problem, each once |
| Repair.Fallbacks | src/fixup/fixup_c2p.cpp:240-255 | without a good neighbour, or with floors as strategy, each variable gets the fallback of its kernel |
| Repair.RepairDependsOnGood | src/fixup/fixup_c2p.cpp:195-240 | a repaired value depends only on flags and good cells, which no thread writes |
| Repair.AnyOrder | src/fixup/fixup_c2p.cpp:170-256 | visiting in place in any order, with repetitions, equals repairing the original grid at once |
| Repair.ScheduleIndependent | src/fixup/fixup_radc2p.cpp:125-186 | two schedules over the same cells leave the same grid |
| Repair.AverageInRange | src/fixup/fixup_radc2p.cpp:163-181 | repaired values lie between the least and greatest good neighbour |
| Repair.PositiveAfterRepair | src/fixup/fixup_c2p.cpp:226-256 | a variable positive in the good cells and with a positive fallback is positive everywhere afterwards |
| Repair.FluidPositive | src/fixup/fixup_c2p.cpp:226-256 | density and energy of a repaired cell are at least 100 SMALL whatever its neighbours hold |
| Repair.RadiationPositive | src/fixup/fixup_radc2p.cpp:163-181 | J stays positive after the radiation repair |
| Repair.SourcePositive | src/fixup/fixup_src.cpp:169-226 | density, energy and J stay positive after the source repair, which puts no floor under its averages |
| Repair.GhostsIgnored | src/fixup/fixup_src.cpp:135-146 | after ghost marking no ghost value or flag reaches an interior cell |
| Repair.MarkedIs | src/fixup/fixup_src.cpp:135-146 | interior cells, bounds included, keep their flag, all others count as failed, and no value changes |
| Repair.RepairCell | src/fixup/fixup_c2p.cpp:217-256 | one iteration turns the grid into the grid with that cell repaired |
| Repair.RepairAll | src/fixup/fixup_src.cpp:148-239 | the whole loop under any schedule gives the reference grid; good and unscheduled cells are untouched |
| Repair.MarkGhosts | src/fixup/fixup_src.cpp:135-146 | exactly the cells outside the interior are flagged |
| Density.Llf | src/fluid/riemann.hpp:257-276 | flux and speed of the kernel; the speed bounds the fluid on both sides |
| Density.LlfSides | src/fluid/riemann.hpp:269-274 | for unequal states the left one contributes D (lambda + c) / 2 and the right one -D (c - lambda) / 2 |
| Density.LlfConsistent | src/fluid/riemann.hpp:271-274 | equal states give the physical flux, and a speed equal to the fluid's takes it from upstream |
| Density.AdvancedNonneg | src/fluid/riemann.hpp:269-274 | under the CFL condition one update keeps densities nonnegative |
| Density.AdvancedConserves | src/fluid/riemann.hpp:269-274 | and the periodic total |
| Density.StageIs | src/phoebus_driver.cpp:569-575 | a stage leaves the average of density and base less beta dt / dx times the difference of the two face fluxes, each taken from the cells it separates, periodically |
| Density.StepAppends | src/phoebus_driver.cpp:556-576 | a step applies its stages in order, each averaged against the density the step began with |
| Density.RunAppends | src/phoebus_driver.cpp:556-576 | a run applies its steps in order, each to what the one before it left |
| Density.RunKeeps | src/phoebus_driver.cpp:556-576 | any number of Runge-Kutta steps under the CFL condition keeps both |
| Density.EstimateTimestep | src/fluid/fluid.cpp:900-945 | the step is within the CFL bound of every cell and attains it in one, unless nothing limits it |
| Density.CrossingRates | src/fluid/fluid.cpp:900-945 | the rate a cell allows, in one, two and three dimensions |
| Density.EstimateGivesCfl | src/fluid/fluid.cpp:914-944 | a step within that bound, taken over all directions of the block, satisfies the CFL condition of the update along every line with the same face speeds |
| Density.EstimatedRunKeeps | src/fluid/fluid.cpp:914-944 | so whole runs whose steps stay within the estimate keep every density nonnegative and the total unchanged |
| Reconstruction.McBounds | src/reconstruction.hpp:102-107 | the limited slope has the sign of both differences and at most alpha times the smaller |
| Reconstruction.McSymmetric | src/reconstruction.hpp:102-107 | symmetric in its differences and odd |
| Reconstruction.PiecewiseLinearProperties | src/reconstruction.hpp:116-123 | face values lie between the cell and the neighbour across the face; mirror symmetry; exact on linear data |
| Reconstruction.PiecewiseLinearSlope | src/reconstruction.hpp:116-123 | the slope is the mean difference or 3/2 of the smaller one, and zero at an extremum |
| Reconstruction.Weno5ZMirror | src/reconstruction.hpp:125-182 | reversing the stencil swaps the two faces |
| Reconstruction.Weno5ZLinear | src/reconstruction.hpp:125-182 | linear data are reproduced whatever the nonlinear weights and the small number in them |
| Reconstruction.WeightedEqual | src/reconstruction.hpp:128-160 | with equal smoothness the weights 1/10, 6/10, 3/10 combine the stencils to the fifth-order value, up to the small number |
| Reconstruction.WeightedQuadratic | src/reconstruction.hpp:128-160 | each stencil has the face value of cell means of a quadratic exactly, so any weights do |
| Reconstruction.SmoothQuadratic | src/reconstruction.hpp:135-143 | all three smoothness measures of a quadratic are four times the integral of its squared derivatives |
| Reconstruction.TrustIs | src/reconstruction.hpp:150-176 | the trust in the weights in terms of actual and linear weights |
| Reconstruction.HarmonicMean | src/reconstruction.hpp:178-182 | the two trusts enter by their harmonic mean |
| Reconstruction.Weno5ZQuadratic | src/reconstruction.hpp:125-182 | on quadratic data the faces are the exact values blended with the limited linear ones |
| Reconstruction.WENO5Z | src/reconstruction.hpp:125-182 | the kernel with its reused locals computes the symmetric form |
| Reconstruction.MedianClamps | src/reconstruction.hpp:185-188 | between ordered bounds the median is the clamp |
| Reconstruction.Mp5Clamps | src/reconstruction.hpp:203-234 | when the limiter fires the result is clamped to an interval that contains the cell value |
| Reconstruction.UnlimitedQuartic | src/reconstruction.hpp:198-199 | the unlimited value is exact for cell means of polynomials of degree four |
| Reconstruction.FaceMPIs | src/reconstruction.hpp:201-201 | the monotonicity-preserving value on monotone data and at extrema |
| Reconstruction.FaceCurvatureIs | src/reconstruction.hpp:205-214 | the curvature bound: the smallest of both second differences and their extrapolations when all agree in sign, zero otherwise |
| Reconstruction.QuadraticBounds | src/reconstruction.hpp:205-219 | the three bounds on data of constant second difference |
| Reconstruction.BoundsMean | src/reconstruction.hpp:221-229 | which values lie above the lower and below the upper bound |
| Reconstruction.AcceptedIs | src/reconstruction.hpp:198-203 | when the limiter leaves the value alone |
| Reconstruction.Mp5Negate | src/reconstruction.hpp:190-235 | MP5 commutes with negation |
| Reconstruction.Mp5Move | src/reconstruction.hpp:190-235 | and with adding a constant |
| Reconstruction.Mp5Linear | src/reconstruction.hpp:190-203 | and is exact on linear data |
| Reconstruction.Mp5Subcalc | src/reconstruction.hpp:190-235 | the kernel with its reused locals computes that value |
| Reconstruction.Mp5FacesProperties | src/reconstruction.hpp:238-244 | both faces: reversing the stencil swaps them, adding a constant or negating the data does the same to them, linear data are reproduced |
| Bondi.BracketStep | src/pgen/bondi.cpp:54-65 | each pass halves the bracket and keeps its sign change; fewer passes have been made than fit |
| Bondi.GetTemperature | src/pgen/bondi.cpp:24-68 | for every function: fails exactly on equal signs, otherwise terminates within the halvings that fit, at the midpoint of the interval the passes lead to, where the function is within FTOL or the interval within RTOL; a root at the low end is kept exactly under a condition known before the call |
| Bondi.LowRootSurvives | src/pgen/bondi.cpp:53-65 | when the function is zero at the low end, the bracket ends with a sign change exactly when no pass is due or the search, walking up, is not stopped before a trial temperature with the other sign |
| Bondi.RootAtLowEndLost | src/pgen/bondi.cpp:53-65 | so a function above FTOL from the first trial temperature on loses its root, and the search ends within RTOL of the high end |
| Bondi.AboveSonic | src/pgen/bondi.cpp:37-41 | at the sonic radius the temperature function is above FTOL from 11/2 of the sonic temperature on, for every sonic radius between 2.75 and 1e14 |
| Bondi.SolutionIs | src/pgen/bondi.cpp:126-133 | the constants of the solution, 7 Tc (4 rs - 11) = 10 and C1^2 = rs^3 Tc^5 / 2, and the temperature function in terms of them |
| Bondi.BondiTemperature | src/pgen/bondi.cpp:24-68 | the search from the power-law guess; at the sonic radius the guess is the root and the temperature returned is ten times too high |
| Tetrads.GramSchmidtOrthonormal | src/geometry/tetrads.hpp:112-122 | the frame is orthonormal with signature (-1, 1, 1, 1) |
| Tetrads.AcrossTime | src/geometry/tetrads.hpp:112-122 | in a 3+1 metric what is orthogonal to a timelike vector is spacelike, which gives every residual norm its sign |
| Tetrads.SeedsRegular | src/geometry/tetrads.hpp:91-122 | for a timelike four-velocity the seeds can be orthonormalized exactly when the four-velocity and the trial vector are independent in the time component and the one it replaces |
| Tetrads.DefaultSeeds | src/geometry/tetrads.hpp:73-108 | without a trial vector the choice of the closest direction, by Cauchy-Schwarz, leaves the coordinate seeds as they are |
| Tetrads.ClosestIs | src/geometry/tetrads.hpp:73-108 | a trial vector replaces the direction it has the largest normalized component along |
| Tetrads.DefaultRegular | src/geometry/tetrads.hpp:30-34 | so without a trial vector the construction works for every timelike four-velocity in every 3+1 metric |
| Tetrads.Tetrads.Default | src/geometry/tetrads.hpp:30-66 | and the object it makes has orthonormal rows and four mutually inverse conversions |
| Tetrads.FrameComplete | src/geometry/tetrads.hpp:84-122 | the frame resolves every vector: the seeds are independent because their residual norms are not zero |
| Tetrads.Tetrads.Construct | src/geometry/tetrads.hpp:70-127 | the in-place construction, trial vector and all, gives that frame and its lowered rows |
| Tetrads.RoundTrips | src/geometry/tetrads.hpp:37-66 | both pairs of conversions are mutually inverse, in both directions, on every vector |
| History.Gauss | src/analysis/history.hpp:140-157 | over any finite set of cells the pillbox divergences sum to the net outflow through the separating faces, in 1, 2 and 3 dimensions |
| History.BoundaryFaces | src/analysis/history.hpp:140-157 | which faces those are |
| History.ComputeDivInPillbox | src/analysis/history.hpp:140-157 | the accumulated sum is the divergence over the used dimensions |
| History.CalculateMdot | src/analysis/history.cpp:287-361 | minus the net outflow from the cells inside the radius, in any order of the reduction; zero with gain |
| GeometryCache.Flatten2Packs | src/geometry/geometry_utils.hpp:188-198 | the table is a packing: symmetric, otherwise injective, onto SymSize slots, also for the spatial block |
| GeometryCache.DgSlotInjective | src/geometry/cached_system.hpp:667-677 | distinct metric derivatives have distinct slots |
| GeometryCache.DgSlotRange | src/geometry/cached_system.hpp:667-677 | together they take forty slots, thirty when the spacetime is static |
| GeometryCache.Cache.SetSymmetric | src/geometry/cached_system.hpp:636-652 | writing the upper triangle lets every entry be read in either order and touches no other slot |
| GeometryCache.Cache.Set | src/geometry/cached_system.hpp:626-653 | lapse, determinant, shift, spacetime, spatial and inverse metric read back what was written |
| GeometryCache.Cache.SetDg | src/geometry/cached_system.hpp:672-675 | one write changes one derivative, in both index orders, and nothing else |
| GeometryCache.Cache.SetDerivs | src/geometry/cached_system.hpp:656-680 | derivatives read back what was written, zero in time when static; nothing else changes |
| GeometryCache.Cache.SetDerivsFd | src/geometry/cached_system.hpp:685-721 | the finite-difference pass overwrites exactly the spatial derivatives and keeps stored time derivatives |
| GeometryCache.ConnectionCompatible | src/geometry/geometry_utils.hpp:72-78 | the connection is torsion free and reproduces the metric derivative |
| GeometryCache.ConnectionUnique | src/geometry/geometry_utils.hpp:72-78 | and is the only one that does |

## Left out

- RootFind.RootFinder.Itp: a finder that was already used is not modelled; every caller makes a fresh one for ITP.
- Recovery.Solve: when r >= h0 it requires h0 <= 1e16, so that the interval [1e-16, 1 / h0] of the bound is not empty.
- SignalSpeeds.SignalSpeeds: where the source divides by zero (a vanishing enthalpy, or v^2 c^2 = 1) the speeds are left open.
- UniqueRoot.ChangesSignOnce: an ideal gas with adiabatic index in [1, 2], an energy floor between zero and the ceiling that does not grow with density (all six kinds of floor fall or stay with density) and densities that keep the guard on rho (1 + eps) idle; other equations of state are not claimed to have one root.
- Bondi.BondiTemperature: the adiabatic index is 7/5, which the generator demands; away from the sonic radius nothing is claimed about which root is found.
- RoundTrip.RecoveryInvertsP2C: says what the recovery returns at the true mu; the mu found by iteration is within the bracket that Recovery.Solve states, and for an ideal gas within the tolerance of the true one (UniqueRoot.ConvertAndRecover).
- Newton.Solve: that the iteration converges is not claimed; the printed diagnostics and the repeated call that prints are not modelled.
- NetField.ModifyNetField: the hyperbola that defines the potential is a parameter, since every property holds for any potential.
- Monopole.LinearSolveForAlpha: requires nonzero pivots, which the source divides by; rows with the sign conditions of the maximum principle have them.
- Density.RunKeeps: one periodic line with the same metric at all faces and piecewise-constant states, each time step within the estimate of the face speeds it is used with; with reconstruction or a varying metric positivity is not claimed.
- GeometryCache.Cache.Set: one cell of the pack; the loop over cells and the map of k to zero for axisymmetric spacetimes are not modelled.
- Repair.RepairAll: the equation-of-state and p2c calls that follow the average write only the cell's own entries and are the parameter post.
- Repair.RepairAll: c2p_failure_force_fixup_both, which the source itself rejects as a race.
- Tetrads.Tetrads.Construct: requires nonzero spatial diagonal entries of the metric, which the source divides by the roots of, and residual norms of the right signs, which Tetrads.SeedsRegular reduces to one determinant.
- Floating-point rounding, NaN and infinities: arithmetic is over exact reals, and ratio is exact division away from zero, where rounding absorbs the SMALL in its denominator.
- The form of the energy equation other than Valencia (USE_VALENCIA off).
- The equation of state, the floors and ceilings as functions of position, and the radiation closures: parameters.
- The HLL flux, momentum and energy fluxes, and the energy limits in prim_to_flux.
- Polar FixFluxes, which runs after FluxCT, and the flux corrections at refinement boundaries: nodes they touch are outside the divergence result.
- The clamp of UpdateNetFieldScaleControls, whose bounds are in reverse order for a negative reference.
- Coordinates in the geometry cache, whose read offset differs from the write offset, and interpolation off the grid.
- Interpolate in monopole_gr_base.hpp, whose slope in the last cell does not match its other branches.
- Individual metrics, which are closed forms without loops or state.
- Task lists, MPI reductions, packing of variables, parameter parsing and output.
