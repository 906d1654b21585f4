# A verified model of the RMHD numerical back-end

This project models `src/rmhd.c` in Dafny. That file is the C back-end of a
relativistic magnetohydrodynamics (RMHD) solver for a flat, strided grid.
Every cell is eight doubles. A primitive cell holds `rho, pre, vx, vy, vz,
Bx, By, Bz`; a conserved cell holds `D, tau, Sx, Sy, Sz, Bx, By, Bz`.

The back-end keeps process-wide state: `lib_state`, the `slope_limiter`
function variable, the Alive/Dead `libopstate`, `stride[]`, `dimension`, the cell
sizes, `cons_to_prim_last_W`, and the primitive, flux and 4-velocity buffers.
Its entry points are:

- `initialize` and `finalize`, which start and end an Alive session;
- `set_state` and `get_state`;
- the conversions between primitive and conserved states, for one point
  and for an array;
- `dUdt_1d/2d/3d`. Each converts U to primitives, sweeps interface fluxes
  along every axis with `Fiph`, applies constraint transport in 2D and 3D,
  and writes the rate L = -dF/dx.

All numbers are modelled as Dafny `real`. The modules follow the structure
of the C file:

| module | file | what it holds |
|---|---|---|
| `Arith` | arith.dfy | `sign`, `max2`, `max3`, `min3`, `fabs`, `invert_2by2_matrix` |
| `Config` | config.dfy | the `LibraryState` record, its initialiser and the mode codes |
| `Eos` | eos.dfy | `eos_pre`, `eos_sie`, `eos_cs2` |
| `Limiters` | limiters.dfy | `plm_minmod`, `MC_limiter`, `harmonic_mean`, and the limiter choice of `set_state` |
| `StateVec` | state.dfy | 8-slot states, and cells of a flat array |
| `Wrappers` | wrappers.dfy | `Option` |
| `Externals` | externals.dfy | `sqrt`, the quartic solvers and `hllc_flux`, given as function values |
| `Convert` | convert.dfy | `prim_to_cons_point`, and the Newton state machine of `cons_to_prim_point` |
| `RoundTrip` | roundtrip.dfy | the warm-start round trip of the two point conversions |
| `Cells` | cells.dfy | `cons_to_prim_array` and `prim_to_cons_array` as folds over the cells |
| `Flux` | flux.dfy | `rmhd_flux_and_eval` |
| `Riemann` | riemann.dfy | `hll_flux` |
| `Reconstruct` | reconstruct.dfy | piecewise-constant reconstruction, `reconstruct_use_3vel` and `reconstruct_use_4vel` |
| `Sweep` | sweep.dfy | what `Fiph` computes, interface by interface |
| `ConstraintTransport` | ct.dfy | the averages of `constraint_transport_2d/3d`, and the divergence-free property they give |
| `Update` | update.dfy | the rate loops of `dUdt_*`, and conservation |
| `Engine` | engine.dfy | the back-end's state as class `Engine.Engine`, with one method per C routine that loops or changes state |

Point-level code is written as functions. Code that loops or changes
state is written as methods of `Engine.Engine` over `array<real>`. Each
method's `ensures` ties the new state to the functions of the other
modules, and the properties are proved about those functions.

## Model

| member | source | states |
|---|---|---|
| Arith.Sign | src/rmhd.c:135-138 | sign is 1, 0 or -1, and 1 exactly for positive and -1 exactly for negative arguments |
| Arith.Max2 | src/rmhd.c:139-142 | max2 is one of its arguments and at least both |
| Arith.Max3 | src/rmhd.c:143-147 | max3 is one of its arguments and at least all three |
| Arith.Min3 | src/rmhd.c:148-152 | min3 is one of its arguments and at most all three |
| Arith.InvertIsInverse | src/rmhd.c:153-161 | for a non-singular matrix, the closed form of invert_2by2_matrix is a left and a right inverse |
| Eos.EosSie | src/rmhd.c:193-196 | for positive density and gamma > 1, eos_sie is positive, zero or negative exactly as the pressure is |
| Eos.PreSieRoundTrip | src/rmhd.c:189-196 | eos_pre and eos_sie invert each other at a fixed density |
| Eos.EosCs2 | src/rmhd.c:197-201 | for a physical state, eos_cs2 lies in [0, gamma - 1), and it is positive exactly when the pressure is |
| Eos.SoundSpeedBound | src/rmhd.c:197-201 | the enthalpy density pre + rho + rho e is positive, and gamma p over it lies in [0, gamma - 1) |
| Limiters.MinmodBound | src/rmhd.c:162-169 | for any theta, the magnitude of plm_minmod is at most min3 of the magnitudes of the three candidate slopes |
| Limiters.MinmodCases | src/rmhd.c:162-169 | for theta > 0, plm_minmod is the smallest candidate magnitude when both one-sided differences are positive, minus it when both are negative, and 0 otherwise |
| Limiters.MinmodFactorCases | src/rmhd.c:168 | the sign factor 0.25 abs(sign a + sign b)(sign a + sign c) is 1 when all candidates are positive, -1 when all are negative, and 0 when a and c have strictly opposite signs |
| Limiters.MinmodFactorRange | src/rmhd.c:168 | that sign factor lies in [-1, 1] |
| Limiters.MinmodEdges | src/rmhd.c:162-169 | for 0 < theta <= 2, the edge values u0 +/- slope/2 lie between the centre and the neighbour on that side |
| Limiters.MinmodMagnitudeBound | src/rmhd.c:164-168 | for 0 < theta <= 2, the smallest candidate magnitude is at most twice each one-sided difference |
| Limiters.MCLimiterIncreasing | src/rmhd.c:170-176 | on strictly increasing data MC_limiter is the positive min3 of 2qp, 2qm and (ur - ul)/2 |
| Limiters.MCLimiterExtremum | src/rmhd.c:170-176 | at a strict local extremum, MC_limiter is 0 |
| Limiters.MCLimiterDecreasing | src/rmhd.c:175 | on strictly decreasing data the missing fabs makes MC_limiter positive, (ul - ur)/2, and the right edge overshoots the centre |
| Limiters.HarmonicMeanAsWrittenUndefined | src/rmhd.c:177-182 | the harmonic mean as written divides by zero exactly when ul == ur |
| Limiters.HarmonicMeanFlatStencil | src/rmhd.c:177-182 | a flat stencil gives 0/0 as written, where the corrected limiter gives 0 |
| Limiters.HarmonicMeanLimiter | src/rmhd.c:177-182 | the corrected limiter is 0 unless qp and qm share a strict sign; otherwise it has their sign and its magnitude lies between min(qp, qm) and twice that |
| Limiters.HarmonicMeanAgrees | src/rmhd.c:177-182 | wherever the written harmonic mean is finite, it equals the corrected limiter |
| Limiters.HarmonicMeanBounds | src/rmhd.c:181 | when qp qm > 0, qp + qm is nonzero, and 2 qp qm/(qp + qm) has the sign of both and lies between min and twice min |
| Limiters.HarmonicMeanEdges | src/rmhd.c:177-182 | the corrected harmonic mean keeps both edge values between the centre and the neighbour on that side |
| Limiters.SelectLimiter | src/rmhd.c:206-226 | the set_state switch picks MC and the harmonic mean for their own modes, and minmod for the minmod mode and every unknown mode; a call through the chosen harmonic mean is the corrected limiter of the Findings row (see Left out) |
| Limiters.LimitedEdgesBetween | src/rmhd.c:206-226 | for the selected minmod (0 < theta <= 2) or the corrected harmonic-mean limiter, both reconstructed edges stay between the centre and the neighbour on that side |
| StateVec.B2 | src/rmhd.c:893 | the squared magnetic field is non-negative |
| StateVec.SpliceOwnBlock | src/rmhd.c:872-877 | writing a cell's own state back over it leaves the whole array unchanged, which is what a failed cons_to_prim_point leaves in P |
| StateVec.Splice | src/rmhd.c:875-877 | writing cell j replaces exactly those eight doubles, and leaves every other entry alone |
| StateVec.SpliceOtherBlock | src/rmhd.c:875-877 | writing one cell leaves every other cell as it was |
| Convert.LorentzOfV2 | src/rmhd.c:895-896 | the Lorentz factor sqrt(1/(1 - v2)) is at least 1, and its square is 1/(1 - v2) |
| Convert.PrimToCons | src/rmhd.c:890-917 | prim_to_cons_point copies the three field slots unchanged, and for positive density D = rho W is at least rho |
| Convert.NewtonStep | src/rmhd.c:784-802 | the Newton correction is defined unless Z is 0 or the Jacobian determinant is 0; both of those are modelled as failure |
| Convert.ClampZ | src/rmhd.c:804-805 | the clamped Z stays non-negative from a non-negative Z, and is below 1e20 or the previous Z |
| Convert.ClampW | src/rmhd.c:807-808 | the clamped W lies in [1, 1e12], and is W_new itself when that is strictly inside |
| Convert.Run | src/rmhd.c:775-844 | a solution found has 1 to 25 iterations, Z > 0 and W in [1, 1e12]; a solution found in the free phase was never in the floor phase |
| Convert.PassesBound | src/rmhd.c:775-844 | the loop makes at most 26 passes in the floor phase and at most 52 in all; the floor phase is never left, so the loop terminates |
| Convert.FloorPressure | src/rmhd.c:849 | in the floor phase the pressure used, and the one written, is PRES_FLOOR = 1e-10 |
| Convert.LorentzOfVelocity | src/rmhd.c:764-766 | W_guess = 1/sqrt(1 - v2) is at least 1 |
| Convert.Enthalpy | src/rmhd.c:765 | for a physical guess and gamma > 1, h_guess = 1 + e + p/rho exceeds 1 and rho h is positive, so every physical guess gives a positive first Z |
| Convert.StartZW | src/rmhd.c:764-768 | the start values, from the estimate or from the guess primitives, have W >= 1 and Z > 0 |
| Convert.StartFromEstimate | src/rmhd.c:767-768 | the estimate W = sqrt(S2/D^2 + 1) and Z = D W satisfy W >= 1 and Z > 0 |
| Convert.Recover | src/rmhd.c:847-855 | the written state copies Bx, By and Bz from U, has rho W = D (so rho > 0 when D > 0), and has pressure PRES_FLOOR in the floor phase |
| Convert.Finish | src/rmhd.c:840-859 | the point is solved exactly when the loop found a solution; the solve reports that solution's iteration count and W; P[B] == U[B] and P[rho] == D/W |
| Convert.ConsToPrimSpec | src/rmhd.c:742-860 | cons_to_prim_point either fails (return 1) or solves with 1 to 25 iterations, W in [1, 1e12], P[Bx..Bz] == U[Bx..Bz] and P[rho] == D/W |
| RoundTrip.LorentzFormsAgree | src/rmhd.c:895-896 | the Lorentz factors computed by cons_to_prim_point and by prim_to_cons_point agree |
| RoundTrip.PressureIdentity | src/rmhd.c:782 | the pressure the loop reads off Z = rho h W^2 and D = rho W is the original pressure |
| RoundTrip.FieldFreePrimToCons | src/rmhd.c:890-917 | without a field, prim_to_cons_point gives D = rho W, S = Z v and tau = Z - p - D, with Z = rho h W^2 |
| RoundTrip.ResidualsVanish | src/rmhd.c:784-785 | both residuals f1 and f2 vanish at a field-free (Z, W) consistent with the conserved state |
| RoundTrip.ZeroStepConverges | src/rmhd.c:798-821 | a zero Newton correction inside the clamps, with pressure at or above the floor, ends the loop on its first pass with Z and W unchanged |
| RoundTrip.RecoverFieldFree | src/rmhd.c:847-855 | recovering at the state's own (Z, W) gives the field-free primitive state back |
| RoundTrip.FirstPassSolution | src/rmhd.c:775-859 | when the loop ends on its first pass at the start values, the result is the state recovered there, after one iteration |
| RoundTrip.WarmStartResiduals | src/rmhd.c:784-785 | at the warm start of a field-free state, both residuals are 0 |
| RoundTrip.WarmStartPressure | src/rmhd.c:764-768 | at the warm start of a field-free state, the implied pressure is the state's own |
| RoundTrip.WarmStartRecovery | src/rmhd.c:847-855 | at the warm start of a field-free state, the recovered primitive state is the state itself |
| RoundTrip.WarmStartRoundTrip | src/rmhd.c:742-860 | for a field-free physical state above the pressure floor, strictly inside the clamps and with a regular Jacobian, cons_to_prim_point seeded with the state itself solves prim_to_cons_point's output back to it in one iteration |
| Cells.SpliceAllAt | src/rmhd.c:872-877 | after writing a list of cells in order, each cell holds the value written there |
| Cells.PrimToConsCells | src/rmhd.c:918-926 | prim_to_cons_array keeps the length of U and leaves every entry past the first N cells untouched |
| Cells.PrimToConsCellsAt | src/rmhd.c:918-926 | each converted cell of U is prim_to_cons_point of the same cell of P alone |
| Cells.Outcomes | src/rmhd.c:872-877 | the outcome of cell j is cons_to_prim_point of U's cell j with P's cell j as the guess, since no cell reads another |
| Cells.ApplyCell | src/rmhd.c:875-886 | one pass of cons_to_prim_array writes only cell j of P |
| Cells.ApplyCache | src/rmhd.c:879-886 | the 4-velocity cache entry of cell j is last_W times that cell's velocity, and nothing else changes |
| Cells.ApplyCells | src/rmhd.c:872-887 | the loop keeps every array's length, leaves P past the N cells untouched, and adds between 0 and N failures |
| Cells.ApplyCellsAt | src/rmhd.c:872-887 | each cell after the loop is what its own outcome made of its guess |
| Cells.ApplyCellsUntouched | src/rmhd.c:872-877 | before its own pass, cell j still holds its starting guess |
| Cells.ConvertCellsAt | src/rmhd.c:861-889 | each cell cons_to_prim_array writes is cons_to_prim_point of that cell's conserved state and guess alone |
| Cells.Failures | src/rmhd.c:877 | the failure count lies in [0, N] |
| Cells.FailureCount | src/rmhd.c:863-888 | the returned count is exactly the number of cells cons_to_prim_point failed on |
| Cells.CachedVelocity | src/rmhd.c:879-886 | the cache entry of a solved cell uses that cell's own W; for a failed cell it uses last_W from an earlier cell or an earlier call |
| Cells.CellRoundTrip | src/rmhd.c:742-860 | a warm-startable primitive cell converts to conserved and back to itself in one iteration |
| Cells.ConvertedCellsSolve | src/rmhd.c:861-926 | when every cell of P is warm-startable (field-free, physical, pressure at least PRES_FLOOR, inside the Z and W clamps, regular Jacobian), every cell prim_to_cons_array wrote solves back to its own primitives in one Newton iteration |
| Cells.SolvedOutcomes | src/rmhd.c:861-889 | when every cell solves to its own guess, cons_to_prim_array leaves P and the failure count as they were and adds N iterations |
| Cells.SolvedInPlace | src/rmhd.c:872-887 | outcomes that each solve to the guess already there, in one iteration, leave the array unchanged and count no failure |
| Cells.ArrayRoundTrip | src/rmhd.c:861-926 | when every cell of P is warm-startable (field-free, physical, pressure at least PRES_FLOOR, inside the Z and W clamps, regular Jacobian), prim_to_cons_array followed by cons_to_prim_array, with no estimate, gives P back with no failures and one iteration per cell |
| Flux.PhysicalFlux | src/rmhd.c:610-656 | the flux of the field component along the sweep axis is exactly 0, and the density flux is D times the velocity along that axis |
| Flux.InductionAntisymmetry | src/rmhd.c:633-655 | the induction fluxes are antisymmetric: the flux of B along axis b in sweep a is minus that of B along a in sweep b |
| Flux.StaticFlux | src/rmhd.c:610-656 | a field-free state at rest carries only its pressure, in the momentum slot of the sweep axis |
| Flux.StaticSoundSpeeds | src/rmhd.c:659-688 | for a field-free state at rest, 0 and plus and minus the sound speed are roots of the characteristic quartic |
| Flux.ExactSpeedsBracket | src/rmhd.c:692-706 | with the exact solver, four real roots are bracketed by the bounds; with one real pair, the bounds are that pair's max and min |
| Flux.ClampSpeeds | src/rmhd.c:733-737 | after the final clamp both bounds lie in [-1, 1]; bounds inside the light cone are kept, and otherwise both become (1, -1) |
| Flux.FluxAndEval | src/rmhd.c:608-740 | rmhd_flux_and_eval returns bounds with |ap|, |am| <= 1 and a zero flux for the field component along the sweep axis |
| Flux.NoSolverSpeeds | src/rmhd.c:725-730 | with QuarticSolver_None the bounds are (1, -1) |
| Flux.SpeedsInsideLightCone | src/rmhd.c:689-737 | bounds the quartic solver reports inside the light cone are returned unchanged |
| Riemann.HllJumpConditions | src/rmhd.c:334-339 | the HLL blend satisfies the jump condition across both outer waves: F* - Fl = am (U* - Ul) and F* - Fr = ap (U* - Ur) |
| Riemann.Envelope | src/rmhd.c:328-329 | ap is the larger and am the smaller of the two sides' bounds |
| Riemann.HllCombine | src/rmhd.c:328-347 | the reported signal speed max(|ap|, |am|) lies in [0, 1] |
| Riemann.HllSelection | src/rmhd.c:328-347 | ml = max(|ap|, |am|); s <= am gives exactly (Ul, Fl); am < s <= ap, including s == ap, gives the HLL blend; ap < s gives (Ur, Fr) |
| Riemann.HllCombineConsistent | src/rmhd.c:334-347 | with equal states and fluxes on both sides, every branch returns that state and flux |
| Riemann.HllConsistent | src/rmhd.c:311-350 | hll_flux with the same primitive state on both sides returns its conserved state and its physical flux, whatever s is |
| Riemann.Hll | src/rmhd.c:311-350 | the signal speed hll_flux reports lies in [0, 1] |
| Riemann.RaiseMaxLambda | src/rmhd.c:332 | the max_lambda update never lowers it: the new value is at least the old one and at least ml, and is one of the two |
| Reconstruct.EdgesBetweenCells | src/rmhd.c:361-365 | with minmod (0 < theta <= 2) or the corrected harmonic mean, both limited edge values of a slot lie between the two cells of the interface |
| Reconstruct.Reconstruct3VelBetween | src/rmhd.c:352-368 | reconstruct_use_3vel writes all eight slots of both edges, and with minmod or the corrected harmonic mean every slot lies between the two cells |
| Reconstruct.ThreeVelocity | src/rmhd.c:400-404 | v = u/sqrt(1 + \|u\|^2) has squared magnitude strictly below 1 for any 4-velocity |
| Reconstruct.SubLuminal | src/rmhd.c:400-404 | \|u/W\|^2 < 1 when W^2 = 1 + \|u\|^2 |
| Reconstruct.EdgeVelocities | src/rmhd.c:391-404 | the 3-velocities at both edges, built from the limited 4-velocity components, are sub-luminal whatever the stencil values and the limiter |
| Reconstruct.WithVelocity | src/rmhd.c:403-404 | writing the three velocity slots sets v2 to the new velocity's square and keeps the rho, pre and B slots |
| Reconstruct.Reconstruct4Vel | src/rmhd.c:370-407 | both edges of reconstruct_use_4vel have v2 < 1 |
| Reconstruct.Reconstruct4VelMinmodSlots | src/rmhd.c:384-389 | the rho, pre, Bx, By and Bz slots of both edges are the plm_minmod edges, whatever limiter is selected |
| Reconstruct.Reconstruct4VelPhysical | src/rmhd.c:370-407 | for 0 < theta <= 2 and cells of positive density and pressure, both edges are physical states (positive rho and pre, v2 < 1) |
| Sweep.InterfaceCount | src/rmhd.c:487 | the loop test i < stride[0] - 2 S holds at i = S + 8 k exactly for the counted interfaces, and those end at stride[0] - 2 S |
| Sweep.InterfaceStencil | src/rmhd.c:487-505 | every visited interface has the whole stencil P0[-S] .. P0[2S + 7], and the matching 4-velocity stencil, inside the arrays |
| Sweep.FluxAt | src/rmhd.c:513-525 | an interface offers a signal speed in [0, 1] to max_lambda exactly when the solver is not HLLC |
| Sweep.SweepWrittenUnique | src/rmhd.c:477-532 | the flux array Fiph leaves is determined by its inputs: two arrays it could have written are equal |
| Sweep.RaiseOne | src/rmhd.c:517-523 | max_lambda after one interface is at least its old value and the speed offered, and is unchanged when nothing is offered |
| Sweep.RaiseAllBounds | src/rmhd.c:487-526 | after a sweep max_lambda is at least its old value and every speed offered; it is the old value or one of them; it is unchanged when no speed is offered |
| Sweep.LambdaUnderHllc | src/rmhd.c:519-520 | with HLLC the sweep leaves max_lambda unchanged |
| Sweep.PiecewiseConstantSolvable | src/rmhd.c:495-498 | with piecewise-constant reconstruction of physical cells, every HLL problem of the sweep is well posed |
| Sweep.FourVelocitySolvable | src/rmhd.c:504-506 | with the 4-velocity reconstruction, 0 < theta <= 2 and cells of positive density and pressure, every HLL problem of the sweep is well posed, whatever the velocities and the limiter |
| Sweep.EdgesAt4Vel | src/rmhd.c:504-505 | with the 4-velocity reconstruction, the edges of interface k are reconstruct_use_4vel of the cell at i = S + 8 k with the cache entries at i/8 |
| Sweep.InterfaceCells | src/rmhd.c:487-498 | the two cells of interface k are cells S/8 + k and S/8 + k + S/8 of the primitive array, both inside it |
| Update.Telescope | src/rmhd.c:423-426 | the differences c[j] - c[j - m] telescope: their sum over [m, hi) is the last m entries minus the first m |
| Update.SumScaled | src/rmhd.c:425 | the common factor -1/dx comes out of the sum of the rates |
| Update.Conserved1D | src/rmhd.c:423-426 | when the first S and last 2 S entries of F are zero (the guard fluxes that Fiph zeroes), the rates of dUdt_1d in each slot sum to zero over the cells from S on: the update conserves every conserved quantity |
| Update.DifferencesSum | src/rmhd.c:423-426 | differences of a column whose first and last m entries are zero sum to zero |
| Update.ColumnRates | src/rmhd.c:423-426 | slot k of the rates of dUdt_1d, cell by cell from cell S/8 on, are minus the differences of slot k of F over dx |
| Update.ColumnGuards | src/rmhd.c:527-530 | slot k of the guard fluxes is zero in the first S/8 cells and in the last 2 S/8 cells |
| Update.SweepConserved1D | src/rmhd.c:408-428 | the rates dUdt_1d computes from any flux array Fiph writes sum to zero in every slot over the cells from S on |
| Update.TransportedAt | src/rmhd.c:446-449 | the Bx and By rates of a cell read zero normal fluxes and the corner-averaged transverse fluxes |
| Update.RatesAt | src/rmhd.c:446-449 | the Bx and By rates that dUdt_2d leaves at a cell are RateBx and RateBy of the fluxes before constraint transport |
| Update.TransportedRatesDivergenceFree | src/rmhd.c:429-451 | after constraint transport, dUdt_2d keeps the magnetic field divergence-free: the corner divergence of its Bx and By rates is zero for any raw fluxes |
| Update.TransportedRates | src/rmhd.c:446-449 | every cell whose stencil lies inside the grid gets the rates RateBx and RateBy from dUdt_2d after constraint transport |
| Update.CornerCells | src/rmhd.c:446-449 | the four cells around a corner start at multiples of 8, and each has its own stencil inside the grid |
| ConstraintTransport.EmfForm | src/rmhd.c:542-549 | the averaged fluxes FxBy and FyBx of constraint_transport_2d are the averages of two corner EMFs, with opposite signs |
| ConstraintTransport.DivergenceFree2D | src/rmhd.c:446-449 | for any raw fluxes, the rates that the transported fluxes give have zero corner divergence |
| ConstraintTransport.RatesCombination | src/rmhd.c:446-449 | the corner divergence of eight Bx and By rates vanishes when the combination of their flux differences does |
| ConstraintTransport.EmfDifferences | src/rmhd.c:542-549 | the x and y combinations of transported fluxes read at a corner cancel |
| ConstraintTransport.PlaneForm3D | src/rmhd.c:576-595 | the 3D averaged fluxes FyBz, FzBy, FzBx and FxBz are averages of two four-point corner EMFs, with opposite signs |
| ConstraintTransport.AveragesStep2D | src/rmhd.c:542-549 | one iteration of the first loop fills the two temporaries of cell i |
| ConstraintTransport.AveragesDone2D | src/rmhd.c:542 | reaching i >= stride[0] - stride[1] leaves every interior temporary filled |
| ConstraintTransport.WrittenStep2D | src/rmhd.c:550-554 | one iteration of the second loop writes the four field slots of cell i, and stays in range |
| ConstraintTransport.WrittenBackTransported2D | src/rmhd.c:533-560 | the two loops together zero the normal field slots and put the corner averages in the transverse ones |
| ConstraintTransport.AveragesStep3D | src/rmhd.c:576-595 | one iteration of the first loop fills the six temporaries of cell i |
| ConstraintTransport.AveragesDone3D | src/rmhd.c:576 | reaching i >= stride[0] - stride[1] leaves every interior temporary filled |
| ConstraintTransport.FieldSlotsStep | src/rmhd.c:596-601 | one iteration of the second loop writes the three field slots of cell i |
| ConstraintTransport.TransportedX3D | src/rmhd.c:596-601 | after the write-back, Fx has a zero Bx slot everywhere, and the averages FxBy and FxBz in the interior |
| ConstraintTransport.TransportedY3D | src/rmhd.c:596-601 | after the write-back, Fy has a zero By slot everywhere, and the averages FyBx and FyBz in the interior |
| ConstraintTransport.TransportedZ3D | src/rmhd.c:596-601 | after the write-back, Fz has a zero Bz slot everywhere, and the averages FzBx and FzBy in the interior |
| ConstraintTransport.WrittenBackTransported3D | src/rmhd.c:561-607 | the two loops of constraint_transport_3d together transport the fluxes |
| StateVec.CellIsBlock | src/rmhd.c:490 | the state that P0 = &P[i] reads at a multiple i of 8 is cell i/8, the cell the cache index i/8 and the array conversions use |
| Cells.ApplyPoint | src/rmhd.c:877 | one cons_to_prim_point outcome changes only cell j of P, the failure count, the counter and last_W, and leaves the cache alone |
| Cells.SpliceAll | src/rmhd.c:921-923 | the converted cells written in order over the front of U, with every entry beyond them kept |
| Convert.ConsOf | src/rmhd.c:893-915 | prim_to_cons_point copies the field slots across, and gives D >= rho for positive rho |
| Flux.FluxOf | src/rmhd.c:624-656 | the flux along an axis has a zero field slot along that axis and a density flux of D times the velocity along it |
| Flux.SpeedQuarticAtRest | src/rmhd.c:659-686 | for a state at rest the Lorentz factor in the quartic's coefficients is 1 |
| Flux.StaticQuartic | src/rmhd.c:679-686 | at rest and without field, the coefficients of the wave-speed quartic are (rho h/cs2, 0, -rho h, 0, 0) |
| Flux.QuarticAtRest | src/rmhd.c:679-686 | with those coefficients, the sound speed cs and 0 are roots of the quartic |
| Engine.StorePair | src/rmhd.c:547-548 | the two temporaries of one cell get their averaged fluxes, with nothing else changed |
| Engine.StoreFields | src/rmhd.c:597-599 | the three field slots of one cell of a flux array get their new values, with nothing else changed |
| Engine.OverlayWhole | src/rmhd.c:866-870 | the memcpy of stride[0] doubles over an array of that length makes it an exact copy, and a second identical memcpy changes nothing |
| Engine.CopyOf | src/rmhd.c:269-270 | a fresh array that holds the first n doubles of the source, as the malloc and memcpy of initialize make |
| Engine.CopyInto | src/rmhd.c:866-870 | after the memcpy the destination is the source laid over its old contents |
| Engine.Store | src/rmhd.c:516-525 | after a state is written to cell j (the &F[i] of hll_flux, the &P[i] of cons_to_prim_point), the array is the splice of that cell |
| Engine.GridStrides | src/rmhd.c:257-260 | stride[] of an Nx x Ny x Nz grid with N >= 0: stride[3] = 8, every stride a non-negative multiple of 8, stride[0] == 0 exactly when some axis has no cells, and non-increasing when every axis has a cell |
| Engine.StoreIsSplice | src/rmhd.c:516-525 | an array that matches c on cell j and the old array elsewhere is the splice of c at j |
| Engine.Engine.constructor | src/rmhd.c:60-90 | the static initial values: lib_state's initialiser, Dead mode, dimension 1, zeroed globals |
| Engine.Engine.SetState | src/rmhd.c:204-229 | set_state returns 0, stores the record and points the slope limiter at the selected one, minmod when the mode is unknown |
| Engine.Engine.GetState | src/rmhd.c:230-233 | get_state returns the stored record |
| Engine.Engine.Initialize | src/rmhd.c:235-281 | initialize returns 0 in Alive mode with dimension 1, the strides of the grid, the cell sizes L/(N - 2 Ng), a copy of P and fresh flux and 4-velocity buffers; a grid with an empty axis is accepted and gets empty buffers |
| Engine.Engine.SetGrid | src/rmhd.c:237-267 | the globals that initialize sets, for any N >= 0 including an empty axis: Alive mode, quiet, dimension 1, the strides and the cell sizes |
| Engine.Engine.AllocateBuffers | src/rmhd.c:269-274 | fresh, pairwise distinct primitive and flux buffers of stride[0] doubles, the primitive one a copy of P |
| Engine.Engine.AllocateCaches | src/rmhd.c:276-278 | three fresh, distinct 4-velocity buffers of stride[0]/8 doubles |
| Engine.Engine.Finalize | src/rmhd.c:282-309 | finalize returns 0 and goes back to Dead mode |
| Engine.Engine.HllFlux | src/rmhd.c:311-350 | hll_flux returns the HLL state and flux and raises max_lambda to the offered speed, changing nothing else in lib_state |
| Engine.Engine.Fiph | src/rmhd.c:477-532 | Fiph returns 0, writes the sweep's fluxes (zero guard fluxes, then one flux per interface) and leaves max_lambda raised by every speed offered |
| Engine.Engine.FiphTail | src/rmhd.c:527-530 | the last loop zeroes F from stride[0] - 2 S on, which completes the sweep |
| Engine.Engine.FiphInterface | src/rmhd.c:487-526 | one pass of the interface loop stores interface k's flux at &F[S + 8 k] and offers its speed to max_lambda |
| Engine.Engine.StoreInterface | src/rmhd.c:516-525 | the write of interface k's flux adds one more written interface |
| Engine.Engine.InterfaceFlux | src/rmhd.c:489-525 | the body of the interface loop before the store: the flux of the selected reconstruction and Riemann solver, and max_lambda raised by its offer |
| Engine.Engine.ConstraintTransport2D | src/rmhd.c:533-560 | constraint_transport_2d returns 0 and leaves Fx and Fy transported: zero normal field slots and the corner averages in the transverse ones |
| Engine.Engine.Averages2D | src/rmhd.c:542-549 | the first loop fills the temporaries FxBy and FyBx of every interior cell |
| Engine.Engine.AveragesAt2D | src/rmhd.c:544-548 | one iteration of the first loop fills the two temporaries of cell i |
| Engine.Engine.WriteBack2D | src/rmhd.c:550-554 | the second loop writes the four field slots of every cell from the temporaries |
| Engine.Engine.ConstraintTransport3D | src/rmhd.c:561-607 | constraint_transport_3d returns 0 and leaves each flux array with a zero normal field slot and both transverse slots taken from the temporaries |
| Engine.Engine.Averages3D | src/rmhd.c:576-595 | the first loop fills the six temporaries of every interior cell |
| Engine.Engine.AveragesAt3D | src/rmhd.c:578-594 | one iteration of the first loop fills the six temporaries of cell i |
| Engine.Engine.WriteBack3D | src/rmhd.c:596-601 | the second loop writes the nine field slots of every cell from the temporaries |
| Engine.Engine.ConsToPrimPoint | src/rmhd.c:742-860 | cons_to_prim_point returns 0 or 1, and 1 exactly when the solve fails; then nothing changes; otherwise it returns the recovered primitives, keeps W in last_W and adds the iterations to the counter |
| Engine.Engine.ConsToPrimArray | src/rmhd.c:861-889 | cons_to_prim_array returns the failure count (between 0 and N) and leaves the primitives, last_W, the counter and the 4-velocity cache of the cell-by-cell conversion |
| Engine.Engine.ConvertLoop | src/rmhd.c:872-887 | the loop of cons_to_prim_array produces the outcomes of all cells |
| Engine.Engine.Pass | src/rmhd.c:873-886 | one pass of the loop applies the outcome of cell j |
| Engine.Engine.ConvertCell | src/rmhd.c:874-877 | cons_to_prim_point on cell j, with its failure counted |
| Engine.Engine.SolveCell | src/rmhd.c:877 | cons_to_prim_point on cell j of U, with the guess in cell j of P, returns the outcome of that cell |
| Engine.Engine.CacheCell | src/rmhd.c:879-886 | the cache entry of cell j is written from last_W exactly when the cache is in use |
| Engine.Engine.CacheVelocity | src/rmhd.c:882-885 | the cache entry of cell j: last_W times the velocity now in the cell |
| Engine.Engine.PrimToConsArray | src/rmhd.c:918-926 | prim_to_cons_array returns 0 and converts the first N cells of P into U |
| Engine.Engine.DUdt1D | src/rmhd.c:408-428 | dUdt_1d returns 1 and changes nothing in Dead mode; otherwise it converts U, sweeps along x, conserves every slot of L and returns the failures |
| Engine.Engine.Advance1D | src/rmhd.c:417-427 | the Alive-mode part of dUdt_1d: the conversion, the x sweep and the conservative update |
| Engine.Engine.Sweep1D | src/rmhd.c:419-426 | dimension 1, Fiph along x and the loop over L, whose slots sum to zero |
| Engine.Engine.RateLoop1D | src/rmhd.c:423-426 | the loop of dUdt_1d leaves L equal to the reference definition Rate1D (-(F[i] - F[i - S])/dx from S on, entries before S untouched) |
| Engine.Engine.DUdt2D | src/rmhd.c:429-451 | dUdt_2d returns 1 and changes nothing in Dead mode; otherwise it converts U, sweeps along x and y, transports the fluxes and leaves field rates with zero corner divergence |
| Engine.Engine.Advance2D | src/rmhd.c:439-450 | the Alive-mode part of dUdt_2d |
| Engine.Engine.Sweep2D | src/rmhd.c:441-449 | Fiph along x and y, constraint transport and the loop over L, with divergence-free field rates |
| Engine.Engine.RateLoop2D | src/rmhd.c:446-449 | the loop of dUdt_2d leaves L equal to the reference definition Rate2D (minus the x and y flux differences from stride[1] on, entries before it untouched) |
| Engine.Engine.DUdt3D | src/rmhd.c:452-476 | dUdt_3d returns 1 and changes nothing in Dead mode; otherwise it converts U, sweeps along all three axes, transports the fluxes and updates L |
| Engine.Engine.Advance3D | src/rmhd.c:463-475 | the Alive-mode part of dUdt_3d |
| Engine.Engine.Sweep3D | src/rmhd.c:465-474 | Fiph along x, y and z, constraint transport and the three-term loop over L |
| Engine.Engine.RateLoop3D | src/rmhd.c:471-474 | the loop of dUdt_3d leaves L equal to the reference definition Rate3D (minus the three flux differences from stride[1] on, entries before it untouched) |

## Left out

- IEEE floating point is not modelled: there is no rounding, NaN or Inf. Arithmetic is exact over `real`. The `1e-6` tolerance of `cons_to_prim_point` is kept as a constant of the stopping test, but nothing is proved about accuracy.
- Newton convergence is not proved. `Convert.ConsToPrimSpec` is a terminating state machine bounded by the iteration cap of 25 and the one-shot switch to the floor phase. The only recovery proved exact is the warm start of a field-free state.
- A Newton step of `cons_to_prim_point` whose Jacobian determinant or new Z is 0 would give Inf or NaN in C. The model treats it as a failed solve: it returns 1 and leaves P unchanged.
- Three routines are declared in `src/rmhd.c` without their bodies: `sqrt`, the quartic solvers (`new_QuarticEquation`, `solve_quartic_equation`, `solve_quartic_approx1/2`) and `hllc_flux`. They are parameters of type `Externals.Ext`, that is, pure functions of their arguments. Three assumptions come with that:
  - `sqrt` is a square root (`Ext.Valid()`);
  - `hllc_flux` writes only its outputs `U_star` and `F[i]`, and never touches `lib_state.max_lambda` or any other global;
  - each external returns the same result for the same arguments.
- Sweep.LambdaUnderHllc: rests on the assumption that `hllc_flux` never changes `lib_state.max_lambda`, since its code is not part of this model. `Sweep.FluxAt` (HLLC offers no speed) and the max_lambda clause of `Engine.Engine.Fiph` under HLLC rest on the same assumption.
- `hllc_set_dimension` only forwards the axis to the HLLC solver. That solver is an external, so the call is left out.
- `printf` banners, `quiet` output and the verbose Newton traces are I/O and are left out. `malloc` and `free` are modelled as fresh arrays, allocated by `initialize` and by the constraint-transport methods, and never released.
- `run.py` (the driver, MPI and plotting) and `rmhd/testbench.py` (shock-tube initial data) are not part of this model: they are orchestration and data, not logic.
- The C arrays are `array<real>` with explicit offsets. The model demands that arrays which differ in C are distinct: for example L, U and P are not the engine's own buffers. It therefore does not cover calls that alias them.
- Engine.Engine.HllFlux: requires physical states on both sides (positive density and pressure, v2 < 1) and gamma > 1. C divides by zero when rho == 0 (`eos_sie` and h), gamma == 1 (`eos_sie`, src/rmhd.c:195), pre == 0 (cs2 is then 0 and `1.0/cs2` at src/rmhd.c:679 divides by it), p + rho + rho e == 0 (the `eos_cs2` denominator) or v2 == 1 (W). When v2 > 1 it takes the square root of a negative number. Other unphysical inputs run in C without necessarily dividing by zero: rho < 0, pre < 0, and gamma < 1. They are excluded because they are unphysical, and the model promises nothing for them.
- Engine.Engine.Fiph: requires every interface's HLL problem to be well posed (`Sweep.Solvable`). `Sweep.PiecewiseConstantSolvable` and `Sweep.FourVelocitySolvable` prove this for physical cells. With the 3-velocity reconstruction it is left to the caller.
- Engine.Engine.DUdt1D: requires, in Alive mode, gamma > 1, a U that every cell can be converted from, nonzero cell sizes, and solvable sweeps (`Ready`). gamma > 1 is the requirement of the HLL flux (see Engine.Engine.HllFlux above): the sweeps call it on every interface. DUdt2D and DUdt3D have the same requirements.
- Engine.Engine.DUdt2D: also requires a cell along every axis (`Engine.Engine.StridesValid`), and so does DUdt3D, because the constraint-transport proofs use the nesting of the strides. A grid with an empty axis, where C's loops run no iteration or write past an empty buffer, is not covered in 2D and 3D.
- Engine.Engine.ConsToPrimPoint: requires D > 0 and gamma != 0 (`Convert.GuessUsable`). When the estimate is not used, it also requires gamma != 1, a guess with rho != 0 and v2 < 1, and a positive first Z = rho h W^2. The zero divisions behind these requirements:
  - D == 0: `D*D` and `D*W` (src/rmhd.c:767, 782);
  - gamma == 0: `gamf` (src/rmhd.c:749);
  - in warm-start mode, gamma == 1 or rho == 0: `eos_sie` (src/rmhd.c:195) and `P[pre]/P[rho]` (src/rmhd.c:765);
  - v2 == 1: `W_guess` (src/rmhd.c:766), and v2 > 1 takes the square root of a negative number;
  - a first Z == 0: `BS2/Z2` in f1 (src/rmhd.c:784).
- Engine.Engine.ConsToPrimPoint: in estimate mode C still computes `h_guess` and `W_guess` from P, but never uses them. The model therefore demands nothing of the guess there, and it allows gamma == 1 (then gamf = 0). Every gamma other than 0 and 1 is allowed in both modes, including gamma < 1, as long as the warm start's first Z is positive. For a physical guess with gamma > 1 it always is (`Convert.Enthalpy`).
- Engine.Engine.ConsToPrimPoint: two inputs that C runs are not covered: D < 0, and a warm start whose first Z is negative. A negative first Z arises for gamma in (0, 1) with h = 1 + (p/rho) gamma/(gamma - 1) < 0, or for a guess whose rho and h differ in sign. D < 0 is unphysical, and in estimate mode it also makes the first Z = D W negative. The proofs keep Z >= 0 from the start on. That keeps the later divisions by Z, Z^2, Z^3 and Z + B^2 defined, and from a negative Z the model does not follow C. The model promises nothing for these inputs.
- Convert.ConsToPrimSpec: has the same requirements as Engine.Engine.ConsToPrimPoint above, for the same reasons. D < 0 and warm starts with a negative first Z are not covered.
- Engine.Engine.ConsToPrimArray: requires every one of the N cells to meet the requirements of Engine.Engine.ConsToPrimPoint (`Cells.ConvertibleCons`), for the same reasons. It does not cover an array where some cell has D < 0 or a warm start with a negative first Z.
- Engine.Engine.PrimToConsArray: requires rho != 0 and v2 < 1 in every converted cell, and gamma != 1. C divides by rho in `eos_sie`, e_ and h_, and by rho (gamma - 1) in `eos_sie`. When v2 == 1, W2 = 1/(1 - v2) divides by zero. When v2 > 1, W = sqrt(W2) is the square root of a negative number (src/rmhd.c:895-896).
- Engine.Engine.Initialize: requires each of Nx, Ny, Nz to differ from 2 Ng = 4, since C divides by Nx - 2 Ng when computing dx. Also requires P to hold stride[0] doubles, since `memcpy` reads that many.
- Engine.Engine.Initialize: requires Nx, Ny, Nz >= 0. A negative N makes stride[0] negative, and `malloc` and `memcpy` are then asked for a negative size, which converts to a huge `size_t`. An empty axis (N == 0) is modelled: stride[0] is 0 and the buffers are empty. SetGrid has the same requirements.
- Engine.GridStrides: the products are unbounded integers. C's `Nx*Ny*Nz*8` is an `int` and overflows for grids of 2^28 cells or more, which the model does not capture.
- Engine.Engine.ConstraintTransport2D: outside the interior cells, the transverse field slots are written from temporaries the first loop never set. The model leaves those values unconstrained, where C reads uninitialised memory.
- Engine.Engine.ConstraintTransport3D: states what the two loops write, but a corner divergence-free property for the 3D rates is not proved. That property is proved only in 2D (`Update.TransportedRatesDivergenceFree`).
- Limiters.Limit: a call through `slope_limiter` in harmonic-mean mode uses the corrected limiter `Limiters.HarmonicMeanLimiter` of the Findings row, not `harmonic_mean` as written. The two agree wherever the C value is finite (`Limiters.HarmonicMeanAgrees`). When ul == ur, which includes every uniform stencil, C computes 0/0 and the sweep carries a NaN into the flux. The model uses slope 0 there. Everything built on `Limit` inherits this substitution: `Reconstruct.Reconstruct3Vel`, `Reconstruct.Reconstruct4Vel`, `Sweep.EdgesAt`, `Sweep.FluxAt`, `Sweep.SweepWritten`, `Sweep.RaiseAllBounds`, `Engine.Engine.Fiph`, and `Engine.Engine.DUdt1D`, `DUdt2D` and `DUdt3D` in harmonic-mean mode.
- Limiters.SelectLimiter: the harmonic-mean mode selects the corrected limiter (see `Limiters.Limit` above). As a model of C with that mode set, it is faithful only on stencils with ul != ur.
- Limiters.LimitedEdgesBetween: its harmonic-mean case is proved of the corrected limiter. As written, C gives 0/0 when ul == ur, so it has no such bound there.
- Reconstruct.EdgesBetweenCells: its harmonic-mean case holds of the corrected limiter only, for the same reason as Limiters.LimitedEdgesBetween.
- Reconstruct.Reconstruct3VelBetween: its harmonic-mean case holds of the corrected limiter only, for the same reason as Limiters.LimitedEdgesBetween.
- Limiters.MCLimiterExtremum: is stated only for a strict extremum. When qp == 0 and qm < 0, the missing `fabs` makes MC_limiter return -0.25 qm, not 0.
- RoundTrip.WarmStartRoundTrip: covers only states without magnetic field. Nothing is proved about the round trip of a state with a field.
- Cells.ConvertedCellsSolve: requires every cell of P to be warm-startable (`Cells.WarmStartable`): no field, physical, pressure at least PRES_FLOOR, inside the Z and W clamps, and with a regular Jacobian. It inherits this from RoundTrip.WarmStartRoundTrip, and nothing is proved for other arrays.
- Cells.ArrayRoundTrip: has the same warm-startable restriction as Cells.ConvertedCellsSolve. The array round trip is not proved for cells with a field, cells below the pressure floor, or cells where the Newton step is singular or clamped.
- Flux.FluxAndEval: when `mode_quartic_solver` is not one of the known codes, C leaves `*ap` and `*am` unset. `hll_flux` then reads its uninitialised locals `epl`, `eml`, `epr`, `emr`, which may all differ. The model gives all four the single value `indeterminate` of `Externals.Ext`, which is clamped like any other speed. So in that mode the model has ap == am on both sides, and `hll_flux` never takes its blend branch. C's behaviour there is undefined, and the model does not capture it.

## Findings

| source | as written | input that shows it | evidently intended | confidence | as-written member | corrected member |
|---|---|---|---|---|---|---|
| src/rmhd.c:177-182 | `harmonic_mean` returns 2 max(0, qp qm)/(qp + qm), and qp + qm = ur - ul, so it divides by zero whenever ul == ur | ul = u0 = ur (a flat stencil): 0/0, NaN in IEEE arithmetic | slope 0, the limit of the harmonic mean and what minmod gives there | not executed | Limiters.HarmonicMeanFlatStencil | Limiters.HarmonicMeanLimiter |
