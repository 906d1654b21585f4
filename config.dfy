/** The process-wide configuration record of the back-end (struct
    LibraryState) and the integer codes of its mode selectors. */
module Config {

  // enum RiemannSolverMode
  const RiemannSolverHLL: int := 0
  const RiemannSolverHLLC: int := 1

  // enum ReconstructMode
  const ReconstructPiecewiseConstant: int := 0
  const ReconstructPLM3Velocity: int := 1
  const ReconstructPLM4Velocity: int := 2

  // enum SlopeLimiterMode
  const SlopeLimiterMinmod: int := 0
  const SlopeLimiterMonotizedCentral: int := 1
  const SlopeLimiterHarmonicMean: int := 2

  // enum QuarticSolverMode
  const QuarticSolverExact: int := 0
  const QuarticSolverApprox1: int := 1
  const QuarticSolverApprox2: int := 2
  const QuarticSolverNone: int := 3

  /** struct LibraryState. The flags and modes are C ints: any value can be
      stored by set_state, and the switches give unknown values a default. */
  datatype LibraryState = LibraryState(
    consToPrimIter: int,
    consToPrimUseEstimate: int,
    consToPrimVerbose: int,
    maxLambda: real,
    adiabaticGamma: real,
    plmTheta: real,
    modeRiemannSolver: int,
    modeReconstruct: int,
    modeSlopeLimiter: int,
    modeQuarticSolver: int)

  /** The static initialiser of lib_state. */
  const InitialLibraryState: LibraryState :=
    LibraryState(0, 0, 0, 0.0, 1.4, 2.0,
                 RiemannSolverHLL, ReconstructPLM4Velocity,
                 SlopeLimiterMinmod, QuarticSolverExact)

  /** The fields of lib_state a sweep reads: the numerical scheme, without
      the counters (cons_to_prim_iter, max_lambda) the back-end updates. */
  datatype Scheme = Scheme(
    adiabaticGamma: real,
    plmTheta: real,
    modeRiemannSolver: int,
    modeReconstruct: int,
    modeQuarticSolver: int)

  function SchemeOf(st: LibraryState): (sch: Scheme)
    ensures sch.adiabaticGamma == st.adiabaticGamma && sch.plmTheta == st.plmTheta
    ensures sch.modeRiemannSolver == st.modeRiemannSolver && sch.modeReconstruct == st.modeReconstruct
    ensures sch.modeQuarticSolver == st.modeQuarticSolver
  {
    Scheme(st.adiabaticGamma, st.plmTheta, st.modeRiemannSolver, st.modeReconstruct, st.modeQuarticSolver)
  }
}
