/** Why the generator's matrices need no pivoting: eliminating L * U, with L unit lower and
    U unit upper triangular, meets the pivot 1 at every step and ends with U itself. The
    generator's output is such a product, so `serial` and `gauss_gpu` never divide by zero
    on it and exactly undo its second phase. */
module NoPivoting {
  import opened Matrices
  import opened Generator
  import opened SerialElimination
  import opened StagedElimination

  /** B is L * U after k pivot steps: rows above k are already rows of U, the columns left of
      k are zero below them, and the trailing block is L * U summed only from index k on. */
  predicate Factored(B: Matrix, L: Matrix, U: Matrix, k: nat)
    requires Square(B) && Square(L) && Square(U) && |B| == |L| == |U| && k <= |B|
  {
    (forall i, j :: 0 <= i < k && 0 <= j < |B| ==> B[i][j] == U[i][j]) &&
    (forall i, j :: k <= i < |B| && 0 <= j < k ==> B[i][j] == 0.0) &&
    (forall i, j :: k <= i < |B| && k <= j < |B| ==> B[i][j] == DotFrom(L[i], U, j, k))
  }

  /** One pivot step on such a state meets the pivot 1 and yields the state for k + 1. */
  lemma FactoredStep(B: Matrix, L: Matrix, U: Matrix, k: nat)
    requires Square(B) && Square(L) && Square(U) && |B| == |L| == |U| && k < |B|
    requires UnitLower(L) && UnitUpper(U) && Factored(B, L, U, k)
    ensures B[k][k] == 1.0
    ensures Factored(SerialStep(B, k), L, U, k + 1)
  {
    var n := |B|;
    DotFromBelowColumn(L[k], U, k, k + 1);
    assert B[k][k] == 1.0;
    var S := SerialStep(B, k);
    forall j | 0 <= j < n
      ensures S[k][j] == U[k][j]
    {
      assert S[k][j] == StepAt(B, k, k, j);
      if j > k {
        DotFromZeroTail(L[k], U, j, k + 1);
      }
    }
    forall i, j | k + 1 <= i < n && 0 <= j < k + 1
      ensures S[i][j] == 0.0
    {
      assert S[i][j] == StepAt(B, k, i, j);
    }
    forall i, j | k + 1 <= i < n && k + 1 <= j < n
      ensures S[i][j] == DotFrom(L[i], U, j, k + 1)
    {
      assert S[i][j] == StepAt(B, k, i, j);
      DotFromBelowColumn(L[i], U, k, k + 1);
      DotFromZeroTail(L[k], U, j, k + 1);
    }
  }

  /** From such a state every remaining pivot is 1 and elimination ends in U. */
  lemma {:induction false} FactoredRun(B: Matrix, L: Matrix, U: Matrix, k: nat)
    requires Square(B) && Square(L) && Square(U) && |B| == |L| == |U| && k <= |B|
    requires UnitLower(L) && UnitUpper(U) && Factored(B, L, U, k)
    ensures UnitPivotsFrom(B, k) && NonZeroPivotsFrom(B, k) && CleanFrom(B, k)
    ensures SerialFrom(B, k) == U
    decreases |B| - k
  {
    if k == |B| {
      assert forall i :: 0 <= i < |B| ==> B[i] == U[i];
    } else {
      FactoredStep(B, L, U, k);
      FactoredRun(SerialStep(B, k), L, U, k + 1);
    }
    UnitPivotsAreNonZero(B, k);
    NonZeroPivotsAreClean(B, k);
  }

  /** Elimination without pivoting of L * U meets only pivots equal to 1 and recovers U. */
  lemma EliminationUndoesProduct(L: Matrix, U: Matrix)
    requires Square(L) && Square(U) && |L| == |U| && UnitLower(L) && UnitUpper(U)
    ensures UnitPivotsFrom(Mul(L, U), 0) && NonZeroPivotsFrom(Mul(L, U), 0) && CleanFrom(Mul(L, U), 0)
    ensures Eliminate(Mul(L, U)) == U
  {
    FactoredRun(Mul(L, U), L, U, 0);
  }

  /** On a generated matrix every pivot `serial` reads is exactly 1, and elimination gives back
      the unit upper triangular matrix of the generator's first phase. */
  lemma GeneratedNeedsNoPivoting(n: nat, draws: seq<real>)
    requires |draws| >= NumDraws(n)
    ensures UnitPivotsFrom(Generate(n, draws), 0) && NonZeroPivotsFrom(Generate(n, draws), 0)
    ensures CleanFrom(Generate(n, draws), 0)
    ensures Eliminate(Generate(n, draws)) == UnitUpperFrom(n, draws)
  {
    GeneratedFactors(n, draws);
    EliminationUndoesProduct(Spread(Identity(n), n), UnitUpperFrom(n, draws));
  }

  /** One trial's call sequence (lines 84-85 and 88-90, without the timing): fill the buffer
      with `random_init`, then run one of the eliminators on it. Each meets its precondition,
      `gauss_gpu` also with stage 1 as written, and each leaves the first phase's triangular
      matrix. */
  method InitThenEliminate(m: array2<real>, draws: seq<real>, algorithm: Algorithm) returns (used: nat)
    requires m.Length0 == m.Length1 && |draws| >= NumDraws(m.Length0)
    modifies m
    ensures used == NumDraws(m.Length0)
    ensures Matches(m, UnitUpperFrom(m.Length0, draws))
  {
    used := RandomInit(m, draws);
    ghost var A := Generate(m.Length0, draws);
    GeneratedNeedsNoPivoting(m.Length0, draws);
    match algorithm
    case SerialAlgorithm => Serial(m, A);
    case GpuAlgorithm => GaussGpu(m, A);
    case GpuInLaneOrder => GaussGpuInLaneOrder(m, A);
  }

  /** Which eliminator a trial runs. */
  datatype Algorithm = SerialAlgorithm | GpuAlgorithm | GpuInLaneOrder
}
