/** The staged eliminator `gauss_gpu`: each pivot step k is submitted as three kernels, run
    one after the other, each a parallel loop whose lanes touch disjoint cells:
      stage 1, lanes j in [k, n):            m[k][j] := m[k][j] / pivot
      stage 2, lanes (i, j) in (k, n)^2:     m[i][j] := m[i][j] - m[i][k] * m[k][j]
      stage 3, lanes i in (k, n):            m[i][k] := 0
    Each kernel is modelled by a sequential loop over its lanes. Stage 1 divides by the pivot
    as it stood before the stage began; LaneOrderNormalizedRow is the same stage when every
    lane re-reads m[k][k], which the lane j = k overwrites. */
module StagedElimination {
  import opened Matrices
  import opened SerialElimination

  /** Stage 1: row k, from column k on, divided by `pivot`. */
  function NormalizedRow(B: Matrix, k: nat, pivot: real): (R: Matrix)
    requires Square(B) && k < |B| && pivot != 0.0
    ensures |R| == |B| && Square(R)
  {
    seq(|B|, i requires 0 <= i < |B| => seq(|B|, j requires 0 <= j < |B| =>
      if i == k && j >= k then B[k][j] / pivot else B[i][j]))
  }

  /** Stage 2: the trailing block below and right of (k, k) loses column k times row k. */
  function UpdatedTrailing(B: Matrix, k: nat): (R: Matrix)
    requires Square(B) && k < |B|
    ensures |R| == |B| && Square(R)
  {
    seq(|B|, i requires 0 <= i < |B| => seq(|B|, j requires 0 <= j < |B| =>
      if i > k && j > k then B[i][j] - B[i][k] * B[k][j] else B[i][j]))
  }

  /** Stage 3: column k below the diagonal set to zero. */
  function ZeroedColumn(B: Matrix, k: nat): (R: Matrix)
    requires Square(B) && k < |B|
    ensures |R| == |B| && Square(R)
  {
    seq(|B|, i requires 0 <= i < |B| => seq(|B|, j requires 0 <= j < |B| =>
      if i > k && j == k then 0.0 else B[i][j]))
  }

  /** The three stages of step k, stage 1 dividing by the pivot captured before it, compute
      exactly pivot step k of `serial`. */
  lemma StagesMatchSerialStep(B: Matrix, k: nat)
    requires Square(B) && k < |B| && B[k][k] != 0.0
    ensures ZeroedColumn(UpdatedTrailing(NormalizedRow(B, k, B[k][k]), k), k) == SerialStep(B, k)
  {
    var N := NormalizedRow(B, k, B[k][k]);
    var Z := ZeroedColumn(UpdatedTrailing(N, k), k);
    var S := SerialStep(B, k);
    forall i, j | 0 <= i < |B| && 0 <= j < |B|
      ensures Z[i][j] == S[i][j]
    {
      assert S[i][j] == StepAt(B, k, i, j);
      if i == k && j == k {
        DivSelf(B[k][k]);
      }
    }
    assert forall i :: 0 <= i < |B| ==> Z[i] == S[i];
  }

  lemma DivSelf(x: real)
    requires x != 0.0
    ensures x / x == 1.0
  {
  }

  /** Stage 1 as written, its lanes run in index order: lane j = k stores m[k][k] / m[k][k],
      and every later lane divides by what is then in m[k][k]. */
  function LaneOrderNormalizedRow(B: Matrix, k: nat): (R: Matrix)
    requires Square(B) && k < |B| && B[k][k] != 0.0
    ensures |R| == |B| && Square(R)
  {
    var stored := B[k][k] / B[k][k];
    seq(|B|, i requires 0 <= i < |B| => seq(|B|, j requires 0 <= j < |B| =>
      if i == k && j == k then stored
      else if i == k && j > k then B[k][j] / stored
      else B[i][j]))
  }

  /** With lanes re-reading the pivot, stage 1 no longer normalises row k: on the 2-by-2
      matrix [[2, 4], [1, 3]] step 0 leaves 4 where `serial` leaves 2, and the whole step
      differs from `serial`'s. */
  lemma LaneOrderDiffersFromSerial()
    ensures var B := [[2.0, 4.0], [1.0, 3.0]];
      LaneOrderNormalizedRow(B, 0)[0][1] == 4.0 &&
      SerialStep(B, 0)[0][1] == 2.0 &&
      ZeroedColumn(UpdatedTrailing(LaneOrderNormalizedRow(B, 0), 0), 0) != SerialStep(B, 0)
  {
    var B := [[2.0, 4.0], [1.0, 3.0]];
    assert SerialStep(B, 0)[0][1] == StepAt(B, 0, 0, 1) == 2.0;
    assert ZeroedColumn(UpdatedTrailing(LaneOrderNormalizedRow(B, 0), 0), 0)[0][1] == 4.0;
  }

  /** When the pivot is already 1, the order of the lanes does not matter. */
  lemma LaneOrderHarmlessOnUnitPivot(B: Matrix, k: nat)
    requires Square(B) && k < |B| && B[k][k] == 1.0
    ensures LaneOrderNormalizedRow(B, k) == NormalizedRow(B, k, 1.0)
  {
    var L, N := LaneOrderNormalizedRow(B, k), NormalizedRow(B, k, 1.0);
    assert forall i :: 0 <= i < |B| ==> L[i] == N[i];
  }

  /** Stage 1 (lines 52-58), with the pivot read before the kernel: lane idx handles column
      k + idx. Only row k, from column k on, is written. */
  method NormalizeRow(m: array2<real>, k: nat, pivot: real, ghost B: Matrix)
    requires Matches(m, B) && k < |B| && pivot != 0.0
    modifies m
    ensures Matches(m, NormalizedRow(B, k, pivot))
    ensures forall i, j :: 0 <= i < |B| && 0 <= j < |B| && !(i == k && j >= k) ==> m[i, j] == old(m[i, j])
  {
    var n := m.Length0;
    ghost var R := NormalizedRow(B, k, pivot);
    for idx := 0 to n - k
      invariant forall r, c :: 0 <= r < n && 0 <= c < n ==>
        m[r, c] == (if r == k && k <= c < k + idx then R[r][c] else B[r][c])
    {
      var j := k + idx;
      m[k, j] := m[k, j] / pivot;
    }
  }

  /** Stage 1 exactly as written (lines 54-57), its lanes in index order, each reading m[k][k]
      when it runs. */
  method NormalizeRowInLaneOrder(m: array2<real>, k: nat, ghost B: Matrix)
    requires Matches(m, B) && k < |B| && B[k][k] != 0.0
    modifies m
    ensures Matches(m, LaneOrderNormalizedRow(B, k))
  {
    var n := m.Length0;
    ghost var R := LaneOrderNormalizedRow(B, k);
    for idx := 0 to n - k
      invariant idx > 0 ==> m[k, k] == B[k][k] / B[k][k]
      invariant forall r, c :: 0 <= r < n && 0 <= c < n ==>
        m[r, c] == (if r == k && k <= c < k + idx then R[r][c] else B[r][c])
    {
      var j := k + idx;
      m[k, j] := m[k, j] / m[k, k];
    }
  }

  /** Stage 2 (lines 61-68): lane (idx0, idx1) handles cell (k + 1 + idx0, k + 1 + idx1). It
      reads column k and row k, which no lane of this stage writes. */
  method UpdateTrailing(m: array2<real>, k: nat, ghost B: Matrix)
    requires Matches(m, B) && k < |B|
    modifies m
    ensures Matches(m, UpdatedTrailing(B, k))
    ensures forall i, j :: 0 <= i < |B| && 0 <= j < |B| && (i <= k || j <= k) ==> m[i, j] == old(m[i, j])
  {
    var n := m.Length0;
    ghost var R := UpdatedTrailing(B, k);
    for idx0 := 0 to n - (k + 1)
      invariant forall r, c :: 0 <= r < n && 0 <= c < n ==>
        m[r, c] == (if k < r < k + 1 + idx0 && k < c then R[r][c] else B[r][c])
    {
      for idx1 := 0 to n - (k + 1)
        invariant forall r, c :: 0 <= r < n && 0 <= c < n ==>
          m[r, c] == (if (k < r < k + 1 + idx0 && k < c) || (r == k + 1 + idx0 && k < c < k + 1 + idx1)
                      then R[r][c] else B[r][c])
      {
        var i := k + 1 + idx0;
        var j := k + 1 + idx1;
        m[i, j] := m[i, j] - m[i, k] * m[k, j];
      }
    }
  }

  /** Stage 3 (lines 71-77): lane idx zeroes cell (k + 1 + idx, k). */
  method ZeroColumn(m: array2<real>, k: nat, ghost B: Matrix)
    requires Matches(m, B) && k < |B|
    modifies m
    ensures Matches(m, ZeroedColumn(B, k))
    ensures forall i, j :: 0 <= i < |B| && 0 <= j < |B| && !(i > k && j == k) ==> m[i, j] == old(m[i, j])
  {
    var n := m.Length0;
    ghost var R := ZeroedColumn(B, k);
    for idx := 0 to n - (k + 1)
      invariant forall r, c :: 0 <= r < n && 0 <= c < n ==>
        m[r, c] == (if k < r < k + 1 + idx && c == k then R[r][c] else B[r][c])
    {
      var i := k + 1 + idx;
      m[i, k] := 0.0;
    }
  }

  /** `gauss_gpu`: the three stages per pivot step, in submission order, leave in the buffer
      exactly what `serial` leaves, a unit upper triangular matrix. Unlike `serial`, stage 1
      divides the last pivot by itself, so every pivot must be non-zero. */
  method GaussGpu(m: array2<real>, ghost A: Matrix)
    requires Matches(m, A) && NonZeroPivotsFrom(A, 0)
    modifies m
    ensures CleanFrom(A, 0) && Matches(m, Eliminate(A))
    ensures forall i, j :: 0 <= j <= i < |A| ==> m[i, j] == (if i == j then 1.0 else 0.0)
  {
    var n := m.Length0;
    NonZeroPivotsAreClean(A, 0);
    ghost var B := A;
    for k := 0 to n
      invariant Matches(m, B) && |B| == n
      invariant NonZeroPivotsFrom(B, k) && CleanFrom(B, k) && SerialFrom(B, k) == Eliminate(A)
    {
      var pivot := m[k, k];
      NormalizeRow(m, k, pivot, B);
      ghost var B1 := NormalizedRow(B, k, pivot);
      UpdateTrailing(m, k, B1);
      ZeroColumn(m, k, UpdatedTrailing(B1, k));
      StagesMatchSerialStep(B, k);
      B := SerialStep(B, k);
    }
    EliminateIsUnitUpper(A);
  }

  /** `gauss_gpu` exactly as written, stage 1's lanes in index order each re-reading m[k][k]:
      when every pivot met is exactly 1, as on the generator's matrices in exact arithmetic, it
      still leaves what `serial` leaves. */
  method GaussGpuInLaneOrder(m: array2<real>, ghost A: Matrix)
    requires Matches(m, A) && UnitPivotsFrom(A, 0)
    modifies m
    ensures CleanFrom(A, 0) && Matches(m, Eliminate(A))
  {
    var n := m.Length0;
    UnitPivotsAreNonZero(A, 0);
    NonZeroPivotsAreClean(A, 0);
    ghost var B := A;
    for k := 0 to n
      invariant Matches(m, B) && |B| == n
      invariant UnitPivotsFrom(B, k) && CleanFrom(B, k) && SerialFrom(B, k) == Eliminate(A)
    {
      NormalizeRowInLaneOrder(m, k, B);
      LaneOrderHarmlessOnUnitPivot(B, k);
      ghost var B1 := NormalizedRow(B, k, 1.0);
      UpdateTrailing(m, k, B1);
      ZeroColumn(m, k, UpdatedTrailing(B1, k));
      StagesMatchSerialStep(B, k);
      B := SerialStep(B, k);
    }
  }
}
