/** The reference eliminator `serial`: forward Gaussian elimination without pivoting, in place,
    leaving a unit upper triangular matrix. Pivot step k divides row k by its pivot and then
    subtracts multiples of row k from the rows below. */
module SerialElimination {
  import opened Matrices

  /** The pivot of step k is one `serial` divides by: every step but the last. At k = n - 1 the
      normalising loop is empty and the pivot is only overwritten with 1. */
  predicate DividesBy(B: Matrix, k: nat)
    requires Square(B) && k < |B|
  {
    k + 1 < |B|
  }

  /** Entry (i, j) after pivot step k. Cells left of column k or above row k are untouched. */
  function StepAt(B: Matrix, k: nat, i: nat, j: nat): (x: real)
    requires Square(B) && k < |B| && (DividesBy(B, k) ==> B[k][k] != 0.0) && i < |B| && j < |B|
  {
    if i < k || j < k then B[i][j]
    else if i == k then (if j == k then 1.0 else B[k][j] / B[k][k])
    else if j == k then 0.0
    else B[i][j] - B[i][k] * (B[k][j] / B[k][k])
  }

  /** The whole matrix after pivot step k. */
  function SerialStep(B: Matrix, k: nat): (R: Matrix)
    requires Square(B) && k < |B| && (DividesBy(B, k) ==> B[k][k] != 0.0)
    ensures |R| == |B| && Square(R)
  {
    seq(|B|, i requires 0 <= i < |B| => seq(|B|, j requires 0 <= j < |B| => StepAt(B, k, i, j)))
  }

  /** Every pivot that steps k, k + 1, ... divide by is non-zero, each read after the steps
      before it. The last pivot is never divided by, so it may be zero. */
  predicate CleanFrom(B: Matrix, k: nat)
    requires Square(B) && k <= |B|
    decreases |B| - k
  {
    k == |B| || ((DividesBy(B, k) ==> B[k][k] != 0.0) && CleanFrom(SerialStep(B, k), k + 1))
  }

  /** Every pivot that steps k, k + 1, ... meet is non-zero, the last one included. */
  predicate NonZeroPivotsFrom(B: Matrix, k: nat)
    requires Square(B) && k <= |B|
    decreases |B| - k
  {
    k == |B| || (B[k][k] != 0.0 && NonZeroPivotsFrom(SerialStep(B, k), k + 1))
  }

  /** Every pivot that steps k, k + 1, ... meet is exactly 1. */
  predicate UnitPivotsFrom(B: Matrix, k: nat)
    requires Square(B) && k <= |B|
    decreases |B| - k
  {
    k == |B| || (B[k][k] == 1.0 && UnitPivotsFrom(SerialStep(B, k), k + 1))
  }

  /** Pivot steps k, k + 1, ..., |B| - 1 in order. */
  function SerialFrom(B: Matrix, k: nat): (R: Matrix)
    requires Square(B) && k <= |B| && CleanFrom(B, k)
    ensures |R| == |B| && Square(R)
    decreases |B| - k
  {
    if k == |B| then B else SerialFrom(SerialStep(B, k), k + 1)
  }

  /** What `serial` leaves in the buffer. */
  function Eliminate(A: Matrix): (R: Matrix)
    requires Square(A) && CleanFrom(A, 0)
    ensures |R| == |A| && Square(R)
  {
    SerialFrom(A, 0)
  }

  /** Columns 0 .. k - 1 are done: ones on the diagonal, zeros below it. */
  predicate ReducedBefore(B: Matrix, k: nat)
    requires Square(B)
  {
    forall i, j :: 0 <= j < k && j <= i < |B| ==> B[i][j] == (if i == j then 1.0 else 0.0)
  }

  /** Pivots that are all 1 are in particular all non-zero. */
  lemma {:induction false} UnitPivotsAreNonZero(B: Matrix, k: nat)
    requires Square(B) && k <= |B| && UnitPivotsFrom(B, k)
    ensures NonZeroPivotsFrom(B, k)
    decreases |B| - k
  {
    if k < |B| {
      UnitPivotsAreNonZero(SerialStep(B, k), k + 1);
    }
  }

  /** If no pivot is zero, then no pivot `serial` divides by is zero. */
  lemma {:induction false} NonZeroPivotsAreClean(B: Matrix, k: nat)
    requires Square(B) && k <= |B| && NonZeroPivotsFrom(B, k)
    ensures CleanFrom(B, k)
    decreases |B| - k
  {
    if k < |B| {
      NonZeroPivotsAreClean(SerialStep(B, k), k + 1);
    }
  }

  /** The last pivot is never divided by: on [[0]] `serial` returns [[1]], and on [[1, 1], [1, 1]],
      whose second pivot is 0, it returns [[1, 1], [0, 1]]. Neither matrix has all its pivots
      non-zero. */
  lemma ZeroLastPivot()
    ensures CleanFrom([[0.0]], 0) && !NonZeroPivotsFrom([[0.0]], 0) && Eliminate([[0.0]]) == [[1.0]]
    ensures var B := [[1.0, 1.0], [1.0, 1.0]];
      CleanFrom(B, 0) && !NonZeroPivotsFrom(B, 0) && Eliminate(B) == [[1.0, 1.0], [0.0, 1.0]]
  {
    var Z := [[0.0]];
    assert SerialStep(Z, 0) == [[1.0]] by {
      assert SerialStep(Z, 0)[0][0] == StepAt(Z, 0, 0, 0) == 1.0;
      assert SerialStep(Z, 0)[0] == [1.0];
    }
    var B := [[1.0, 1.0], [1.0, 1.0]];
    var B1 := SerialStep(B, 0);
    assert B1 == [[1.0, 1.0], [0.0, 0.0]] by {
      assert B1[0][0] == StepAt(B, 0, 0, 0) == 1.0;
      assert B1[0][1] == StepAt(B, 0, 0, 1) == 1.0;
      assert B1[1][0] == StepAt(B, 0, 1, 0) == 0.0;
      assert B1[1][1] == StepAt(B, 0, 1, 1) == 0.0;
      assert B1[0] == [1.0, 1.0] && B1[1] == [0.0, 0.0];
    }
    var B2 := SerialStep(B1, 1);
    assert B2 == [[1.0, 1.0], [0.0, 1.0]] by {
      assert B2[0][0] == StepAt(B1, 1, 0, 0) == 1.0;
      assert B2[0][1] == StepAt(B1, 1, 0, 1) == 1.0;
      assert B2[1][0] == StepAt(B1, 1, 1, 0) == 0.0;
      assert B2[1][1] == StepAt(B1, 1, 1, 1) == 1.0;
      assert B2[0] == [1.0, 1.0] && B2[1] == [0.0, 1.0];
    }
  }

  /** Each step finishes its own column and keeps the finished ones, so the remaining steps
      end in a unit upper triangular matrix. */
  lemma {:induction false} SerialFromUnitUpper(B: Matrix, k: nat)
    requires Square(B) && k <= |B| && CleanFrom(B, k) && ReducedBefore(B, k)
    ensures UnitUpper(SerialFrom(B, k))
    decreases |B| - k
  {
    if k < |B| {
      var S := SerialStep(B, k);
      assert ReducedBefore(S, k + 1) by {
        forall i, j | 0 <= j < k + 1 && j <= i < |B|
          ensures S[i][j] == (if i == j then 1.0 else 0.0)
        {
          assert S[i][j] == StepAt(B, k, i, j);
        }
      }
      SerialFromUnitUpper(S, k + 1);
    }
  }

  /** After `serial` every diagonal entry is 1 and every entry below the diagonal is 0. */
  lemma EliminateIsUnitUpper(A: Matrix)
    requires Square(A) && CleanFrom(A, 0)
    ensures UnitUpper(Eliminate(A))
  {
    SerialFromUnitUpper(A, 0);
  }

  /** Steps k, k + 1, ... never touch rows above k or columns left of k. */
  lemma {:induction false} SerialFromFrame(B: Matrix, k: nat)
    requires Square(B) && k <= |B| && CleanFrom(B, k)
    ensures forall i, j :: 0 <= i < |B| && 0 <= j < |B| && (i < k || j < k) ==>
      SerialFrom(B, k)[i][j] == B[i][j]
    decreases |B| - k
  {
    if k < |B| {
      var S := SerialStep(B, k);
      SerialFromFrame(S, k + 1);
      forall i, j | 0 <= i < |B| && 0 <= j < |B| && (i < k || j < k)
        ensures SerialFrom(B, k)[i][j] == B[i][j]
      {
        assert S[i][j] == StepAt(B, k, i, j);
      }
    }
  }

  /** Lines 36-45, one value of k: normalise row k, then eliminate below it. */
  method PivotStep(m: array2<real>, k: nat, ghost B: Matrix)
    requires Matches(m, B) && k < |B| && (DividesBy(B, k) ==> B[k][k] != 0.0)
    modifies m
    ensures Matches(m, SerialStep(B, k))
    ensures forall i, j :: 0 <= i < |B| && 0 <= j < |B| && (i < k || j < k) ==> m[i, j] == old(m[i, j])
    ensures forall j :: k < j < |B| ==> m[k, j] == old(m[k, j]) / old(m[k, k])
  {
    var n := m.Length0;
    ghost var S := SerialStep(B, k);
    for j := k + 1 to n
      invariant forall r, c :: 0 <= r < n && 0 <= c < n ==>
        m[r, c] == (if r == k && k < c < j then S[r][c] else B[r][c])
    {
      m[k, j] := m[k, j] / m[k, k];
    }
    m[k, k] := 1.0;
    for i := k + 1 to n
      invariant forall r, c :: 0 <= r < n && 0 <= c < n ==>
        m[r, c] == (if r == k || k < r < i then S[r][c] else B[r][c])
    {
      for j := k + 1 to n
        invariant forall r, c :: 0 <= r < n && 0 <= c < n ==>
          m[r, c] == (if r == k || k < r < i || (r == i && k < c < j) then S[r][c] else B[r][c])
      {
        m[i, j] := m[i, j] - m[i, k] * m[k, j];
      }
      m[i, k] := 0.0;
    }
  }

  /** `serial`: the buffer ends holding Eliminate(A), which is unit upper triangular. Only the
      pivots it divides by need to be non-zero. */
  method Serial(m: array2<real>, ghost A: Matrix)
    requires Matches(m, A) && CleanFrom(A, 0)
    modifies m
    ensures Matches(m, Eliminate(A))
    ensures forall i, j :: 0 <= j <= i < |A| ==> m[i, j] == (if i == j then 1.0 else 0.0)
  {
    var n := m.Length0;
    ghost var B := A;
    for k := 0 to n
      invariant Matches(m, B) && |B| == n
      invariant CleanFrom(B, k) && SerialFrom(B, k) == Eliminate(A)
    {
      PivotStep(m, k, B);
      B := SerialStep(B, k);
    }
    EliminateIsUnitUpper(A);
  }
}
