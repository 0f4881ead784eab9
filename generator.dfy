/** The input generator `random_init`: a unit upper triangular matrix U whose entries above the
    diagonal come from a stream of random draws, then, for k = 0, 1, ..., row k added into every
    row below it. The result is L * U with L unit lower triangular, which is what lets
    elimination run without pivoting. */
module Generator {
  import opened Matrices

  /** How many draws the rows before row i consume: row r takes one per column right of its
      diagonal, n - 1 - r in all. */
  function RowStart(n: nat, i: nat): (d: nat)
    requires i <= n
  {
    if i == 0 then 0 else RowStart(n, i - 1) + (n - i)
  }

  /** How many draws one call consumes. */
  function NumDraws(n: nat): (d: nat)
  {
    RowStart(n, n)
  }

  lemma {:induction false} RowStartMono(n: nat, i: nat, i': nat)
    requires i <= i' <= n
    ensures RowStart(n, i) <= RowStart(n, i')
    decreases i' - i
  {
    if i < i' {
      RowStartMono(n, i, i' - 1);
    }
  }

  /** One call consumes one draw per cell above the diagonal: n * (n - 1) / 2 of them. */
  lemma {:induction false} DrawCount(n: nat, i: nat)
    requires i <= n
    ensures 2 * RowStart(n, i) == i * (2 * n - 1 - i)
  {
    if i > 0 {
      DrawCount(n, i - 1);
      calc {
        2 * RowStart(n, i);
        2 * RowStart(n, i - 1) + 2 * (n - i);
        (i - 1) * (2 * n - i) + 2 * (n - i);
        i * (2 * n - 1 - i);
      }
    }
  }

  lemma NumDrawsIsTriangular(n: nat)
    ensures 2 * NumDraws(n) == n * (n - 1)
  {
    DrawCount(n, n);
  }

  /** The draw that lands in cell (i, j), i < j: rows are filled top to bottom and each row
      left to right. */
  function DrawAt(n: nat, draws: seq<real>, i: nat, j: nat): (x: real)
    requires i < j < n && |draws| >= NumDraws(n)
  {
    RowStartMono(n, i + 1, n);
    draws[RowStart(n, i) + (j - i - 1)]
  }

  /** The first phase: zeros below the diagonal, ones on it, draws above it. */
  function UnitUpperFrom(n: nat, draws: seq<real>): (U: Matrix)
    requires |draws| >= NumDraws(n)
    ensures |U| == n && Square(U) && UnitUpper(U)
    ensures forall i, j :: 0 <= i < j < n ==> U[i][j] == DrawAt(n, draws, i, j)
  {
    seq(n, i requires 0 <= i < n =>
      seq(n, j requires 0 <= j < n =>
        if j < i then 0.0 else if j == i then 1.0 else DrawAt(n, draws, i, j)))
  }

  /** One step k of the second phase: every row below row k gets row k added to it. */
  function RowsAdded(A: Matrix, k: nat): (R: Matrix)
    requires Square(A) && k < |A|
    ensures |R| == |A| && Square(R)
  {
    seq(|A|, i requires 0 <= i < |A| =>
      seq(|A|, j requires 0 <= j < |A| => if i > k then A[i][j] + A[k][j] else A[i][j]))
  }

  /** Steps 0 .. k - 1 of the second phase, in increasing order. */
  function Spread(A: Matrix, k: nat): (R: Matrix)
    requires Square(A) && k <= |A|
    ensures |R| == |A| && Square(R)
  {
    if k == 0 then A else RowsAdded(Spread(A, k - 1), k - 1)
  }

  /** What one call leaves in an n-by-n buffer. */
  function Generate(n: nat, draws: seq<real>): (M: Matrix)
    requires |draws| >= NumDraws(n)
    ensures |M| == n && Square(M)
  {
    Spread(UnitUpperFrom(n, draws), n)
  }

  /** Row r is final once the steps before it are done: later steps only change rows below
      their own. */
  lemma {:induction false} SpreadSettledRow(A: Matrix, k: nat, r: nat)
    requires Square(A) && r <= k <= |A| && r < |A|
    ensures Spread(A, k)[r] == Spread(A, r)[r]
    decreases k
  {
    if k > r {
      SpreadSettledRow(A, k - 1, r);
      assert RowsAdded(Spread(A, k - 1), k - 1)[r] == Spread(A, k - 1)[r];
    }
  }

  /** The first row of the generated matrix is the first row of the triangular one. */
  lemma GeneratedRowZero(n: nat, draws: seq<real>)
    requires |draws| >= NumDraws(n) && n > 0
    ensures Generate(n, draws)[0] == UnitUpperFrom(n, draws)[0]
  {
    SpreadSettledRow(UnitUpperFrom(n, draws), n, 0);
  }

  /** Adding row k into the rows below commutes with multiplying on the right. */
  lemma RowsAddedMul(X: Matrix, U: Matrix, k: nat)
    requires Square(X) && Square(U) && |X| == |U| && k < |X|
    ensures RowsAdded(Mul(X, U), k) == Mul(RowsAdded(X, k), U)
  {
    var n := |X|;
    var P, X' := Mul(X, U), RowsAdded(X, k);
    forall i, j | 0 <= i < n && 0 <= j < n
      ensures RowsAdded(P, k)[i][j] == Mul(X', U)[i][j]
    {
      if i > k {
        assert forall t :: 0 <= t < n ==> X'[i][t] == X[i][t] + X[k][t];
        DotFromAdd(X[i], X[k], X'[i], U, j, 0);
        assert RowsAdded(P, k)[i][j] == P[i][j] + P[k][j];
      } else {
        assert X'[i] == X[i];
      }
    }
    assert forall i :: 0 <= i < n ==> RowsAdded(P, k)[i] == Mul(X', U)[i];
  }

  /** Adding an earlier row into a later one keeps a matrix unit lower triangular. */
  lemma RowsAddedUnitLower(X: Matrix, k: nat)
    requires Square(X) && UnitLower(X) && k < |X|
    ensures UnitLower(RowsAdded(X, k))
  {
  }

  /** The second phase applied to U is L * U, where L is the same phase applied to the
      identity, and L stays unit lower triangular. */
  lemma {:induction false} SpreadFactors(U: Matrix, k: nat)
    requires Square(U) && k <= |U|
    ensures Spread(U, k) == Mul(Spread(Identity(|U|), k), U)
    ensures UnitLower(Spread(Identity(|U|), k))
  {
    var I := Identity(|U|);
    if k == 0 {
      IdentityTimes(U);
    } else {
      SpreadFactors(U, k - 1);
      RowsAddedMul(Spread(I, k - 1), U, k - 1);
      RowsAddedUnitLower(Spread(I, k - 1), k - 1);
    }
  }

  /** The generated matrix factors as (unit lower) * (the unit upper matrix of the first phase). */
  lemma GeneratedFactors(n: nat, draws: seq<real>)
    requires |draws| >= NumDraws(n)
    ensures Square(Spread(Identity(n), n)) && UnitLower(Spread(Identity(n), n))
    ensures Generate(n, draws) == Mul(Spread(Identity(n), n), UnitUpperFrom(n, draws))
  {
    SpreadFactors(UnitUpperFrom(n, draws), n);
  }

  /** Lines 17-23: fill the buffer with the unit upper triangular matrix, taking draws in row
      order; returns how many draws were taken. */
  method FillUnitUpper(m: array2<real>, draws: seq<real>) returns (used: nat)
    requires m.Length0 == m.Length1 && |draws| >= NumDraws(m.Length0)
    modifies m
    ensures used == NumDraws(m.Length0)
    ensures Matches(m, UnitUpperFrom(m.Length0, draws))
  {
    var n := m.Length0;
    ghost var U := UnitUpperFrom(n, draws);
    used := 0;
    for i := 0 to n
      invariant used == RowStart(n, i)
      invariant forall r, c :: 0 <= r < i && 0 <= c < n ==> m[r, c] == U[r][c]
    {
      for j := 0 to i
        invariant forall r, c :: 0 <= r < i && 0 <= c < n ==> m[r, c] == U[r][c]
        invariant forall c :: 0 <= c < j ==> m[i, c] == 0.0
      {
        m[i, j] := 0.0;
      }
      m[i, i] := 1.0;
      RowStartMono(n, i + 1, n);
      for j := i + 1 to n
        invariant used == RowStart(n, i) + (j - i - 1)
        invariant forall r, c :: 0 <= r < i && 0 <= c < n ==> m[r, c] == U[r][c]
        invariant forall c :: 0 <= c < j ==> m[i, c] == U[i][c]
      {
        m[i, j] := draws[used];
        used := used + 1;
      }
    }
  }

  /** Lines 25-29, one value of k: add row k into every row below it, column by column. */
  method AddRowToRowsBelow(m: array2<real>, k: nat, ghost A: Matrix)
    requires Matches(m, A) && k < |A|
    modifies m
    ensures Matches(m, RowsAdded(A, k))
    ensures forall i, j :: 0 <= i <= k && 0 <= j < |A| ==> m[i, j] == old(m[i, j])
    ensures forall i, j :: k < i < |A| && 0 <= j < |A| ==> m[i, j] == old(m[i, j]) + old(m[k, j])
  {
    var n := m.Length0;
    ghost var R := RowsAdded(A, k);
    for i := k + 1 to n
      invariant forall r, c :: 0 <= r < n && 0 <= c < n ==>
        m[r, c] == (if k < r < i then R[r][c] else A[r][c])
    {
      for j := 0 to n
        invariant forall r, c :: 0 <= r < n && 0 <= c < n ==>
          m[r, c] == (if k < r < i || (r == i && c < j) then R[r][c] else A[r][c])
      {
        m[i, j] := m[i, j] + m[k, j];
      }
    }
  }

  /** `random_init`: the buffer ends holding Generate(n, draws), and the call consumes
      NumDraws(n) draws (the engine's state carries over to the next call). */
  method RandomInit(m: array2<real>, draws: seq<real>) returns (used: nat)
    requires m.Length0 == m.Length1 && |draws| >= NumDraws(m.Length0)
    modifies m
    ensures used == NumDraws(m.Length0)
    ensures Matches(m, Generate(m.Length0, draws))
  {
    var n := m.Length0;
    used := FillUnitUpper(m, draws);
    ghost var U := UnitUpperFrom(n, draws);
    for k := 0 to n
      invariant Matches(m, Spread(U, k))
    {
      AddRowToRowsBelow(m, k, Spread(U, k));
    }
  }
}
