/** Dense square matrices as values (rows of reals), the link between such a value and the
    n-by-n buffer the eliminators update in place, and the triangular shapes and the
    row-times-matrix sums that the generator and the eliminators are reasoned about with. */
module Matrices {

  /** A matrix value, row by row. */
  type Matrix = seq<seq<real>>

  /** Every row is as long as there are rows. */
  predicate Square(A: Matrix)
  {
    forall i :: 0 <= i < |A| ==> |A[i]| == |A|
  }

  /** The buffer `m` holds exactly the matrix value `A`. */
  ghost predicate Matches(m: array2<real>, A: Matrix)
    reads m
  {
    m.Length0 == |A| && m.Length1 == |A| && Square(A) &&
    forall i, j :: 0 <= i < |A| && 0 <= j < |A| ==> m[i, j] == A[i][j]
  }

  /** Ones on the diagonal and zeros below it. */
  predicate UnitUpper(A: Matrix)
    requires Square(A)
  {
    forall i, j :: 0 <= j <= i < |A| ==> A[i][j] == (if i == j then 1.0 else 0.0)
  }

  /** Ones on the diagonal and zeros above it. */
  predicate UnitLower(A: Matrix)
    requires Square(A)
  {
    forall i, j :: 0 <= i <= j < |A| ==> A[i][j] == (if i == j then 1.0 else 0.0)
  }

  /** The identity matrix of size n. */
  function Identity(n: nat): (I: Matrix)
    ensures |I| == n && Square(I) && UnitUpper(I) && UnitLower(I)
  {
    seq(n, i requires 0 <= i < n => seq(n, j requires 0 <= j < n => if i == j then 1.0 else 0.0))
  }

  /** The sum over t from `t0` to the end of x[t] * U[t][j]: the tail of entry j of the
      row vector x times U. */
  function DotFrom(x: seq<real>, U: Matrix, j: nat, t0: nat): (s: real)
    requires |U| == |x| && Square(U) && j < |U|
    decreases |x| - t0
  {
    if t0 >= |x| then 0.0 else x[t0] * U[t0][j] + DotFrom(x, U, j, t0 + 1)
  }

  /** The matrix product X * U. */
  function Mul(X: Matrix, U: Matrix): (P: Matrix)
    requires Square(X) && Square(U) && |X| == |U|
    ensures |P| == |X| && Square(P)
    ensures forall i, j :: 0 <= i < |P| && 0 <= j < |P| ==> P[i][j] == DotFrom(X[i], U, j, 0)
  {
    seq(|X|, i requires 0 <= i < |X| =>
      seq(|X|, j requires 0 <= j < |X| => DotFrom(X[i], U, j, 0)))
  }

  /** The tail sum is linear in the row vector. */
  lemma {:induction false} DotFromAdd(x: seq<real>, y: seq<real>, z: seq<real>, U: Matrix, j: nat, t0: nat)
    requires |x| == |y| == |z| == |U| && Square(U) && j < |U|
    requires forall t :: 0 <= t < |z| ==> z[t] == x[t] + y[t]
    ensures DotFrom(z, U, j, t0) == DotFrom(x, U, j, t0) + DotFrom(y, U, j, t0)
    decreases |x| - t0
  {
    if t0 < |x| {
      DotFromAdd(x, y, z, U, j, t0 + 1);
    }
  }

  /** Once past the diagonal of a unit upper triangular U, column j contributes nothing. */
  lemma {:induction false} DotFromBelowColumn(x: seq<real>, U: Matrix, j: nat, t0: nat)
    requires |U| == |x| && Square(U) && UnitUpper(U) && j < |U| && j < t0
    ensures DotFrom(x, U, j, t0) == 0.0
    decreases |x| - t0
  {
    if t0 < |x| {
      DotFromBelowColumn(x, U, j, t0 + 1);
    }
  }

  /** Past position t0 - 1 the row vector x is zero, so nothing is left to add. */
  lemma {:induction false} DotFromZeroTail(x: seq<real>, U: Matrix, j: nat, t0: nat)
    requires |U| == |x| && Square(U) && j < |U|
    requires forall t :: t0 <= t < |x| ==> x[t] == 0.0
    ensures DotFrom(x, U, j, t0) == 0.0
    decreases |x| - t0
  {
    if t0 < |x| {
      DotFromZeroTail(x, U, j, t0 + 1);
    }
  }

  /** The identity's row i picks out row i of U. */
  lemma IdentityTimes(U: Matrix)
    requires Square(U)
    ensures Mul(Identity(|U|), U) == U
  {
    var n := |U|;
    var I := Identity(n);
    forall i, j | 0 <= i < n && 0 <= j < n
      ensures Mul(I, U)[i][j] == U[i][j]
    {
      DotFromZeroTail(I[i], U, j, i + 1);
      DotFromZeroPrefix(I[i], U, j, i);
    }
    assert forall i :: 0 <= i < n ==> Mul(I, U)[i] == U[i];
  }

  /** Before position `p`, a row vector with zeros there contributes nothing: the tail from 0
      equals the tail from p. */
  lemma {:induction false} DotFromZeroPrefix(x: seq<real>, U: Matrix, j: nat, p: nat)
    requires |U| == |x| && Square(U) && j < |U| && p <= |x|
    requires forall t :: 0 <= t < p ==> x[t] == 0.0
    ensures DotFrom(x, U, j, 0) == DotFrom(x, U, j, p)
    decreases p
  {
    if p > 0 {
      DotFromZeroPrefix(x, U, j, p - 1);
    }
  }
}
