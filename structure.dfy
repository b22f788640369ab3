/** Entrywise definitions of the structural predicates of the matrix
    interface, for a `rows`×`cols` matrix whose entry (i, j) is `e(i, j)`.
    They are the reference the constant answers of the structural matrices
    are proved against. Triangular, Hessenberg, symmetric and orthogonal
    matrices are square by definition; a diagonal one need not be. */
module Structure {

  predicate Diagonal(rows: nat, cols: nat, e: (nat, nat) -> int)
  {
    forall i: nat, j: nat :: i < rows && j < cols && i != j ==> e(i, j) == 0
  }

  predicate Symmetric(rows: nat, cols: nat, e: (nat, nat) -> int)
  {
    rows == cols && forall i: nat, j: nat :: i < rows && j < cols ==> e(i, j) == e(j, i)
  }

  predicate LowerTriangular(rows: nat, cols: nat, e: (nat, nat) -> int)
  {
    rows == cols && forall i: nat, j: nat :: i < j < cols ==> e(i, j) == 0
  }

  predicate StrictlyLowerTriangular(rows: nat, cols: nat, e: (nat, nat) -> int)
  {
    rows == cols && forall i: nat, j: nat :: i <= j < cols ==> e(i, j) == 0
  }

  predicate UnitLowerTriangular(rows: nat, cols: nat, e: (nat, nat) -> int)
  {
    LowerTriangular(rows, cols, e) && forall i: nat :: i < rows ==> e(i, i) == 1
  }

  predicate LowerHessenberg(rows: nat, cols: nat, e: (nat, nat) -> int)
  {
    rows == cols && forall i: nat, j: nat :: i + 1 < j < cols ==> e(i, j) == 0
  }

  predicate UpperTriangular(rows: nat, cols: nat, e: (nat, nat) -> int)
  {
    rows == cols && forall i: nat, j: nat :: j < i < rows ==> e(i, j) == 0
  }

  predicate StrictlyUpperTriangular(rows: nat, cols: nat, e: (nat, nat) -> int)
  {
    rows == cols && forall i: nat, j: nat :: j <= i < rows ==> e(i, j) == 0
  }

  predicate UnitUpperTriangular(rows: nat, cols: nat, e: (nat, nat) -> int)
  {
    UpperTriangular(rows, cols, e) && forall i: nat :: i < rows ==> e(i, i) == 1
  }

  predicate UpperHessenberg(rows: nat, cols: nat, e: (nat, nat) -> int)
  {
    rows == cols && forall i: nat, j: nat :: j + 1 < i < rows ==> e(i, j) == 0
  }

  /** Dot product of rows i and j over the first k columns. */
  function RowDot(e: (nat, nat) -> int, i: nat, j: nat, k: nat): int
  {
    if k == 0 then 0 else RowDot(e, i, j, k - 1) + e(i, k - 1) * e(j, k - 1)
  }

  /** A times its transpose is the identity. */
  predicate Orthogonal(rows: nat, cols: nat, e: (nat, nat) -> int)
  {
    rows == cols &&
    forall i: nat, j: nat :: i < rows && j < rows ==> RowDot(e, i, j, cols) == (if i == j then 1 else 0)
  }
}
