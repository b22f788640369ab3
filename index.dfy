/** Arithmetic of row-major offsets: the position `i*n + j` of cell (i, j)
    in a flat storage of `m*n` cells with rows of length `n`. */
module Index {

  /** The row-major offset of cell (i, j) in rows of length n. */
  function At(i: nat, j: nat, n: nat): nat
  {
    i * n + j
  }

  lemma AtBound(i: nat, j: nat, m: nat, n: nat)
    requires i < m && j < n
    ensures At(i, j, n) < m * n
  {
    RowMajorBound(i, j, m, n);
  }

  lemma AtInjective(i: nat, j: nat, p: nat, q: nat, n: nat)
    requires j < n && q < n
    ensures At(i, j, n) == At(p, q, n) <==> i == p && j == q
  {
    if At(i, j, n) == At(p, q, n) {
      RowMajorInjective(i, j, p, q, n);
    }
  }

  /** Diagonal offsets are the multiples of n + 1 below n*n. */
  lemma DiagonalAt(i: nat, n: nat)
    ensures At(i, i, n) == i * (n + 1)
    ensures At(i, i, n) % (n + 1) == 0
  {
    assert i * (n + 1) == i * n + i;
    RowMajorDiv(i, 0, n + 1);
  }

  lemma MultipleBelowSquare(k: nat, n: nat)
    requires k < n * n && k % (n + 1) == 0
    ensures k / (n + 1) < n && k == At(k / (n + 1), k / (n + 1), n)
  {
    var p := k / (n + 1);
    assert k == p * (n + 1);
    assert p * (n + 1) == p * n + p;
    assert n * (n + 1) == n * n + n;
    if p >= n {
      MulMonotone(n, p, n + 1);
    }
  }

  lemma RowMajorBound(i: nat, j: nat, m: nat, n: nat)
    requires i < m && j < n
    ensures i * n + j < m * n
  {
    calc {
      i * n + j;
    <
      i * n + n;
    ==
      (i + 1) * n;
    <= { MulMonotone(i + 1, m, n); }
      m * n;
    }
  }

  lemma MulMonotone(a: nat, b: nat, n: nat)
    requires a <= b
    ensures a * n <= b * n
  {
    assert b * n == a * n + (b - a) * n;
  }

  lemma RowMajorInjective(i: nat, j: nat, p: nat, q: nat, n: nat)
    requires j < n && q < n
    requires i * n + j == p * n + q
    ensures i == p && j == q
  {
    if i < p {
      MulMonotone(i + 1, p, n);
    } else if p < i {
      MulMonotone(p + 1, i, n);
    }
  }

  /** Every offset below m*n is the offset of exactly the cell (k / n, k % n). */
  lemma RowMajorSplit(k: nat, m: nat, n: nat)
    requires k < m * n
    ensures n > 0 && k / n < m && k % n < n && (k / n) * n + k % n == k
  {
    if k / n >= m {
      MulMonotone(m, k / n, n);
    }
  }

  lemma RowMajorDiv(i: nat, j: nat, n: nat)
    requires j < n
    ensures (i * n + j) / n == i && (i * n + j) % n == j
  {
    var k := i * n + j;
    RowMajorInjective(i, j, k / n, k % n, n);
  }
}
