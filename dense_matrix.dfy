/** The dense matrix: m*n cells in one flat storage, read row by row
    (RowMajor) or column by column (ColMajor). Transposing only flips the
    read order; the storage never moves. */
module Dense {
  import opened Common
  import Index

  datatype DenseMatrix = DenseMatrix(readOrder: ReadOrder, m: nat, n: nat, mat: seq<int>)

  /** The storage holds exactly the m*n cells the dimensions announce. */
  predicate Valid(d: DenseMatrix)
  {
    |d.mat| == d.m * d.n
  }

  function Rows(d: DenseMatrix): nat
  {
    match d.readOrder
    case RowMajor => d.m
    case ColMajor => d.n
  }

  function Cols(d: DenseMatrix): nat
  {
    match d.readOrder
    case RowMajor => d.n
    case ColMajor => d.m
  }

  function Dims(d: DenseMatrix): (nat, nat)
  {
    (Rows(d), Cols(d))
  }

  /** The storage offset `element(i, j)` reads: n*i + j under RowMajor and
      m*j + i under ColMajor. The column-major formula is the transpose's
      offset only when m == n. */
  function Offset(d: DenseMatrix, i: nat, j: nat): nat
  {
    match d.readOrder
    case RowMajor => Index.At(i, j, d.n)
    case ColMajor => Index.At(j, i, d.m)
  }

  /** Every logical read inside rows×cols falls inside the storage, so no
      `element` call inside the grid fails. */
  predicate Readable(d: DenseMatrix)
  {
    Valid(d) &&
    forall i: nat, j: nat :: i < Rows(d) && j < Cols(d) ==> Offset(d, i, j) < |d.mat|
  }

  function Element(d: DenseMatrix, i: nat, j: nat): (r: Option<int>)
    requires Offset(d, i, j) < |d.mat|
  {
    Some(d.mat[Offset(d, i, j)])
  }

  /** Reads indexed by the raw dimensions (i < m, j < n), as `is_diagonal`
      makes them, stay inside a valid storage in either read order. */
  lemma StorageOffsets(d: DenseMatrix)
    requires Valid(d)
    ensures forall i: nat, j: nat :: i < d.m && j < d.n ==> Offset(d, i, j) < |d.mat|
  {
    forall i: nat, j: nat | i < d.m && j < d.n
      ensures Offset(d, i, j) < |d.mat|
    {
      Index.AtBound(i, j, d.m, d.n);
      Index.AtBound(j, i, d.n, d.m);
    }
  }

  /** A valid matrix read row by row, or a valid square one read either way,
      is readable everywhere inside its grid. */
  lemma ReadableWhenRowMajorOrSquare(d: DenseMatrix)
    requires Valid(d) && (d.readOrder == RowMajor || d.m == d.n)
    ensures Readable(d)
  {
    StorageOffsets(d);
  }

  /** In a valid row-major or square matrix every storage cell is the
      entry of some cell of the grid. */
  lemma CellOf(d: DenseMatrix, k: nat) returns (i: nat, j: nat)
    requires Valid(d) && (d.readOrder == RowMajor || d.m == d.n) && k < |d.mat|
    ensures i < Rows(d) && j < Cols(d) && Offset(d, i, j) == k
  {
    Index.RowMajorSplit(k, d.m, d.n);
    if d.readOrder == RowMajor {
      i, j := k / d.n, k % d.n;
    } else {
      i, j := k % d.n, k / d.n;
    }
  }

  /** `from_vec`: takes the storage as given, RowMajor unless told otherwise.
      The storage length is not checked against m*n. */
  function FromVec(mat: seq<int>, m: nat, n: nat, readOrder: Option<ReadOrder>): (r: DenseMatrix)
    ensures r.mat == mat && r.m == m && r.n == n
    ensures r.readOrder == (if readOrder.Some? then readOrder.value else RowMajor)
    ensures |mat| == m * n ==> Valid(r)
  {
    DenseMatrix(if readOrder.None? then RowMajor else readOrder.value, m, n, mat)
  }

  /** `new`: flattens a list of rows, refusing an empty list and ragged rows. */
  method New(rows: seq<seq<int>>) returns (r: Result<DenseMatrix>)
    ensures r.Err? <==> |rows| == 0 || exists k :: 0 <= k < |rows| && |rows[k]| != |rows[0]|
    ensures r.Ok? ==> r.value.readOrder == RowMajor && Valid(r.value)
    ensures r.Ok? ==> Dims(r.value) == (|rows|, |rows[0]|)
    ensures r.Ok? ==> forall i: nat, j: nat :: i < |rows| && j < |rows[0]| ==>
      Offset(r.value, i, j) < |r.value.mat| && Element(r.value, i, j) == Some(rows[i][j])
  {
    if |rows| == 0 {
      return Err(InvalidDimensions);
    }
    var n := |rows[0]|;
    var flat: seq<int> := [];
    for i := 0 to |rows|
      invariant forall k :: 0 <= k < i ==> |rows[k]| == n
      invariant |flat| == i * n
      invariant forall p: nat, q: nat :: p < i && q < n ==>
        Index.At(p, q, n) < |flat| && flat[Index.At(p, q, n)] == rows[p][q]
    {
      if |rows[i]| != n {
        return Err(InvalidDimensions);
      }
      var j := 0;
      while j < n
        invariant j <= n
        invariant |flat| == i * n + j
        invariant forall p: nat, q: nat :: p < i && q < n ==>
          Index.At(p, q, n) < |flat| && flat[Index.At(p, q, n)] == rows[p][q]
        invariant forall q: nat :: q < j ==>
          Index.At(i, q, n) < |flat| && flat[Index.At(i, q, n)] == rows[i][q]
      {
        flat := flat + [rows[i][j]];
        j := j + 1;
      }
      assert (i + 1) * n == i * n + n;
    }
    r := Ok(DenseMatrix(RowMajor, |rows|, n, flat));
  }

  /** `zeros(m, n)`: m*n zeros, read row by row. */
  function Zeros(m: nat, n: nat): (r: DenseMatrix)
    ensures Valid(r) && r.readOrder == RowMajor && Dims(r) == (m, n)
    ensures forall i: nat, j: nat :: i < m && j < n ==>
      Offset(r, i, j) < |r.mat| && Element(r, i, j) == Some(0)
  {
    var r := DenseMatrix(RowMajor, m, n, seq(m * n, _ => 0));
    StorageOffsets(r);
    r
  }

  /** `identity(n)`: n*n zeros with a one written at each offset i*n + i. */
  method Identity(n: nat) returns (r: DenseMatrix)
    ensures Valid(r) && r.readOrder == RowMajor && Dims(r) == (n, n)
    ensures forall i: nat, j: nat :: i < n && j < n ==>
      Offset(r, i, j) < |r.mat| && Element(r, i, j) == Some(if i == j then 1 else 0)
  {
    var a := new int[n * n](_ => 0);
    forall p: nat, q: nat | p < n && q < n
      ensures Index.At(p, q, n) < a.Length
    {
      Index.AtBound(p, q, n, n);
    }
    for i := 0 to n
      invariant forall p: nat, q: nat :: p < n && q < n ==>
        a[Index.At(p, q, n)] == (if p == q && p < i then 1 else 0)
    {
      forall p: nat, q: nat | p < n && q < n
        ensures Index.At(p, q, n) == Index.At(i, i, n) <==> p == i && q == i
      {
        Index.AtInjective(p, q, i, i, n);
      }
      a[Index.At(i, i, n)] := 1;
    }
    r := DenseMatrix(RowMajor, n, n, a[..]);
  }

  /** `flip_read_order`: the storage stays, the dimensions swap. */
  function FlipReadOrder(d: DenseMatrix): (r: DenseMatrix)
    ensures r.readOrder != d.readOrder
    ensures r.m == d.m && r.n == d.n && r.mat == d.mat
    ensures Dims(r) == (Cols(d), Rows(d))
    ensures Valid(r) == Valid(d)
  {
    d.(readOrder := d.readOrder.Flip())
  }

  /** `transpose` never moves the storage: it only flips the read order. */
  function Transpose(d: DenseMatrix): (r: DenseMatrix)
    ensures r == FlipReadOrder(d)
  {
    FlipReadOrder(d)
  }

  lemma TransposeInvolution(d: DenseMatrix)
    ensures Transpose(Transpose(d)) == d
  {
    FlipInvolution(d.readOrder);
  }

  /** For a square matrix, whatever its read order, the transpose's entry
      (j, i) is the entry (i, j). */
  lemma TransposeSquare(d: DenseMatrix, i: nat, j: nat)
    requires Valid(d) && d.m == d.n && i < d.n && j < d.n
    ensures Offset(d, i, j) < |d.mat| && Offset(Transpose(d), j, i) < |d.mat|
    ensures Element(Transpose(d), j, i) == Element(d, i, j)
  {
    StorageOffsets(d);
    StorageOffsets(Transpose(d));
  }

  /** For a non-square row-major matrix the column-major read m*j + i does
      not give the transpose: for the 2×3 matrix [[1, 2, 3], [4, 5, 6]] the
      transpose's entry (0, 1) reads 3, while the entry (1, 0) is 4. */
  lemma TransposeNonSquareMisreads()
    ensures var d := DenseMatrix(RowMajor, 2, 3, [1, 2, 3, 4, 5, 6]);
      Offset(Transpose(d), 0, 1) < |d.mat| && Offset(d, 1, 0) < |d.mat| &&
      Element(Transpose(d), 0, 1) == Some(3) && Element(d, 1, 0) == Some(4)
  {
  }

  /** `elements`: the raw storage, whatever the read order. */
  function Elements(d: DenseMatrix): (r: seq<int>)
  {
    d.mat
  }

  /** For a valid row-major matrix the storage lists the entries in row-major
      order; a transpose lists the very same storage. */
  lemma ElementsRowMajor(d: DenseMatrix)
    requires Valid(d) && d.readOrder == RowMajor
    ensures |Elements(d)| == Rows(d) * Cols(d)
    ensures forall i: nat, j: nat :: i < Rows(d) && j < Cols(d) ==>
      Index.At(i, j, Cols(d)) < |Elements(d)| && Offset(d, i, j) < |d.mat| &&
      Some(Elements(d)[Index.At(i, j, Cols(d))]) == Element(d, i, j)
    ensures Elements(Transpose(d)) == Elements(d)
  {
    forall i: nat, j: nat | i < Rows(d) && j < Cols(d)
      ensures Index.At(i, j, Cols(d)) < |Elements(d)| && Offset(d, i, j) < |d.mat|
    {
      Index.AtBound(i, j, d.m, d.n);
    }
  }

  function MinDim(d: DenseMatrix): nat
  {
    if Rows(d) < Cols(d) then Rows(d) else Cols(d)
  }

  /** The diagonal: element(i, i) for i below min(rows, cols). */
  function Diags(d: DenseMatrix): (r: seq<int>)
    requires Readable(d)
    ensures |r| == MinDim(d)
    ensures forall i :: 0 <= i < |r| ==> Offset(d, i, i) < |d.mat| && Element(d, i, i) == Some(r[i])
  {
    seq(MinDim(d), i requires 0 <= i < MinDim(d) => Element(d, i, i).value)
  }

  /** What `is_diagonal` checks: every cell off the diagonal, indexed by the
      raw dimensions, reads zero. */
  predicate IsDiagonalSpec(d: DenseMatrix)
    requires Valid(d)
  {
    StorageOffsets(d);
    forall i: nat, j: nat :: i < d.m && j < d.n && i != j ==> Element(d, i, j) == Some(0)
  }

  method IsDiagonal(d: DenseMatrix) returns (b: bool)
    requires Valid(d)
    ensures b == IsDiagonalSpec(d)
  {
    StorageOffsets(d);
    for i := 0 to d.m
      invariant forall p: nat, q: nat :: p < i && q < d.n && p != q ==> Element(d, p, q) == Some(0)
    {
      for j := 0 to d.n
        invariant forall p: nat, q: nat :: (p < i || (p == i && q < j)) && q < d.n && p != q ==>
          Element(d, p, q) == Some(0)
      {
        if i != j && Element(d, i, j) != Some(0) {
          return false;
        }
      }
    }
    return true;
  }

  /** For a row-major or square matrix, `is_diagonal` is exactly "every
      logical off-diagonal entry is zero". */
  lemma IsDiagonalLogical(d: DenseMatrix)
    requires Valid(d) && (d.readOrder == RowMajor || d.m == d.n)
    ensures Readable(d)
    ensures IsDiagonalSpec(d) <==>
      forall i: nat, j: nat :: i < Rows(d) && j < Cols(d) && i != j ==> Element(d, i, j) == Some(0)
  {
    ReadableWhenRowMajorOrSquare(d);
  }

  /** The sum of the storage cells off, off + step, off + 2*step, ... */
  function StrideSum(s: seq<int>, off: nat, step: nat): int
    requires step > 0
    decreases |s| - off
  {
    if off >= |s| then 0 else s[off] + StrideSum(s, off + step, step)
  }

  /** `trace` as written: it sums the offsets 0, n + 1, 2(n + 1), ... below
      n*m. */
  method Trace(d: DenseMatrix) returns (t: int)
    requires Valid(d)
    ensures t == StrideSum(d.mat, 0, d.n + 1)
  {
    t := 0;
    var i: nat := 0;
    while i < d.n * d.m
      invariant t + StrideSum(d.mat, i, d.n + 1) == StrideSum(d.mat, 0, d.n + 1)
      decreases d.n * d.m - i
    {
      t := t + d.mat[i];
      i := i + d.n + 1;
    }
  }

  function StorageMinDim(d: DenseMatrix): nat
  {
    if d.m < d.n then d.m else d.n
  }

  /** The intended trace: the storage diagonal, cells i*n + i for i below
      min(m, n), summed from position k on. The diagonal of the transpose
      is the same storage diagonal, so one definition serves both read
      orders. */
  function DiagonalSum(d: DenseMatrix, k: nat): int
    requires Valid(d)
    decreases StorageMinDim(d) - k
  {
    if k >= StorageMinDim(d) then 0
    else
      Index.AtBound(k, k, d.m, d.n);
      d.mat[Index.At(k, k, d.n)] + DiagonalSum(d, k + 1)
  }

  /** For a row-major or square matrix, the intended trace is the sum of
      `diags`. */
  lemma {:induction false} DiagonalSumIsDiags(d: DenseMatrix, k: nat)
    requires Valid(d) && (d.readOrder == RowMajor || d.m == d.n) && k <= MinDim(d)
    ensures Readable(d)
    ensures DiagonalSum(d, k) == Sum(Diags(d)[k..])
    decreases MinDim(d) - k
  {
    ReadableWhenRowMajorOrSquare(d);
    if k < MinDim(d) {
      DiagonalSumIsDiags(d, k + 1);
      assert Diags(d)[k..][1..] == Diags(d)[k + 1..];
    }
  }

  /** The corrected trace: one step per diagonal cell. */
  method TraceIntended(d: DenseMatrix) returns (t: int)
    requires Valid(d)
    ensures t == DiagonalSum(d, 0)
  {
    t := 0;
    for i := 0 to StorageMinDim(d)
      invariant t + DiagonalSum(d, i) == DiagonalSum(d, 0)
    {
      Index.AtBound(i, i, d.m, d.n);
      t := t + d.mat[Index.At(i, i, d.n)];
    }
  }

  /** The stride walk meets exactly the diagonal cells from k on, as long as
      there are at most n + 1 rows. */
  lemma {:induction false} StrideWalksDiagonal(d: DenseMatrix, k: nat)
    requires Valid(d) && d.m <= d.n + 1 && k <= StorageMinDim(d)
    ensures StrideSum(d.mat, Index.At(k, k, d.n), d.n + 1) == DiagonalSum(d, k)
    decreases StorageMinDim(d) - k
  {
    var c := StorageMinDim(d);
    if k == c {
      if d.m <= d.n {
        assert Index.At(k, k, d.n) == d.m * d.n + d.m;
      } else {
        assert Index.At(k, k, d.n) == d.n * d.n + d.n;
        assert d.m * d.n == d.n * d.n + d.n;
      }
    } else {
      Index.AtBound(k, k, d.m, d.n);
      assert Index.At(k + 1, k + 1, d.n) == Index.At(k, k, d.n) + d.n + 1;
      StrideWalksDiagonal(d, k + 1);
    }
  }

  /** With at most one row more than columns, the as-written trace is the
      intended one; this covers both of the crate's own trace checks. */
  lemma TraceCorrectUpToOneExtraRow(d: DenseMatrix)
    requires Valid(d) && d.m <= d.n + 1
    ensures StrideSum(d.mat, 0, d.n + 1) == DiagonalSum(d, 0)
  {
    StrideWalksDiagonal(d, 0);
  }

  /** With more rows than that the stride lands off the diagonal: the 3×1
      column [1, 2, 3] has trace 1, but the stride of 2 also picks the 3 in
      row 2, column 0. */
  lemma TraceOffDiagonalWithManyRows()
    ensures var d := DenseMatrix(RowMajor, 3, 1, [1, 2, 3]);
      Valid(d) && StrideSum(d.mat, 0, d.n + 1) == 4 && DiagonalSum(d, 0) == 1
  {
    var d := DenseMatrix(RowMajor, 3, 1, [1, 2, 3]);
    assert StrideSum(d.mat, 4, 2) == 0;
    assert StrideSum(d.mat, 2, 2) == 3;
    assert DiagonalSum(d, 1) == 0;
  }
}
