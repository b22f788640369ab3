/** Matrix multiplication where one factor is a zero or an identity matrix,
    and the inner and outer products of dense vectors. Every product first
    checks that the left factor has as many columns as the right one has
    rows, and aborts otherwise; only identity × identity skips the check. */
module Multiplication {
  import opened Common
  import Index
  import Dense
  import Sparse
  import Identity
  import Zero
  import Vectors
  import opened Matrix

  /** Zero × X for X dense, sparse or zero: a zero matrix with the rows of
      the left factor and the columns of the right one. */
  function ZeroTimes(z: Zero.ZeroMatrix, x: AnyMatrix): (r: Checked<Zero.ZeroMatrix>)
    reads x.Footprint()
    requires !x.IdentityM?
    ensures r.Abort? <==> Zero.Cols(z) != x.Rows()
    ensures r.Abort? ==> r.cause == DimensionMismatch
    ensures r.Pass? ==> Zero.Dims(r.value) == (Zero.Rows(z), x.Cols())
  {
    if Zero.Cols(z) != x.Rows() then Abort(DimensionMismatch)
    else Pass(Zero.New(Zero.Rows(z), x.Cols()))
  }

  /** X × Zero for X dense or sparse (zero × zero is `ZeroTimes`). */
  function TimesZero(x: AnyMatrix, z: Zero.ZeroMatrix): (r: Checked<Zero.ZeroMatrix>)
    reads x.Footprint()
    requires x.DenseM? || x.SparseM?
    ensures r.Abort? <==> x.Cols() != Zero.Rows(z)
    ensures r.Abort? ==> r.cause == DimensionMismatch
    ensures r.Pass? ==> Zero.Dims(r.value) == (x.Rows(), Zero.Cols(z))
  {
    if x.Cols() != Zero.Rows(z) then Abort(DimensionMismatch)
    else Pass(Zero.New(x.Rows(), Zero.Cols(z)))
  }

  /** A row of a zero matrix dotted with any column is zero. */
  lemma {:induction false} ZeroRowTimesCol(z: Zero.ZeroMatrix, x: AnyMatrix, i: nat, j: nat, k: nat)
    requires x.Readable()
    ensures RowTimesCol(ZeroM(z), x, i, j, k) == 0
  {
    if k > 0 {
      ZeroRowTimesCol(z, x, i, j, k - 1);
      assert ZeroM(z).Value(i, k - 1) == 0 by {
        if i < Zero.Rows(z) && k - 1 < Zero.Cols(z) {
          assert ZeroM(z).Entry(i, k - 1) == Some(0);
        }
      }
    }
  }

  /** Any row dotted with a column of a zero matrix is zero. */
  lemma {:induction false} RowTimesZeroCol(x: AnyMatrix, z: Zero.ZeroMatrix, i: nat, j: nat, k: nat)
    requires x.Readable()
    ensures RowTimesCol(x, ZeroM(z), i, j, k) == 0
  {
    if k > 0 {
      RowTimesZeroCol(x, z, i, j, k - 1);
      assert ZeroM(z).Value(k - 1, j) == 0 by {
        if k - 1 < Zero.Rows(z) && j < Zero.Cols(z) {
          assert ZeroM(z).Entry(k - 1, j) == Some(0);
        }
      }
    }
  }

  /** What Zero × X returns is the matrix product of its factors. */
  lemma ZeroTimesIsProduct(z: Zero.ZeroMatrix, x: AnyMatrix)
    requires !x.IdentityM? && x.Readable() && ZeroTimes(z, x).Pass?
    ensures forall i: nat, j: nat :: i < Zero.Rows(z) && j < x.Cols() ==>
      ZeroM(ZeroTimes(z, x).value).Value(i, j) == RowTimesCol(ZeroM(z), x, i, j, Zero.Cols(z))
  {
    var p := ZeroTimes(z, x).value;
    forall i: nat, j: nat | i < Zero.Rows(z) && j < x.Cols()
      ensures ZeroM(p).Value(i, j) == RowTimesCol(ZeroM(z), x, i, j, Zero.Cols(z))
    {
      ZeroRowTimesCol(z, x, i, j, Zero.Cols(z));
      assert ZeroM(p).Entry(i, j) == Some(0);
    }
  }

  /** What X × Zero returns is the matrix product of its factors. */
  lemma TimesZeroIsProduct(x: AnyMatrix, z: Zero.ZeroMatrix)
    requires (x.DenseM? || x.SparseM?) && x.Readable() && TimesZero(x, z).Pass?
    ensures forall i: nat, j: nat :: i < x.Rows() && j < Zero.Cols(z) ==>
      ZeroM(TimesZero(x, z).value).Value(i, j) == RowTimesCol(x, ZeroM(z), i, j, x.Cols())
  {
    var p := TimesZero(x, z).value;
    forall i: nat, j: nat | i < x.Rows() && j < Zero.Cols(z)
      ensures ZeroM(p).Value(i, j) == RowTimesCol(x, ZeroM(z), i, j, x.Cols())
    {
      RowTimesZeroCol(x, z, i, j, x.Cols());
      assert ZeroM(p).Entry(i, j) == Some(0);
    }
  }

  /** Identity × X for X dense, sparse or zero: X itself, once the
      dimensions are checked. */
  function IdentityTimes(id: Identity.IdentityMatrix, x: AnyMatrix): (r: Checked<AnyMatrix>)
    reads x.Footprint()
    requires !x.IdentityM?
    ensures r.Abort? <==> Identity.Cols(id) != x.Rows()
    ensures r.Abort? ==> r.cause == DimensionMismatch
    ensures r.Pass? ==> r.value == x
  {
    if Identity.Cols(id) != x.Rows() then Abort(DimensionMismatch) else Pass(x)
  }

  /** X × Identity for X dense, sparse or zero: X itself, once the
      dimensions are checked. */
  function TimesIdentity(x: AnyMatrix, id: Identity.IdentityMatrix): (r: Checked<AnyMatrix>)
    reads x.Footprint()
    requires !x.IdentityM?
    ensures r.Abort? <==> x.Cols() != Identity.Rows(id)
    ensures r.Abort? ==> r.cause == DimensionMismatch
    ensures r.Pass? ==> r.value == x
  {
    if x.Cols() != Identity.Rows(id) then Abort(DimensionMismatch) else Pass(x)
  }

  /** Identity × Identity: the left factor, with no dimension check. */
  function IdentityTimesIdentity(a: Identity.IdentityMatrix, b: Identity.IdentityMatrix): (r: Identity.IdentityMatrix)
    ensures Identity.Dims(r) == Identity.Dims(a)
  {
    a
  }

  /** Row i of the identity dotted with column j of X, over the first k
      terms, picks X(i, j) once k has passed i. */
  lemma {:induction false} IdentityRowTimesCol(id: Identity.IdentityMatrix, x: AnyMatrix, i: nat, j: nat, k: nat)
    requires x.Readable() && i < id.n && k <= id.n
    ensures RowTimesCol(IdentityM(id), x, i, j, k) == if i < k then x.Value(i, j) else 0
  {
    if k > 0 {
      IdentityRowTimesCol(id, x, i, j, k - 1);
      assert IdentityM(id).Entry(i, k - 1) == Some(Identity.Kronecker(i, k - 1));
    }
  }

  /** Row i of X dotted with column j of the identity, over the first k
      terms, picks X(i, j) once k has passed j. */
  lemma {:induction false} RowTimesIdentityCol(x: AnyMatrix, id: Identity.IdentityMatrix, i: nat, j: nat, k: nat)
    requires x.Readable() && j < id.n && k <= id.n
    ensures RowTimesCol(x, IdentityM(id), i, j, k) == if j < k then x.Value(i, j) else 0
  {
    if k > 0 {
      RowTimesIdentityCol(x, id, i, j, k - 1);
      assert IdentityM(id).Entry(k - 1, j) == Some(Identity.Kronecker(k - 1, j));
    }
  }

  /** What Identity × X returns is the matrix product of its factors. */
  lemma IdentityTimesIsProduct(id: Identity.IdentityMatrix, x: AnyMatrix)
    requires !x.IdentityM? && x.Readable() && IdentityTimes(id, x).Pass?
    ensures forall i: nat, j: nat :: i < id.n && j < x.Cols() ==>
      IdentityTimes(id, x).value.Value(i, j) == RowTimesCol(IdentityM(id), x, i, j, id.n)
  {
    forall i: nat, j: nat | i < id.n && j < x.Cols()
      ensures x.Value(i, j) == RowTimesCol(IdentityM(id), x, i, j, id.n)
    {
      IdentityRowTimesCol(id, x, i, j, id.n);
    }
  }

  /** What X × Identity returns is the matrix product of its factors. */
  lemma TimesIdentityIsProduct(x: AnyMatrix, id: Identity.IdentityMatrix)
    requires !x.IdentityM? && x.Readable() && TimesIdentity(x, id).Pass?
    ensures forall i: nat, j: nat :: i < x.Rows() && j < id.n ==>
      TimesIdentity(x, id).value.Value(i, j) == RowTimesCol(x, IdentityM(id), i, j, id.n)
  {
    forall i: nat, j: nat | i < x.Rows() && j < id.n
      ensures x.Value(i, j) == RowTimesCol(x, IdentityM(id), i, j, id.n)
    {
      RowTimesIdentityCol(x, id, i, j, id.n);
    }
  }

  /** When the sizes agree, the left factor is the product of two identity
      matrices; when they differ there is no product, yet no abort either. */
  lemma IdentityTimesIdentityIsProduct(a: Identity.IdentityMatrix, b: Identity.IdentityMatrix)
    ensures a.n == b.n ==> forall i: nat, j: nat :: i < a.n && j < a.n ==>
      IdentityM(IdentityTimesIdentity(a, b)).Value(i, j) == RowTimesCol(IdentityM(a), IdentityM(b), i, j, a.n)
    ensures a.n != b.n ==> IdentityTimesIdentity(a, b) == a
  {
    if a.n == b.n {
      forall i: nat, j: nat | i < a.n && j < a.n
        ensures IdentityM(a).Value(i, j) == RowTimesCol(IdentityM(a), IdentityM(b), i, j, a.n)
      {
        IdentityRowTimesCol(a, IdentityM(b), i, j, a.n);
        assert IdentityM(b).Entry(i, j) == IdentityM(a).Entry(i, j);
      }
    }
  }

  /** The dot product of two sequences of equal length. */
  function Dot(u: seq<int>, v: seq<int>): int
    requires |u| == |v|
  {
    if u == [] then 0 else u[0] * v[0] + Dot(u[1..], v[1..])
  }

  lemma {:induction false} DotCommutative(u: seq<int>, v: seq<int>)
    requires |u| == |v|
    ensures Dot(u, v) == Dot(v, u)
  {
    if u != [] {
      DotCommutative(u[1..], v[1..]);
    }
  }

  /** Row × column: the inner product, accumulated from index 0 up. */
  method InnerProduct(row: Vectors.DenseRow, col: Vectors.DenseColumn) returns (r: Checked<int>)
    ensures r.Abort? <==> row.Len() != col.Len()
    ensures r.Abort? ==> r.cause == DimensionMismatch
    ensures r.Pass? ==> r.value == Dot(row.elems[..], col.elems[..])
  {
    if row.Len() != col.Len() {
      return Abort(DimensionMismatch);
    }
    var u, v := row.elems[..], col.elems[..];
    var acc := 0;
    for i := 0 to row.Len()
      invariant acc + Dot(u[i..], v[i..]) == Dot(u, v)
    {
      assert u[i..][1..] == u[i + 1..] && v[i..][1..] == v[i + 1..];
      acc := acc + row.Get(i).value * col.Get(i).value;
    }
    r := Pass(acc);
  }

  /** Column × row: the outer product, an m×n row-major dense matrix whose
      (i, j) entry is col[i] * row[j]. */
  method OuterProduct(col: Vectors.DenseColumn, row: Vectors.DenseRow) returns (d: Dense.DenseMatrix)
    ensures d.readOrder == RowMajor && Dense.Valid(d)
    ensures d.m == col.Len() && d.n == row.Len()
    ensures forall i: nat, j: nat :: i < d.m && j < d.n ==>
      (Dense.Offset(d, i, j) < |d.mat| &&
      Dense.Element(d, i, j) == Some(col.elems[..][i] * row.elems[..][j]))
  {
    var m, n := col.Len(), row.Len();
    var mat: seq<int> := [];
    for i := 0 to m
      invariant |mat| == i * n
      invariant forall p: nat, q: nat :: p < i && q < n ==>
        (Index.At(p, q, n) < |mat| && mat[Index.At(p, q, n)] == col.elems[..][p] * row.elems[..][q])
    {
      for j := 0 to n
        invariant |mat| == i * n + j
        invariant forall p: nat, q: nat :: p < i && q < n ==>
          (Index.At(p, q, n) < |mat| && mat[Index.At(p, q, n)] == col.elems[..][p] * row.elems[..][q])
        invariant forall q: nat :: q < j ==>
          (Index.At(i, q, n) < |mat| && mat[Index.At(i, q, n)] == col.elems[..][i] * row.elems[..][q])
      {
        mat := mat + [col.Get(i).value * row.Get(j).value];
      }
      assert (i + 1) * n == i * n + n;
    }
    d := Dense.FromVec(mat, m, n, None);
  }

  /** The trace of the outer product u vᵀ is the inner product of u and v,
      and the crate's trace (a stride walk) finds it too since the matrix
      is square. */
  lemma OuterTraceIsInner(d: Dense.DenseMatrix, u: seq<int>, v: seq<int>)
    requires |u| == |v| && d.readOrder == RowMajor && Dense.Valid(d) && d.m == |u| && d.n == |v|
    requires forall i: nat, j: nat :: i < d.m && j < d.n ==>
      (Dense.Offset(d, i, j) < |d.mat| && Dense.Element(d, i, j) == Some(u[i] * v[j]))
    ensures Dense.DiagonalSum(d, 0) == Dot(u, v)
    ensures Dense.StrideSum(d.mat, 0, d.n + 1) == Dot(u, v)
  {
    OuterDiagonalSum(d, u, v, 0);
    assert u[0..] == u && v[0..] == v;
    Dense.TraceCorrectUpToOneExtraRow(d);
  }

  lemma {:induction false} OuterDiagonalSum(d: Dense.DenseMatrix, u: seq<int>, v: seq<int>, k: nat)
    requires |u| == |v| && d.readOrder == RowMajor && Dense.Valid(d) && d.m == |u| && d.n == |v|
    requires forall i: nat, j: nat :: i < d.m && j < d.n ==>
      (Dense.Offset(d, i, j) < |d.mat| && Dense.Element(d, i, j) == Some(u[i] * v[j]))
    requires k <= |u|
    ensures Dense.DiagonalSum(d, k) == Dot(u[k..], v[k..])
    decreases |u| - k
  {
    if k < |u| {
      OuterDiagonalSum(d, u, v, k + 1);
      assert u[k..][1..] == u[k + 1..] && v[k..][1..] == v[k + 1..];
      assert Dense.Element(d, k, k) == Some(u[k] * v[k]);
    }
  }
}
