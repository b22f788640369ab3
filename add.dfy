/** Matrix addition across representations. Every sum first checks that
    the operands have equal dimensions and aborts otherwise. */
module Addition {
  import opened Common
  import Index
  import Dense
  import Sparse
  import Identity
  import Zero
  import opened Matrix

  /** Zero + X, for X of any representation: X itself, once the dimensions
      are checked. */
  function ZeroAdd(z: Zero.ZeroMatrix, x: AnyMatrix): (r: Checked<AnyMatrix>)
    reads x.Footprint()
    ensures r.Abort? <==> Zero.Dims(z) != x.Dims()
    ensures r.Abort? ==> r.cause == DimensionMismatch
    ensures r.Pass? ==> r.value == x
  {
    if Zero.Dims(z) != x.Dims() then Abort(DimensionMismatch) else Pass(x)
  }

  /** The zero matrix is a left unit: what Zero + X returns is the
      entrywise sum of the operands. */
  lemma ZeroAddIsSum(z: Zero.ZeroMatrix, x: AnyMatrix)
    requires x.Readable() && ZeroAdd(z, x).Pass?
    ensures ZeroAdd(z, x).value.Dims() == x.Dims() == ZeroM(z).Dims()
    ensures forall i: nat, j: nat :: i < x.Rows() && j < x.Cols() ==>
      ZeroAdd(z, x).value.Value(i, j) == ZeroM(z).Value(i, j) + x.Value(i, j)
  {
    forall i: nat, j: nat | i < x.Rows() && j < x.Cols()
      ensures ZeroM(z).Value(i, j) == 0
    {
      assert ZeroM(z).Entry(i, j) == Some(0);
    }
  }

  /** The loop shared by the three dense sums: a(i, j) + x(i, j) for every
      cell of the rows×cols grid, pushed row by row. */
  method SumListing(a: Dense.DenseMatrix, x: AnyMatrix) returns (mat: seq<int>)
    requires Dense.Readable(a) && x.Readable() && x.Dims() == Dense.Dims(a)
    ensures |mat| == Dense.Rows(a) * Dense.Cols(a)
    ensures forall i: nat, j: nat :: i < Dense.Rows(a) && j < Dense.Cols(a) ==>
      (Index.At(i, j, Dense.Cols(a)) < |mat| &&
      mat[Index.At(i, j, Dense.Cols(a))] == Dense.Element(a, i, j).value + x.Value(i, j))
  {
    var rows, cols := Dense.Rows(a), Dense.Cols(a);
    mat := [];
    for i := 0 to rows
      invariant |mat| == i * cols
      invariant forall p: nat, q: nat :: p < i && q < cols ==>
        (Index.At(p, q, cols) < |mat| && mat[Index.At(p, q, cols)] == Dense.Element(a, p, q).value + x.Value(p, q))
    {
      for j := 0 to cols
        invariant |mat| == i * cols + j
        invariant forall p: nat, q: nat :: p < i && q < cols ==>
          (Index.At(p, q, cols) < |mat| && mat[Index.At(p, q, cols)] == Dense.Element(a, p, q).value + x.Value(p, q))
        invariant forall q: nat :: q < j ==>
          (Index.At(i, q, cols) < |mat| && mat[Index.At(i, q, cols)] == Dense.Element(a, i, q).value + x.Value(i, q))
      {
        mat := mat + [Dense.Element(a, i, j).value + x.Entry(i, j).value];
      }
      assert (i + 1) * cols == i * cols + cols;
    }
  }

  /** Dense + Dense: the entrywise sum, stored row by row. */
  method DenseAddDense(a: Dense.DenseMatrix, b: Dense.DenseMatrix) returns (r: Checked<Dense.DenseMatrix>)
    requires Dense.Dims(a) == Dense.Dims(b) ==> Dense.Readable(a) && Dense.Readable(b)
    ensures r.Abort? <==> Dense.Dims(a) != Dense.Dims(b)
    ensures r.Abort? ==> r.cause == DimensionMismatch
    ensures r.Pass? ==> r.value.readOrder == RowMajor && Dense.Valid(r.value)
    ensures r.Pass? ==> Dense.Dims(r.value) == Dense.Dims(a)
    ensures r.Pass? ==> forall i: nat, j: nat :: i < Dense.Rows(a) && j < Dense.Cols(a) ==>
      (Dense.Offset(r.value, i, j) < |r.value.mat| &&
      Dense.Element(r.value, i, j).value == Dense.Element(a, i, j).value + Dense.Element(b, i, j).value)
  {
    if Dense.Dims(a) != Dense.Dims(b) {
      return Abort(DimensionMismatch);
    }
    var mat := SumListing(a, DenseM(b));
    r := Pass(Dense.FromVec(mat, Dense.Rows(a), Dense.Cols(a), None));
  }

  /** Dense + Identity as written: one is added on the diagonal, but the
      row-by-row listing is tagged with the left operand's read order, so
      for a column-major operand the result reads as the transpose of the
      sum. */
  method DenseAddIdentity(a: Dense.DenseMatrix, id: Identity.IdentityMatrix) returns (r: Checked<Dense.DenseMatrix>)
    requires Dense.Dims(a) == Identity.Dims(id) ==> Dense.Readable(a)
    ensures r.Abort? <==> Dense.Dims(a) != Identity.Dims(id)
    ensures r.Abort? ==> r.cause == DimensionMismatch
    ensures r.Pass? ==> r.value.readOrder == a.readOrder && Dense.Valid(r.value)
    ensures r.Pass? ==> Dense.Dims(r.value) == Dense.Dims(a)
    ensures r.Pass? ==> forall i: nat, j: nat :: i < id.n && j < id.n ==>
      (Dense.Offset(r.value, i, j) < |r.value.mat| &&
      Dense.Element(r.value, i, j).value ==
        (if a.readOrder == RowMajor then Dense.Element(a, i, j).value else Dense.Element(a, j, i).value)
        + Identity.Kronecker(i, j))
  {
    if Dense.Dims(a) != Identity.Dims(id) {
      return Abort(DimensionMismatch);
    }
    var mat := SumListing(a, IdentityM(id));
    r := Pass(Dense.FromVec(mat, Dense.Rows(a), Dense.Cols(a), Some(a.readOrder)));
  }

  /** Dense + Identity as evidently intended: the same listing read row by
      row, which is the entrywise sum whatever the operand's read order. */
  method DenseAddIdentityIntended(a: Dense.DenseMatrix, id: Identity.IdentityMatrix) returns (r: Checked<Dense.DenseMatrix>)
    requires Dense.Dims(a) == Identity.Dims(id) ==> Dense.Readable(a)
    ensures r.Abort? <==> Dense.Dims(a) != Identity.Dims(id)
    ensures r.Abort? ==> r.cause == DimensionMismatch
    ensures r.Pass? ==> r.value.readOrder == RowMajor && Dense.Valid(r.value)
    ensures r.Pass? ==> Dense.Dims(r.value) == Dense.Dims(a)
    ensures r.Pass? ==> forall i: nat, j: nat :: i < id.n && j < id.n ==>
      (Dense.Offset(r.value, i, j) < |r.value.mat| &&
      Dense.Element(r.value, i, j).value == Dense.Element(a, i, j).value + Identity.Kronecker(i, j))
  {
    if Dense.Dims(a) != Identity.Dims(id) {
      return Abort(DimensionMismatch);
    }
    var mat := SumListing(a, IdentityM(id));
    r := Pass(Dense.FromVec(mat, Dense.Rows(a), Dense.Cols(a), None));
  }

  /** Dense + Sparse as written: the row-by-row listing of the sum, tagged
      with the left operand's read order. For a row-major operand the
      result is the sum; for a column-major one its dimensions come out
      swapped. */
  method DenseAddSparse(a: Dense.DenseMatrix, s: Sparse.SparseMatrix) returns (r: Checked<Dense.DenseMatrix>)
    requires Dense.Dims(a) == s.Dims() ==> Dense.Readable(a)
    ensures r.Abort? <==> Dense.Dims(a) != s.Dims()
    ensures r.Abort? ==> r.cause == DimensionMismatch
    ensures r.Pass? ==> r.value.readOrder == a.readOrder && Dense.Valid(r.value)
    ensures r.Pass? ==> r.value.m == Dense.Rows(a) && r.value.n == Dense.Cols(a)
    ensures r.Pass? ==> forall i: nat, j: nat :: i < Dense.Rows(a) && j < Dense.Cols(a) ==>
      (Index.At(i, j, Dense.Cols(a)) < |r.value.mat| &&
      r.value.mat[Index.At(i, j, Dense.Cols(a))] == Dense.Element(a, i, j).value + s.Get(i, j).value)
    ensures r.Pass? && a.readOrder == RowMajor ==> Dense.Dims(r.value) == Dense.Dims(a)
    ensures r.Pass? && a.readOrder == ColMajor ==> Dense.Dims(r.value) == (Dense.Cols(a), Dense.Rows(a))
  {
    if Dense.Dims(a) != s.Dims() {
      return Abort(DimensionMismatch);
    }
    var mat := SumListing(a, SparseM(s));
    r := Pass(Dense.FromVec(mat, Dense.Rows(a), Dense.Cols(a), Some(a.readOrder)));
  }

  /** Dense + Sparse as evidently intended: the listing read row by row, the
      entrywise sum with the operands' dimensions. */
  method DenseAddSparseIntended(a: Dense.DenseMatrix, s: Sparse.SparseMatrix) returns (r: Checked<Dense.DenseMatrix>)
    requires Dense.Dims(a) == s.Dims() ==> Dense.Readable(a)
    ensures r.Abort? <==> Dense.Dims(a) != s.Dims()
    ensures r.Abort? ==> r.cause == DimensionMismatch
    ensures r.Pass? ==> r.value.readOrder == RowMajor && Dense.Valid(r.value)
    ensures r.Pass? ==> Dense.Dims(r.value) == Dense.Dims(a)
    ensures r.Pass? ==> forall i: nat, j: nat :: i < Dense.Rows(a) && j < Dense.Cols(a) ==>
      (Dense.Offset(r.value, i, j) < |r.value.mat| &&
      Dense.Element(r.value, i, j).value == Dense.Element(a, i, j).value + s.Get(i, j).value)
  {
    if Dense.Dims(a) != s.Dims() {
      return Abort(DimensionMismatch);
    }
    var mat := SumListing(a, SparseM(s));
    r := Pass(Dense.FromVec(mat, Dense.Rows(a), Dense.Cols(a), None));
  }

  /** Identity + Identity: a fresh n×n sparse matrix holding exactly the n
      diagonal entries 1 + 1, which is the entrywise sum. */
  method IdentityAddIdentity(a: Identity.IdentityMatrix, b: Identity.IdentityMatrix)
    returns (r: Checked<Sparse.SparseMatrix>)
    ensures r.Abort? <==> Identity.Dims(a) != Identity.Dims(b)
    ensures r.Abort? ==> r.cause == DimensionMismatch
    ensures r.Pass? ==> fresh(r.value) && r.value.readOrder == RowMajor
    ensures r.Pass? ==> r.value.m == a.n && r.value.n == a.n && r.value.KeysInRange()
    ensures r.Pass? ==> forall i: nat, j: nat :: (i, j) in r.value.entries <==> i == j && i < a.n
    ensures r.Pass? ==> forall i: nat, j: nat :: i < a.n && j < a.n ==>
      r.value.Get(i, j) == Some(Identity.Get(a, i, j).value + Identity.Get(b, i, j).value)
  {
    if Identity.Dims(a) != Identity.Dims(b) {
      return Abort(DimensionMismatch);
    }
    var triples: seq<(nat, nat, int)> := [];
    for i := 0 to Identity.Rows(a)
      invariant |triples| == i
      invariant forall k :: 0 <= k < i ==> triples[k] == (k, k, 2)
    {
      var one := Identity.Get(a, i, i).value;
      triples := triples + [(i, i, one + one)];
    }
    var s := new Sparse.SparseMatrix.FromTuple(triples, Identity.Rows(a), Identity.Cols(a));
    forall key: (nat, nat)
      ensures key in s.entries <==> key.0 == key.1 && key.0 < a.n
      ensures key in s.entries ==> s.entries[key] == 2
    {
      Sparse.InsertedLookup(triples, key);
      if key.0 == key.1 && key.0 < a.n {
        assert (triples[key.0].0, triples[key.0].1) == key;
      }
    }
    r := Pass(s);
  }
}
