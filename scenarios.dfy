/** The crate's own unit tests and example, restated as checked scenarios,
    together with the inputs that exhibit the discrepancies the model
    records. */
module Scenarios {
  import opened Common
  import Index
  import Dense
  import Sparse
  import Identity
  import Zero
  import Vectors
  import opened Matrix
  import Equality
  import Addition
  import Multiplication

  /** `zeros(5, 4)` equals the matrix built from five rows of four zeros. */
  method DenseZerosEqualsNew()
  {
    var z := Dense.Zeros(5, 4);
    var a := Dense.New(seq(5, _ => seq(4, _ => 0)));
    assert a.Ok?;
    Dense.ReadableWhenRowMajorOrSquare(z);
    Dense.ReadableWhenRowMajorOrSquare(a.value);
    assert Equality.DenseEqDense(z, a.value);
  }

  /** `identity(5)` equals the 5×5 matrix with ones on the diagonal. */
  method DenseIdentityEqualsNew()
  {
    var id := Dense.Identity(5);
    var rows := seq(5, i => seq(5, j => if i == j then 1 else 0));
    var a := Dense.New(rows);
    assert a.Ok?;
    Dense.ReadableWhenRowMajorOrSquare(id);
    Dense.ReadableWhenRowMajorOrSquare(a.value);
    assert Equality.DenseEqDense(id, a.value);
  }

  /** The trace of a 4×3 and of a 3×4 matrix, both 1 + 2 + 3. */
  method DenseTraces()
  {
    var a := Dense.New([[1, 6, 0], [0, 2, 0], [4, 0, 3], [0, 5, 0]]);
    assert a.Ok?;
    var A := a.value;
    assert Dense.Element(A, 0, 0) == Some(1) && Dense.Element(A, 1, 1) == Some(2);
    assert Dense.Element(A, 2, 2) == Some(3);
    assert A.mat[0] == 1 && A.mat[4] == 2 && A.mat[8] == 3;
    assert Dense.StrideSum(A.mat, 8, 4) == 3 + Dense.StrideSum(A.mat, 12, 4) == 3;
    assert Dense.StrideSum(A.mat, 0, 4) == 1 + Dense.StrideSum(A.mat, 4, 4) == 6;
    var t := Dense.Trace(A);
    assert t == 6;

    var b := Dense.New([[1, 9, 9, 9], [9, 2, 9, 9], [9, 9, 3, 9]]);
    assert b.Ok?;
    var B := b.value;
    assert Dense.Element(B, 0, 0) == Some(1) && Dense.Element(B, 1, 1) == Some(2);
    assert Dense.Element(B, 2, 2) == Some(3);
    assert B.mat[0] == 1 && B.mat[5] == 2 && B.mat[10] == 3;
    assert Dense.StrideSum(B.mat, 10, 5) == 3 + Dense.StrideSum(B.mat, 15, 5) == 3;
    assert Dense.StrideSum(B.mat, 0, 5) == 1 + Dense.StrideSum(B.mat, 5, 5) == 6;
    t := Dense.Trace(B);
    assert t == 6;
  }

  /** [1 2; 3 4] + [1 2; 3 4] == [2 4; 6 8]. */
  method DenseAddDenseExample()
  {
    var a := Dense.New([[1, 2], [3, 4]]);
    var e := Dense.New([[2, 4], [6, 8]]);
    assert a.Ok? && e.Ok?;
    Dense.ReadableWhenRowMajorOrSquare(a.value);
    Dense.ReadableWhenRowMajorOrSquare(e.value);
    var s := Addition.DenseAddDense(a.value, a.value);
    assert s.Pass?;
    Dense.ReadableWhenRowMajorOrSquare(s.value);
    assert Equality.DenseEqDense(s.value, e.value);
  }

  /** Zero(4, 4) plus a zero, an identity and a dense 4×4 matrix returns the
      other operand; Zero(21, 69) + Zero(21, 42) aborts. */
  method ZeroAddExamples()
  {
    var z := Zero.New(4, 4);
    var i := Identity.New(4);
    var a := Dense.New([[1, 2, 3, 4], [5, 6, 7, 8], [9, 10, 11, 12], [13, 14, 15, 16]]);
    assert a.Ok?;
    Dense.ReadableWhenRowMajorOrSquare(a.value);
    assert Addition.ZeroAdd(z, ZeroM(z)) == Pass(ZeroM(z));
    assert Addition.ZeroAdd(z, IdentityM(i)) == Pass(IdentityM(i));
    assert Addition.ZeroAdd(z, DenseM(a.value)) == Pass(DenseM(a.value));
    assert Addition.ZeroAdd(Zero.New(21, 69), ZeroM(Zero.New(21, 42))) == Abort(DimensionMismatch);
  }

  /** A row-major 4×4 matrix plus the identity gains one on its diagonal. */
  method DenseAddIdentityExample()
  {
    var a1 := Dense.New([[1, 2, 3, 4], [5, 6, 7, 8], [9, 10, 11, 12], [13, 14, 15, 16]]);
    var a2 := Dense.New([[2, 2, 3, 4], [5, 7, 7, 8], [9, 10, 12, 12], [13, 14, 15, 17]]);
    assert a1.Ok? && a2.Ok?;
    Dense.ReadableWhenRowMajorOrSquare(a1.value);
    Dense.ReadableWhenRowMajorOrSquare(a2.value);
    var s := Addition.DenseAddIdentity(a1.value, Identity.New(4));
    assert s.Pass?;
    Dense.ReadableWhenRowMajorOrSquare(s.value);
    assert Equality.DenseEqDense(s.value, a2.value);
  }

  /** The column-major 2×2 matrix stored as [1, 2, 3, 4] reads [1 3; 2 4].
      Adding the identity as written yields a matrix that reads [2 2; 3 5],
      the transpose of the sum [2 3; 2 5]; the intended sum gets it right. */
  method ColumnMajorPlusIdentity()
  {
    var a := Dense.DenseMatrix(ColMajor, 2, 2, [1, 2, 3, 4]);
    Dense.ReadableWhenRowMajorOrSquare(a);
    assert Dense.Element(a, 0, 1) == Some(3);
    var written := Addition.DenseAddIdentity(a, Identity.New(2));
    assert written.Pass?;
    assert Dense.Element(written.value, 0, 1) == Some(2);
    var intended := Addition.DenseAddIdentityIntended(a, Identity.New(2));
    assert intended.Pass?;
    assert Dense.Element(intended.value, 0, 1) == Some(3);
  }

  /** A column-major dense matrix with 3 rows and 2 columns plus a 3×2
      sparse matrix: as written the result has 2 rows and 3 columns. */
  method ColumnMajorPlusSparse()
  {
    var a := Dense.DenseMatrix(ColMajor, 2, 3, [1, 2, 3, 4, 5, 6]);
    assert Dense.Readable(a);
    assert Dense.Dims(a) == (3, 2);
    var s := new Sparse.SparseMatrix.New(3, 2);
    var written := Addition.DenseAddSparse(a, s);
    assert written.Pass? && Dense.Dims(written.value) == (2, 3);
    var intended := Addition.DenseAddSparseIntended(a, s);
    assert intended.Pass? && Dense.Dims(intended.value) == (3, 2);
  }

  /** eye(2) + eye(2) holds 2 on the diagonal and nothing else. */
  method IdentityAddIdentityExample()
  {
    var s := Addition.IdentityAddIdentity(Identity.New(2), Identity.New(2));
    assert s.Pass?;
    assert s.value.Get(0, 0) == Some(2) && s.value.Get(0, 1) == Some(0);
    assert (0, 1) !in s.value.entries;
  }

  /** Zero(69, 21) × Zero(21, 42) == Zero(69, 42); its transpose times
      Zero(69, 42) is Zero(21, 42); Zero(21, 69) × Zero(21, 42) aborts. */
  method ZeroMulExamples()
  {
    var z1 := Zero.New(69, 21);
    assert Multiplication.ZeroTimes(z1, ZeroM(Zero.New(21, 42))) == Pass(Zero.New(69, 42));
    assert Multiplication.ZeroTimes(Zero.Transpose(z1), ZeroM(Zero.New(69, 42))) == Pass(Zero.New(21, 42));
    assert Multiplication.ZeroTimes(Zero.New(21, 69), ZeroM(Zero.New(21, 42))).Abort?;
  }

  /** eye(5) times a 5×5 dense or sparse matrix, on either side, gives that
      matrix back; both hold 5i + j at (i, j), the sparse one filled by `set`. */
  method IdentityMulExamples()
  {
    var d := Dense.New(seq(5, i => seq(5, j => 5 * i + j)));
    assert d.Ok?;
    var s := new Sparse.SparseMatrix.New(5, 5);
    for p := 0 to 5
      invariant s.readOrder == RowMajor
      invariant forall i: nat, j: nat :: i < p && j < 5 ==> s.Get(i, j) == Some(5 * i + j)
    {
      for q := 0 to 5
        invariant s.readOrder == RowMajor
        invariant forall i: nat, j: nat :: (i < p || (i == p && j < q)) && j < 5 ==> s.Get(i, j) == Some(5 * i + j)
      {
        var r := s.Set(p, q, 5 * p + q);
      }
    }
    assert s.Get(4, 3) == Some(23) && s.Get(5, 0) == None;
    var i := Identity.New(5);
    assert Multiplication.IdentityTimes(i, DenseM(d.value)) == Pass(DenseM(d.value));
    assert Multiplication.TimesIdentity(DenseM(d.value), i) == Pass(DenseM(d.value));
    assert Multiplication.IdentityTimes(i, SparseM(s)) == Pass(SparseM(s));
    assert Multiplication.TimesIdentity(SparseM(s), i) == Pass(SparseM(s));
  }

  /** [1 2 3 4 5] · [1 2 3 4 5] == 55. */
  method InnerProductExample()
  {
    var u := new Vectors.DenseColumn.FromVec([1, 2, 3, 4, 5]);
    var v := new Vectors.DenseColumn.FromVec([1, 2, 3, 4, 5]);
    var row := u.Transpose();
    var r := Multiplication.InnerProduct(row, v);
    assert row.elems[..] == [1, 2, 3, 4, 5];
    assert r == Pass(1 + 4 + 9 + 16 + 25);
  }

  /** [1 2 3 4]ᵀ × [1 2 3] is the 4×3 multiplication table. */
  method OuterProductExample()
  {
    var u := new Vectors.DenseColumn.FromVec([1, 2, 3, 4]);
    var v := new Vectors.DenseColumn.FromVec([1, 2, 3]);
    var vt := v.Transpose();
    var p := Multiplication.OuterProduct(u, vt);
    var a := Dense.New([[1, 2, 3], [2, 4, 6], [3, 6, 9], [4, 8, 12]]);
    assert a.Ok?;
    Dense.ReadableWhenRowMajorOrSquare(p);
    Dense.ReadableWhenRowMajorOrSquare(a.value);
    assert Equality.DenseEqDense(p, a.value);
  }

  /** [1 0 0; 0 1 0; 0 0 1] equals eye(3) from both sides; with a one off
      the diagonal it is not diagonal and equals eye(3) from neither. */
  method DenseIdentityEquality()
  {
    var a1 := Dense.New([[1, 0, 0], [0, 1, 0], [0, 0, 1]]);
    var a2 := Dense.New([[1, 1, 0], [0, 1, 0], [0, 0, 1]]);
    assert a1.Ok? && a2.Ok?;
    var i := Identity.New(3);
    Dense.ReadableWhenRowMajorOrSquare(a1.value);
    Dense.ReadableWhenRowMajorOrSquare(a2.value);
    var d1 := Dense.IsDiagonal(a1.value);
    var d2 := Dense.IsDiagonal(a2.value);
    assert Dense.Element(a2.value, 0, 1) == Some(1);
    assert !d2;
    Equality.DenseEqIdentityMeansSame(a1.value, i);
    Equality.DenseEqIdentityMeansSame(a2.value, i);
    assert Same(DenseM(a1.value), IdentityM(i));
    assert !Same(DenseM(a2.value), IdentityM(i));
    assert d1;
    assert Equality.DenseEqIdentity(a1.value, i) && Equality.IdentityEqDense(i, a1.value);
    assert !Equality.DenseEqIdentity(a2.value, i) && !Equality.IdentityEqDense(i, a2.value);
  }

  /** The 3×3 zero dense matrix equals zeros(3, 3); one with a single one
      does not. */
  method DenseZeroEquality()
  {
    var a1 := Dense.New([[0, 0, 0], [0, 0, 0], [0, 0, 0]]);
    var a2 := Dense.New([[0, 0, 0], [0, 1, 0], [0, 0, 0]]);
    assert a1.Ok? && a2.Ok?;
    var z := Zero.New(3, 3);
    Equality.DenseEqZeroMeansSame(a1.value, z);
    Equality.DenseEqZeroMeansSame(a2.value, z);
    assert ZeroM(z).Entry(1, 1) == Some(0);
    assert Dense.Element(a2.value, 1, 1) == Some(1);
    assert !Same(DenseM(a2.value), ZeroM(z));
    assert Same(DenseM(a1.value), ZeroM(z));
    assert Equality.DenseEqZero(a1.value, z) && Equality.ZeroEqDense(z, a1.value);
    assert !Equality.DenseEqZero(a2.value, z) && !Equality.ZeroEqDense(z, a2.value);
  }

  /** Zero and identity matrices compare by dimensions only, and never equal
      each other. */
  method StructuralEquality()
  {
    assert Equality.ZeroEqZero(Zero.New(4, 20), Zero.New(4, 20));
    assert !Equality.ZeroEqZero(Zero.New(4, 20), Zero.New(20, 4));
    assert Equality.IdentityEqIdentity(Identity.New(10000000), Identity.New(10000000));
    assert !Equality.IdentityEqIdentity(Identity.New(10000000), Identity.New(10000001));
    assert !Equality.IdentityEqZero(Identity.New(100), Zero.New(100, 100));
    assert !Equality.ZeroEqIdentity(Zero.New(100, 100), Identity.New(100));
  }

  /** An empty 100×200 sparse matrix equals zeros(100, 200) from both sides,
      and the 3×3 example: [0 -1 0; 0 0 0; 3 0 0] equals the sparse matrix
      with a(0, 1) = -1 and a(2, 0) = 3. */
  method SparseEquality()
  {
    var az := new Sparse.SparseMatrix.FromTuple([], 100, 200);
    var z := Zero.New(100, 200);
    assert Equality.ZeroEqSparse(z, az);
    assert Equality.SparseEqZero(az, z);

    var a3 := Dense.New([[0, -1, 0], [0, 0, 0], [3, 0, 0]]);
    assert a3.Ok?;
    Dense.ReadableWhenRowMajorOrSquare(a3.value);
    var b3 := new Sparse.SparseMatrix.FromTuple([(0, 1, -1), (2, 0, 3)], 3, 3);
    assert b3.entries == map[(0, 1) := -1, (2, 0) := 3];
    assert Equality.DenseEqSparse(a3.value, b3);
    assert Equality.SparseEqDense(b3, a3.value);
  }

  /** A sparse matrix holding an explicit zero off the diagonal reads like
      the identity yet is not equal to it, since `is_diagonal` looks at the
      stored keys. */
  method StoredZeroIsNotDiagonal()
  {
    var triples := [(0, 0, 1), (1, 1, 1), (0, 1, 0)];
    assert triples[..2] == [(0, 0, 1), (1, 1, 1)];
    assert Sparse.Inserted([(0, 0, 1), (1, 1, 1)]) == map[(0, 0) := 1, (1, 1) := 1];
    assert Sparse.Inserted(triples) == Sparse.Inserted(triples[..2])[(0, 1) := 0];
    var s := new Sparse.SparseMatrix.FromTuple(triples, 2, 2);
    var i := Identity.New(2);
    assert s.entries == map[(0, 0) := 1, (1, 1) := 1, (0, 1) := 0];
    assert !s.IsDiagonal();
    assert !Equality.SparseEqIdentity(s, i);
    assert Same(SparseM(s), IdentityM(i));
  }

  /** Sparse == sparse compares the two maps' entries in their iteration
      orders: the same two entries listed in opposite orders compare unequal. */
  method SparseEqualityDependsOnOrder()
  {
    var a := new Sparse.SparseMatrix.FromTuple([(0, 0, 1), (1, 1, 2)], 2, 2);
    var b := new Sparse.SparseMatrix.FromTuple([(0, 0, 1), (1, 1, 2)], 2, 2);
    assert a.entries == b.entries == map[(0, 0) := 1, (1, 1) := 2];
    assert Equality.SparseEqSparse(a, b, [(0, 0), (1, 1)], [(0, 0), (1, 1)]);
    var ka, kb := [(0, 0), (1, 1)], [(1, 1), (0, 0)];
    assert Equality.Lists(ka, a.entries) && Equality.Lists(kb, b.entries);
    assert a.Get(ka[0].0, ka[0].1) == Some(1) && b.Get(kb[0].0, kb[0].1) == Some(2);
    assert !Equality.SparseEqSparse(a, b, ka, kb);
  }

  /** The example program's first comparison: a 4×20 dense matrix filled
      with zeros equals zeros(4, 20), from both sides. */
  method DenseFillEqualsZeros()
  {
    var a1 := Dense.FromVec(seq(4 * 20, _ => 0), 4, 20, None);
    var z := Zero.New(4, 20);
    Equality.DenseEqZeroMeansSame(a1, z);
    assert Equality.DenseEqZero(a1, z) && Equality.ZeroEqDense(z, a1);
    assert Same(DenseM(a1), ZeroM(z));
  }

  /** A 100×100 sparse matrix holding (i, i, 1) for every i equals eye(100),
      from both sides. */
  method SparseIdentityEquality()
  {
    var triples: seq<(nat, nat, int)> := seq(100, i requires 0 <= i < 100 => (i, i, 1));
    var ai := new Sparse.SparseMatrix.FromTuple(triples, 100, 100);
    var id := Identity.New(100);
    forall i: nat | i < 100
      ensures ai.Get(i, i) == Some(1)
    {
      Sparse.InsertedLookup(triples, (i, i));
      assert triples[i] == (i, i, 1);
    }
    forall k | k in ai.entries
      ensures k.0 == k.1
    {
      Sparse.InsertedLookup(triples, k);
    }
    assert Equality.IdentityEqSparse(id, ai);
    Equality.SparseEqIdentityMeansSame(ai, id);
    assert Equality.SparseEqIdentity(ai, id);
  }

  /** The triples of the 5×5 test, pushed column by column, store i + j at
      every cell (i, j). */
  lemma ColumnByColumnTriples(triples: seq<(nat, nat, int)>)
    requires triples == seq(25, t requires 0 <= t < 25 => (t % 5, t / 5, t % 5 + t / 5))
    ensures forall i: nat, j: nat :: i < 5 && j < 5 ==>
      (i, j) in Sparse.Inserted(triples) && Sparse.Inserted(triples)[(i, j)] == i + j
  {
    forall i: nat, j: nat | i < 5 && j < 5
      ensures (i, j) in Sparse.Inserted(triples) && Sparse.Inserted(triples)[(i, j)] == i + j
    {
      Sparse.InsertedLookup(triples, (i, j));
      Index.RowMajorDiv(j, i, 5);
      assert triples[j * 5 + i] == (i, j, i + j);
    }
  }

  /** The literal rows of the 5×5 test hold i + j at (i, j). */
  lemma SumRows()
    ensures seq(5, i => seq(5, j => i + j)) ==
      [[0, 1, 2, 3, 4], [1, 2, 3, 4, 5], [2, 3, 4, 5, 6], [3, 4, 5, 6, 7], [4, 5, 6, 7, 8]]
  {
    var rows := seq(5, i => seq(5, j => i + j));
    assert rows[0] == [0, 1, 2, 3, 4] && rows[1] == [1, 2, 3, 4, 5] && rows[2] == [2, 3, 4, 5, 6];
    assert rows[3] == [3, 4, 5, 6, 7] && rows[4] == [4, 5, 6, 7, 8];
  }

  /** The 5×5 sparse matrix built column by column from (i, j, i + j) equals
      the dense matrix with rows [0 1 2 3 4], [1 2 3 4 5], ..., from both
      sides. */
  method SparseDenseEquality()
  {
    var triples: seq<(nat, nat, int)> := seq(25, t requires 0 <= t < 25 => (t % 5, t / 5, t % 5 + t / 5));
    SumRows();
    var ad := Dense.New([[0, 1, 2, 3, 4], [1, 2, 3, 4, 5], [2, 3, 4, 5, 6], [3, 4, 5, 6, 7], [4, 5, 6, 7, 8]]);
    assert ad.Ok?;
    Dense.ReadableWhenRowMajorOrSquare(ad.value);
    var sp := new Sparse.SparseMatrix.FromTuple(triples, 5, 5);
    ColumnByColumnTriples(triples);
    assert forall i: nat, j: nat :: i < 5 && j < 5 ==> Dense.Element(ad.value, i, j) == Some(i + j);
    assert Equality.SparseEqDense(sp, ad.value);
    assert Equality.DenseEqSparse(ad.value, sp);
  }

  /** Two 2×2 sparse matrices holding 5 and 7 at (0, 1), both transposed:
      the as-written zip finds them equal although (1, 0) reads 5 in one
      and 7 in the other; the intended comparison tells them apart. */
  method SparseEqualityMisreadsTransposes()
  {
    var a := new Sparse.SparseMatrix.FromTuple([(0, 1, 5)], 2, 2);
    var b := new Sparse.SparseMatrix.FromTuple([(0, 1, 7)], 2, 2);
    assert a.entries == map[(0, 1) := 5] && b.entries == map[(0, 1) := 7];
    a.Transpose();
    b.Transpose();
    Equality.SparseEqSparseMisreadsColMajor(a, b);
    assert Equality.SparseEqSparse(a, b, [(0, 1)], [(0, 1)]);
    Equality.SparseEqSparseIntendedMeansSame(a, b);
    assert !Equality.SparseEqSparseIntended(a, b);
  }
}
