/** Equality between the four representations, one predicate per ordered
    pair, as the crate's `==` computes it; and lemmas saying when each one is
    "same dimensions and same entries", and when swapping the operands
    changes nothing. */
module Equality {
  import opened Common
  import Index
  import Dense
  import Sparse
  import Identity
  import Zero
  import opened Matrix

  // ---- Zero and Identity among themselves -------------------------------

  predicate ZeroEqZero(a: Zero.ZeroMatrix, b: Zero.ZeroMatrix)
  {
    Zero.Dims(a) == Zero.Dims(b)
  }

  predicate IdentityEqIdentity(a: Identity.IdentityMatrix, b: Identity.IdentityMatrix)
  {
    Identity.Dims(a) == Identity.Dims(b)
  }

  predicate ZeroEqIdentity(z: Zero.ZeroMatrix, id: Identity.IdentityMatrix)
  {
    false
  }

  predicate IdentityEqZero(id: Identity.IdentityMatrix, z: Zero.ZeroMatrix)
  {
    false
  }

  /** Comparing dimensions is comparing the matrices, in either order. */
  lemma StructuralEqMeansSame(a: Zero.ZeroMatrix, b: Zero.ZeroMatrix,
                              p: Identity.IdentityMatrix, q: Identity.IdentityMatrix)
    ensures ZeroEqZero(a, b) <==> Same(ZeroM(a), ZeroM(b))
    ensures ZeroEqZero(a, b) == ZeroEqZero(b, a)
    ensures IdentityEqIdentity(p, q) <==> Same(IdentityM(p), IdentityM(q))
    ensures IdentityEqIdentity(p, q) == IdentityEqIdentity(q, p)
  {
  }

  /** A zero matrix and an identity are different matrices unless both are
      empty, where the crate still answers false. */
  lemma ZeroIsNotIdentity(z: Zero.ZeroMatrix, id: Identity.IdentityMatrix)
    ensures Same(ZeroM(z), IdentityM(id)) <==> z.m == 0 && z.n == 0 && id.n == 0
    ensures Same(IdentityM(id), ZeroM(z)) <==> z.m == 0 && z.n == 0 && id.n == 0
    ensures !ZeroEqIdentity(z, id) && !IdentityEqZero(id, z)
  {
    if id.n > 0 {
      assert IdentityM(id).Entry(0, 0) == Some(1);
      assert ZeroM(z).Entry(0, 0) != Some(1);
    }
  }

  // ---- Dense ------------------------------------------------------------

  /** Dense == Dense: same dimensions and the same element at every cell. */
  predicate DenseEqDense(a: Dense.DenseMatrix, b: Dense.DenseMatrix)
    requires Dense.Dims(a) == Dense.Dims(b) ==> Dense.Readable(a) && Dense.Readable(b)
  {
    Dense.Dims(a) == Dense.Dims(b) &&
    forall i: nat, j: nat :: i < Dense.Rows(a) && j < Dense.Cols(a) ==>
      Dense.Element(a, i, j) == Dense.Element(b, i, j)
  }

  lemma DenseEqDenseMeansSame(a: Dense.DenseMatrix, b: Dense.DenseMatrix)
    requires Dense.Readable(a) && Dense.Readable(b)
    ensures DenseEqDense(a, b) <==> Same(DenseM(a), DenseM(b))
    ensures DenseEqDense(a, b) == DenseEqDense(b, a)
  {
    forall i: nat, j: nat | i < Dense.Rows(a) && j < Dense.Cols(a)
      ensures DenseM(a).Entry(i, j) == Dense.Element(a, i, j)
    {
    }
    if Dense.Dims(a) == Dense.Dims(b) {
      forall i: nat, j: nat | i < Dense.Rows(b) && j < Dense.Cols(b)
        ensures DenseM(b).Entry(i, j) == Dense.Element(b, i, j)
      {
      }
    }
  }

  /** Dense == Identity: same dimensions, `is_diagonal`, and every diagonal
      element one. Equal dimensions make the dense matrix square. */
  predicate DenseEqIdentity(a: Dense.DenseMatrix, id: Identity.IdentityMatrix)
    requires Dense.Valid(a)
  {
    Dense.Dims(a) == Identity.Dims(id) && Dense.IsDiagonalSpec(a) &&
    (Dense.ReadableWhenRowMajorOrSquare(a);
     forall x :: x in Dense.Diags(a) ==> x == 1)
  }

  predicate IdentityEqDense(id: Identity.IdentityMatrix, a: Dense.DenseMatrix)
    requires Dense.Valid(a)
  {
    Identity.Dims(id) == Dense.Dims(a) && Dense.IsDiagonalSpec(a) &&
    (Dense.ReadableWhenRowMajorOrSquare(a);
     forall x :: x in Dense.Diags(a) ==> x == 1)
  }

  /** "Every value of `diags` is one" is "every element (i, i) is one". */
  lemma DiagsAllOne(a: Dense.DenseMatrix)
    requires Dense.Readable(a)
    ensures (forall x :: x in Dense.Diags(a) ==> x == 1) <==>
      forall i: nat :: i < Dense.MinDim(a) ==> Dense.Element(a, i, i) == Some(1)
  {
    var diags := Dense.Diags(a);
    if forall i: nat :: i < Dense.MinDim(a) ==> Dense.Element(a, i, i) == Some(1) {
      forall x | x in diags
        ensures x == 1
      {
        var i :| 0 <= i < |diags| && diags[i] == x;
      }
    }
    if forall x :: x in diags ==> x == 1 {
      forall i: nat | i < Dense.MinDim(a)
        ensures Dense.Element(a, i, i) == Some(1)
      {
        assert diags[i] in diags;
      }
    }
  }

  lemma DenseEqIdentityMeansSame(a: Dense.DenseMatrix, id: Identity.IdentityMatrix)
    requires Dense.Readable(a)
    ensures DenseEqIdentity(a, id) <==> Same(DenseM(a), IdentityM(id))
    ensures IdentityEqDense(id, a) == DenseEqIdentity(a, id)
  {
    if Dense.Dims(a) == Identity.Dims(id) {
      assert a.m == a.n;
      DiagsAllOne(a);
      forall i: nat, j: nat | i < a.m && j < a.n
        ensures DenseM(a).Entry(i, j) == Dense.Element(a, i, j)
        ensures IdentityM(id).Entry(i, j) == Some(if i == j then 1 else 0)
      {
      }
    }
  }

  /** Dense == Zero: same dimensions and every stored value zero. */
  predicate DenseEqZero(a: Dense.DenseMatrix, z: Zero.ZeroMatrix)
  {
    Dense.Dims(a) == Zero.Dims(z) && forall x :: x in Dense.Elements(a) ==> x == 0
  }

  predicate ZeroEqDense(z: Zero.ZeroMatrix, a: Dense.DenseMatrix)
  {
    Zero.Dims(z) == Dense.Dims(a) && forall x :: x in Dense.Elements(a) ==> x == 0
  }

  /** Checking the raw storage is checking every entry, because each storage
      cell is the entry of exactly one cell of a row-major or square grid. */
  lemma DenseEqZeroMeansSame(a: Dense.DenseMatrix, z: Zero.ZeroMatrix)
    requires Dense.Valid(a) && (a.readOrder == RowMajor || a.m == a.n)
    ensures Dense.Readable(a)
    ensures DenseEqZero(a, z) <==> Same(DenseM(a), ZeroM(z))
    ensures ZeroEqDense(z, a) == DenseEqZero(a, z)
  {
    Dense.ReadableWhenRowMajorOrSquare(a);
    if Same(DenseM(a), ZeroM(z)) {
      forall x | x in Dense.Elements(a)
        ensures x == 0
      {
        var k :| 0 <= k < |a.mat| && a.mat[k] == x;
        var i, j := Dense.CellOf(a, k);
        assert DenseM(a).Entry(i, j) == ZeroM(z).Entry(i, j);
      }
    }
    if DenseEqZero(a, z) {
      forall i: nat, j: nat | i < Dense.Rows(a) && j < Dense.Cols(a)
        ensures DenseM(a).Entry(i, j) == Some(0)
      {
        var x := a.mat[Dense.Offset(a, i, j)];
        assert x in Dense.Elements(a);
        assert x == 0;
        assert Dense.Element(a, i, j) == Some(x);
        assert DenseM(a).Entry(i, j) == Dense.Element(a, i, j);
      }
    }
  }

  // ---- Sparse -----------------------------------------------------------

  /** Zero == Sparse: same dimensions and every stored value zero. */
  predicate ZeroEqSparse(z: Zero.ZeroMatrix, s: Sparse.SparseMatrix)
    reads s
  {
    Zero.Dims(z) == s.Dims() && forall v :: v in s.entries.Values ==> v == 0
  }

  /** Sparse == Zero: same dimensions and every element of `elements()`, the
      walk over the m×n storage grid, zero. */
  predicate SparseEqZero(s: Sparse.SparseMatrix, z: Zero.ZeroMatrix)
    reads s
    requires s.Dims() == Zero.Dims(z) ==> s.ElementsInRange()
  {
    s.Dims() == Zero.Dims(z) &&
    forall i: nat, j: nat :: i < s.m && j < s.n ==> s.Get(i, j) == Some(0)
  }

  /** With every key inside the grid, the two directions agree: the relation
      is symmetric although one side reads the map and the other the walk. */
  lemma ZeroSparseSymmetric(z: Zero.ZeroMatrix, s: Sparse.SparseMatrix)
    requires s.KeysInRange()
    requires s.Dims() == Zero.Dims(z) ==> s.ElementsInRange()
    ensures ZeroEqSparse(z, s) == SparseEqZero(s, z)
  {
    if ZeroEqSparse(z, s) {
      forall i: nat, j: nat | i < s.m && j < s.n
        ensures s.Get(i, j) == Some(0)
      {
        if s.Key(i, j) in s.entries {
          assert s.entries[s.Key(i, j)] in s.entries.Values;
        }
      }
    }
    if SparseEqZero(s, z) {
      forall v | v in s.entries.Values
        ensures v == 0
      {
        var k :| k in s.entries && s.entries[k] == v;
        var cell := if s.readOrder == RowMajor then k else (k.1, k.0);
        assert s.Key(cell.0, cell.1) == k;
        assert s.Get(cell.0, cell.1) == Some(v);
      }
    }
  }

  lemma ZeroEqSparseMeansSame(z: Zero.ZeroMatrix, s: Sparse.SparseMatrix)
    requires s.KeysInRange()
    ensures ZeroEqSparse(z, s) <==> Same(ZeroM(z), SparseM(s))
  {
    if ZeroEqSparse(z, s) {
      forall i: nat, j: nat | i < s.Rows() && j < s.Cols()
        ensures SparseM(s).Entry(i, j) == Some(0)
      {
        if s.Key(i, j) in s.entries {
          assert s.entries[s.Key(i, j)] in s.entries.Values;
        }
      }
    }
    if Same(ZeroM(z), SparseM(s)) {
      forall v | v in s.entries.Values
        ensures v == 0
      {
        var k :| k in s.entries && s.entries[k] == v;
        var cell := if s.readOrder == RowMajor then k else (k.1, k.0);
        assert s.Key(cell.0, cell.1) == k;
        assert SparseM(s).Entry(cell.0, cell.1) == Some(v);
        assert ZeroM(z).Entry(cell.0, cell.1) == SparseM(s).Entry(cell.0, cell.1);
      }
    }
  }

  /** Sparse == Identity: same dimensions, `is_diagonal` (no key off the
      diagonal), and every diagonal element one. */
  predicate SparseEqIdentity(s: Sparse.SparseMatrix, id: Identity.IdentityMatrix)
    reads s
  {
    s.Dims() == Identity.Dims(id) && s.IsDiagonal() && forall x :: x in s.Diags() ==> x == 1
  }

  predicate IdentityEqSparse(id: Identity.IdentityMatrix, s: Sparse.SparseMatrix)
    reads s
  {
    Identity.Dims(id) == s.Dims() && s.IsDiagonal() &&
    forall i: nat :: i < Identity.Rows(id) ==> s.Get(i, i) == Some(1)
  }

  /** Equal means the same matrix; the converse needs that no zero is stored
      off the diagonal, since `is_diagonal` looks at keys, not values. */
  lemma SparseEqIdentityMeansSame(s: Sparse.SparseMatrix, id: Identity.IdentityMatrix)
    ensures IdentityEqSparse(id, s) == SparseEqIdentity(s, id)
    ensures SparseEqIdentity(s, id) ==> Same(SparseM(s), IdentityM(id))
    ensures (s.KeysInRange() && (forall k :: k in s.entries && k.0 != k.1 ==> s.entries[k] != 0) &&
             Same(SparseM(s), IdentityM(id))) ==> SparseEqIdentity(s, id)
  {
    var diags := s.Diags();
    Sparse.IsDiagonalMeansOffDiagonalZero(s);
    if s.Dims() == Identity.Dims(id) {
      if IdentityEqSparse(id, s) {
        forall x | x in diags
          ensures x == 1
        {
          var i :| 0 <= i < |diags| && diags[i] == x;
        }
      }
      if SparseEqIdentity(s, id) {
        forall i: nat | i < Identity.Rows(id)
          ensures s.Get(i, i) == Some(1)
        {
          assert diags[i] in diags;
        }
      }
      if Same(SparseM(s), IdentityM(id)) {
        forall i: nat, j: nat | i < s.Rows() && j < s.Cols() && i != j
          ensures s.Get(i, j) == Some(0)
        {
          assert SparseM(s).Entry(i, j) == IdentityM(id).Entry(i, j);
        }
        forall x | x in diags
          ensures x == 1
        {
          var i :| 0 <= i < |diags| && diags[i] == x;
          assert SparseM(s).Entry(i, i) == IdentityM(id).Entry(i, i);
        }
      }
    }
  }

  /** Sparse == Dense and Dense == Sparse: same dimensions and the same entry
      at every cell. */
  predicate SparseEqDense(s: Sparse.SparseMatrix, d: Dense.DenseMatrix)
    reads s
    requires s.Dims() == Dense.Dims(d) ==> Dense.Readable(d)
  {
    s.Dims() == Dense.Dims(d) &&
    forall i: nat, j: nat :: i < s.Rows() && j < s.Cols() ==> s.Get(i, j) == Dense.Element(d, i, j)
  }

  predicate DenseEqSparse(d: Dense.DenseMatrix, s: Sparse.SparseMatrix)
    reads s
    requires Dense.Dims(d) == s.Dims() ==> Dense.Readable(d)
  {
    Dense.Dims(d) == s.Dims() &&
    forall i: nat, j: nat :: i < Dense.Rows(d) && j < Dense.Cols(d) ==> Dense.Element(d, i, j) == s.Get(i, j)
  }

  lemma SparseEqDenseMeansSame(s: Sparse.SparseMatrix, d: Dense.DenseMatrix)
    requires Dense.Readable(d)
    ensures SparseEqDense(s, d) <==> Same(SparseM(s), DenseM(d))
    ensures DenseEqSparse(d, s) == SparseEqDense(s, d)
  {
    forall i: nat, j: nat | i < Dense.Rows(d) && j < Dense.Cols(d)
      ensures DenseM(d).Entry(i, j) == Dense.Element(d, i, j)
    {
    }
  }

  /** The key listings a HashMap iteration may produce: every key exactly
      once, in some order. */
  predicate Lists(keys: seq<(nat, nat)>, entries: map<(nat, nat), int>)
  {
    (forall k :: k in entries ==> k in keys) &&
    (forall k :: k in keys ==> k in entries) &&
    forall p, q :: 0 <= p < q < |keys| ==> keys[p] != keys[q]
  }

  /** Sparse == Sparse as written: same dimensions, the same number of stored
      entries, and the entries agree when the two key iterations are zipped
      (the element read at each key of `a` against the element read at the
      key of `b` in the same position). The iteration orders are parameters:
      the crate gets them from two unrelated hash maps. */
  predicate SparseEqSparse(a: Sparse.SparseMatrix, b: Sparse.SparseMatrix,
                           ka: seq<(nat, nat)>, kb: seq<(nat, nat)>)
    reads a, b
    requires Lists(ka, a.entries) && Lists(kb, b.entries)
  {
    a.Dims() == b.Dims() && |a.entries| == |b.entries| &&
    forall t :: 0 <= t < |ka| && t < |kb| ==> a.Get(ka[t].0, ka[t].1) == b.Get(kb[t].0, kb[t].1)
  }

  /** When both maps hold the same keys, both are read row by row, and both
      are iterated in the same order, the zip compares the matrices. */
  lemma SparseEqSparseSameOrder(a: Sparse.SparseMatrix, b: Sparse.SparseMatrix, ks: seq<(nat, nat)>)
    requires a.readOrder == RowMajor && b.readOrder == RowMajor
    requires a.KeysInRange() && b.KeysInRange()
    requires a.entries.Keys == b.entries.Keys
    requires Lists(ks, a.entries)
    ensures Lists(ks, b.entries)
    ensures SparseEqSparse(a, b, ks, ks) <==> Same(SparseM(a), SparseM(b))
  {
    if SparseEqSparse(a, b, ks, ks) {
      forall i: nat, j: nat | i < a.Rows() && j < a.Cols()
        ensures SparseM(a).Entry(i, j) == SparseM(b).Entry(i, j)
      {
        if (i, j) in a.entries {
          var t :| 0 <= t < |ks| && ks[t] == (i, j);
        }
      }
    }
    if Same(SparseM(a), SparseM(b)) {
      assert |a.entries| == |a.entries.Keys| == |b.entries.Keys| == |b.entries|;
      forall t | 0 <= t < |ks|
        ensures a.Get(ks[t].0, ks[t].1) == b.Get(ks[t].0, ks[t].1)
      {
        assert ks[t] in a.entries;
        if ks[t].0 < a.Rows() && ks[t].1 < a.Cols() {
          assert SparseM(a).Entry(ks[t].0, ks[t].1) == SparseM(b).Entry(ks[t].0, ks[t].1);
        }
      }
    }
  }

  /** The zip reads every stored key as if it were a logical coordinate.
      Under ColMajor the key (0, 1) holds the cell (1, 0), so two transposed
      matrices that differ only there compare equal. */
  lemma SparseEqSparseMisreadsColMajor(a: Sparse.SparseMatrix, b: Sparse.SparseMatrix)
    requires a.readOrder == ColMajor && b.readOrder == ColMajor
    requires a.m == 2 && a.n == 2 && b.m == 2 && b.n == 2
    requires a.entries == map[(0, 1) := 5] && b.entries == map[(0, 1) := 7]
    ensures Lists([(0, 1)], a.entries) && Lists([(0, 1)], b.entries)
    ensures SparseEqSparse(a, b, [(0, 1)], [(0, 1)])
    ensures !Same(SparseM(a), SparseM(b))
  {
    assert a.Get(1, 0) == Some(5) && b.Get(1, 0) == Some(7);
    assert SparseM(a).Entry(1, 0) != SparseM(b).Entry(1, 0);
  }

  /** The key-count test tells apart two readings of the same matrix when
      one of them stores an explicit zero. */
  lemma SparseEqSparseCountsStoredZeros(a: Sparse.SparseMatrix, b: Sparse.SparseMatrix)
    requires a.readOrder == RowMajor && b.readOrder == RowMajor
    requires a.m == 1 && a.n == 1 && b.m == 1 && b.n == 1
    requires a.entries == map[(0, 0) := 0] && b.entries == map[]
    ensures Lists([(0, 0)], a.entries) && Lists([], b.entries)
    ensures Same(SparseM(a), SparseM(b))
    ensures !SparseEqSparse(a, b, [(0, 0)], [])
  {
    assert |a.entries| == 1;
  }

  /** Sparse == Sparse as intended: same dimensions, and every stored entry
      of either matrix, read at the logical cell it belongs to, agrees with
      the other matrix at that cell. No iteration order is involved. */
  predicate SparseEqSparseIntended(a: Sparse.SparseMatrix, b: Sparse.SparseMatrix)
    reads a, b
  {
    a.Dims() == b.Dims() &&
    (forall k :: k in a.entries ==> a.Get(a.CellAt(k).0, a.CellAt(k).1) == b.Get(a.CellAt(k).0, a.CellAt(k).1)) &&
    (forall k :: k in b.entries ==> a.Get(b.CellAt(k).0, b.CellAt(k).1) == b.Get(b.CellAt(k).0, b.CellAt(k).1))
  }

  /** The intended comparison is exactly "the same matrix", for either read
      order, any stored zeros and any key sets, and it is symmetric. */
  lemma SparseEqSparseIntendedMeansSame(a: Sparse.SparseMatrix, b: Sparse.SparseMatrix)
    requires a.KeysInRange() && b.KeysInRange()
    ensures SparseEqSparseIntended(a, b) <==> Same(SparseM(a), SparseM(b))
    ensures SparseEqSparseIntended(a, b) == SparseEqSparseIntended(b, a)
  {
    if SparseEqSparseIntended(a, b) {
      forall i: nat, j: nat | i < a.Rows() && j < a.Cols()
        ensures SparseM(a).Entry(i, j) == SparseM(b).Entry(i, j)
      {
        if a.Key(i, j) in a.entries {
          assert a.CellAt(a.Key(i, j)) == (i, j);
        } else if b.Key(i, j) in b.entries {
          assert b.CellAt(b.Key(i, j)) == (i, j);
        }
      }
    }
    if Same(SparseM(a), SparseM(b)) {
      forall k | k in a.entries
        ensures a.Get(a.CellAt(k).0, a.CellAt(k).1) == b.Get(a.CellAt(k).0, a.CellAt(k).1)
      {
        var c := a.CellAt(k);
        if c.0 < a.Rows() && c.1 < a.Cols() {
          assert SparseM(a).Entry(c.0, c.1) == SparseM(b).Entry(c.0, c.1);
        }
      }
      forall k | k in b.entries
        ensures a.Get(b.CellAt(k).0, b.CellAt(k).1) == b.Get(b.CellAt(k).0, b.CellAt(k).1)
      {
        var c := b.CellAt(k);
        if c.0 < a.Rows() && c.1 < a.Cols() {
          assert SparseM(a).Entry(c.0, c.1) == SparseM(b).Entry(c.0, c.1);
        }
      }
    }
  }
}
