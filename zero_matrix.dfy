/** The zero matrix: it stores only its dimensions m×n; every entry inside
    the grid is zero. */
module Zero {
  import opened Common
  import Structure
  import Index

  datatype ZeroMatrix = ZeroMatrix(m: nat, n: nat)

  /** The entry formula of every zero matrix. */
  function Nought(i: nat, j: nat): int
  {
    0
  }

  function New(m: nat, n: nat): (r: ZeroMatrix)
    ensures Rows(r) == m && Cols(r) == n
  {
    ZeroMatrix(m, n)
  }

  function Rows(z: ZeroMatrix): nat
  {
    z.m
  }

  function Cols(z: ZeroMatrix): nat
  {
    z.n
  }

  function Dims(z: ZeroMatrix): (nat, nat)
  {
    (Rows(z), Cols(z))
  }

  function IsSquare(z: ZeroMatrix): bool
  {
    Rows(z) == Cols(z)
  }

  /** Zero inside the m×n grid, None outside it. */
  function Element(z: ZeroMatrix, i: nat, j: nat): (r: Option<int>)
    ensures r.Some? <==> i < Rows(z) && j < Cols(z)
    ensures r.Some? ==> r.value == 0
  {
    if i < z.m && j < z.n then Some(0)
    else None
  }

  /** Swapping the dimensions; applying it twice gives the matrix back. */
  function Transpose(z: ZeroMatrix): (r: ZeroMatrix)
    ensures Dims(r) == (Cols(z), Rows(z))
    ensures forall i: nat, j: nat :: Element(r, j, i) == Element(z, i, j)
  {
    New(z.n, z.m)
  }

  lemma TransposeInvolution(z: ZeroMatrix)
    ensures Transpose(Transpose(z)) == z
  {
  }

  /** The diagonal, element(i, i) for i below min(rows, cols). */
  function Diags(z: ZeroMatrix): (r: seq<int>)
    ensures |r| == if z.m < z.n then z.m else z.n
    ensures forall i :: 0 <= i < |r| ==> Element(z, i, i) == Some(r[i])
  {
    seq(if z.m < z.n then z.m else z.n, i => 0)
  }

  /** The trace is zero, which is the sum of the diagonal. */
  function Trace(z: ZeroMatrix): (t: int)
    ensures t == Sum(Diags(z))
  {
    SumAllZero(Diags(z));
    0
  }

  /** All m*n entries, each zero. */
  function Elements(z: ZeroMatrix): (r: seq<int>)
    ensures |r| == z.m * z.n
    ensures forall i: nat, j: nat :: i < z.m && j < z.n ==>
      Index.At(i, j, z.n) < |r| && Element(z, i, j) == Some(r[Index.At(i, j, z.n)])
  {
    var r := seq(z.m * z.n, _ => 0);
    forall i: nat, j: nat | i < z.m && j < z.n
      ensures Index.At(i, j, z.n) < |r|
    {
      Index.AtBound(i, j, z.m, z.n);
    }
    r
  }

  // The structural predicates: constants or squareness.
  function IsSymmetric(z: ZeroMatrix): bool { IsSquare(z) }
  function IsOrthogonal(z: ZeroMatrix): bool { false }
  function IsDiagonal(z: ZeroMatrix): bool { true }
  function IsLowerTriangular(z: ZeroMatrix): bool { IsSquare(z) }
  function IsUnilowerTriangular(z: ZeroMatrix): bool { false }
  function IsStrictlyLowerTriangular(z: ZeroMatrix): bool { IsSquare(z) }
  function IsLowerHessenberg(z: ZeroMatrix): bool { IsSquare(z) }
  function IsUpperTriangular(z: ZeroMatrix): bool { IsSquare(z) }
  function IsUniupperTriangular(z: ZeroMatrix): bool { false }
  function IsStrictlyUpperTriangular(z: ZeroMatrix): bool { IsSquare(z) }
  function IsUpperHessenberg(z: ZeroMatrix): bool { IsSquare(z) }

  lemma {:induction false} NoughtRowDot(i: nat, j: nat, k: nat)
    ensures Structure.RowDot(Nought, i, j, k) == 0
  {
    if k > 0 {
      NoughtRowDot(i, j, k - 1);
    }
  }

  /** Each answer is the analytically correct one for a zero matrix that is
      not 0×0 (for 0×0 the "uni" and orthogonality conditions hold
      vacuously, while the crate answers false). */
  lemma PredicatesAnalytic(z: ZeroMatrix)
    requires z.m > 0 || z.n > 0
    ensures IsSymmetric(z) == Structure.Symmetric(z.m, z.n, Nought)
    ensures IsOrthogonal(z) == Structure.Orthogonal(z.m, z.n, Nought)
    ensures IsDiagonal(z) == Structure.Diagonal(z.m, z.n, Nought)
    ensures IsLowerTriangular(z) == Structure.LowerTriangular(z.m, z.n, Nought)
    ensures IsUnilowerTriangular(z) == Structure.UnitLowerTriangular(z.m, z.n, Nought)
    ensures IsStrictlyLowerTriangular(z) == Structure.StrictlyLowerTriangular(z.m, z.n, Nought)
    ensures IsLowerHessenberg(z) == Structure.LowerHessenberg(z.m, z.n, Nought)
    ensures IsUpperTriangular(z) == Structure.UpperTriangular(z.m, z.n, Nought)
    ensures IsUniupperTriangular(z) == Structure.UnitUpperTriangular(z.m, z.n, Nought)
    ensures IsStrictlyUpperTriangular(z) == Structure.StrictlyUpperTriangular(z.m, z.n, Nought)
    ensures IsUpperHessenberg(z) == Structure.UpperHessenberg(z.m, z.n, Nought)
  {
    NoughtRowDot(0, 0, z.n);
    assert Nought(0, 0) == 0;
  }

  /** The 0×0 zero matrix: every answer agrees with the vacuous entrywise
      property except orthogonality and the two "uni" ones, which the crate
      answers false although they hold vacuously. */
  lemma EmptyPredicates()
    ensures IsSymmetric(New(0, 0)) == Structure.Symmetric(0, 0, Nought)
    ensures IsDiagonal(New(0, 0)) == Structure.Diagonal(0, 0, Nought)
    ensures IsLowerTriangular(New(0, 0)) == Structure.LowerTriangular(0, 0, Nought)
    ensures IsStrictlyLowerTriangular(New(0, 0)) == Structure.StrictlyLowerTriangular(0, 0, Nought)
    ensures IsLowerHessenberg(New(0, 0)) == Structure.LowerHessenberg(0, 0, Nought)
    ensures IsUpperTriangular(New(0, 0)) == Structure.UpperTriangular(0, 0, Nought)
    ensures IsStrictlyUpperTriangular(New(0, 0)) == Structure.StrictlyUpperTriangular(0, 0, Nought)
    ensures IsUpperHessenberg(New(0, 0)) == Structure.UpperHessenberg(0, 0, Nought)
    ensures !IsOrthogonal(New(0, 0)) && Structure.Orthogonal(0, 0, Nought)
    ensures !IsUnilowerTriangular(New(0, 0)) && Structure.UnitLowerTriangular(0, 0, Nought)
    ensures !IsUniupperTriangular(New(0, 0)) && Structure.UnitUpperTriangular(0, 0, Nought)
  {
  }

  /** The consuming iterator: it walks the m*n entries by a running index. */
  class ZeroIter {
    const mat: ZeroMatrix
    var index: nat

    constructor (mat: ZeroMatrix)
      ensures this.mat == mat && index == 0
    {
      this.mat := mat;
      index := 0;
    }

    /** Yields zero for each of the m*n entries, then None. */
    method Next() returns (r: Option<int>)
      modifies this
      ensures index == old(index) + 1
      ensures r.Some? <==> old(index) < mat.m * mat.n
      ensures r.Some? ==> r.value == 0
    {
      r := None;
      if index < Rows(mat) * Cols(mat) {
        r := Some(0);
      }
      index := index + 1;
    }
  }

  /** The crate's own check of the iterator on the 2×2 zero matrix. */
  method IterOfTwoByTwo()
  {
    var it := new ZeroIter(New(2, 2));
    var a := it.Next();
    var b := it.Next();
    var c := it.Next();
    var d := it.Next();
    var e := it.Next();
    assert [a, b, c, d, e] == [Some(0), Some(0), Some(0), Some(0), None];
  }
}
