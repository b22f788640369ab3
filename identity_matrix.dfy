/** The identity matrix: it stores only its dimension n and computes every
    entry (one on the diagonal, zero elsewhere). */
module Identity {
  import opened Common
  import Structure
  import Index

  datatype IdentityMatrix = IdentityMatrix(n: nat)

  /** The entry formula of every identity matrix. */
  function Kronecker(i: nat, j: nat): int
  {
    if i == j then 1 else 0
  }

  function New(n: nat): (r: IdentityMatrix)
    ensures Rows(r) == n && Cols(r) == n
  {
    IdentityMatrix(n)
  }

  function Rows(id: IdentityMatrix): nat
  {
    id.n
  }

  function Cols(id: IdentityMatrix): nat
  {
    id.n
  }

  function Dims(id: IdentityMatrix): (nat, nat)
  {
    (Rows(id), Cols(id))
  }

  /** Reading outside the n×n grid gives None; inside, the Kronecker delta. */
  function Get(id: IdentityMatrix, i: nat, j: nat): (r: Option<int>)
    ensures r.None? <==> (i >= id.n || j >= id.n)
    ensures r.Some? ==> r.value == Kronecker(i, j)
  {
    if i >= Rows(id) || j >= Cols(id) then None
    else if i != j then Some(0)
    else Some(1)
  }

  /** An identity matrix cannot be written to: inside the grid the attempt is
      fatal, outside it is the ordinary "absent" answer. */
  function Set(id: IdentityMatrix, i: nat, j: nat, val: int): (r: Checked<Option<int>>)
    ensures r.Abort? <==> Get(id, i, j).Some?
    ensures r.Abort? ==> r.cause == UnsupportedMutation
    ensures r.Pass? ==> r.value == None
  {
    if i >= Rows(id) || j >= Cols(id) then Pass(None)
    else Abort(UnsupportedMutation)
  }

  function Transpose(id: IdentityMatrix): (r: IdentityMatrix)
    ensures Dims(r) == (Cols(id), Rows(id))
    ensures forall i: nat, j: nat :: Get(r, j, i) == Get(id, i, j)
  {
    id
  }

  /** The diagonal, get(i, i) for i below min(rows, cols). */
  function Diags(id: IdentityMatrix): (r: seq<int>)
    ensures |r| == id.n
    ensures forall i :: 0 <= i < |r| ==> Get(id, i, i) == Some(r[i])
  {
    seq(id.n, i requires 0 <= i < id.n => Get(id, i, i).value)
  }

  /** The trace is n itself, which is the sum of the diagonal. */
  function Trace(id: IdentityMatrix): (t: int)
    ensures t == Sum(Diags(id))
  {
    SumAllOne(Diags(id));
    id.n
  }

  // The structural predicates: every answer is a constant.
  function IsSquare(id: IdentityMatrix): bool { Rows(id) == Cols(id) }
  function IsSymmetric(id: IdentityMatrix): bool { true }
  function IsOrthogonal(id: IdentityMatrix): bool { true }
  function IsDiagonal(id: IdentityMatrix): bool { true }
  function IsLowerTriangular(id: IdentityMatrix): bool { true }
  function IsUnilowerTriangular(id: IdentityMatrix): bool { true }
  function IsStrictlyLowerTriangular(id: IdentityMatrix): bool { false }
  function IsLowerHessenberg(id: IdentityMatrix): bool { true }
  function IsUpperTriangular(id: IdentityMatrix): bool { true }
  function IsUniupperTriangular(id: IdentityMatrix): bool { true }
  function IsStrictlyUpperTriangular(id: IdentityMatrix): bool { false }
  function IsUpperHessenberg(id: IdentityMatrix): bool { true }

  lemma {:induction false} KroneckerRowDot(i: nat, j: nat, k: nat)
    ensures Structure.RowDot(Kronecker, i, j, k) == if i == j && i < k then 1 else 0
  {
    if k > 0 {
      KroneckerRowDot(i, j, k - 1);
    }
  }

  /** Each constant answer is the analytically correct one for a non-empty
      identity matrix. */
  lemma PredicatesAnalytic(id: IdentityMatrix)
    requires id.n > 0
    ensures IsSquare(id)
    ensures IsSymmetric(id) == Structure.Symmetric(id.n, id.n, Kronecker)
    ensures IsOrthogonal(id) == Structure.Orthogonal(id.n, id.n, Kronecker)
    ensures IsDiagonal(id) == Structure.Diagonal(id.n, id.n, Kronecker)
    ensures IsLowerTriangular(id) == Structure.LowerTriangular(id.n, id.n, Kronecker)
    ensures IsUnilowerTriangular(id) == Structure.UnitLowerTriangular(id.n, id.n, Kronecker)
    ensures IsStrictlyLowerTriangular(id) == Structure.StrictlyLowerTriangular(id.n, id.n, Kronecker)
    ensures IsLowerHessenberg(id) == Structure.LowerHessenberg(id.n, id.n, Kronecker)
    ensures IsUpperTriangular(id) == Structure.UpperTriangular(id.n, id.n, Kronecker)
    ensures IsUniupperTriangular(id) == Structure.UnitUpperTriangular(id.n, id.n, Kronecker)
    ensures IsStrictlyUpperTriangular(id) == Structure.StrictlyUpperTriangular(id.n, id.n, Kronecker)
    ensures IsUpperHessenberg(id) == Structure.UpperHessenberg(id.n, id.n, Kronecker)
  {
    forall i: nat, j: nat | i < id.n && j < id.n
      ensures Structure.RowDot(Kronecker, i, j, id.n) == if i == j then 1 else 0
    {
      KroneckerRowDot(i, j, id.n);
    }
    assert Kronecker(0, 0) == 1;
  }

  /** The 0×0 identity matrix: every constant answer agrees with the
      vacuous entrywise property except the two strictly triangular ones,
      which the crate answers false although they hold vacuously. */
  lemma EmptyPredicates()
    ensures IsSymmetric(New(0)) == Structure.Symmetric(0, 0, Kronecker)
    ensures IsOrthogonal(New(0)) == Structure.Orthogonal(0, 0, Kronecker)
    ensures IsDiagonal(New(0)) == Structure.Diagonal(0, 0, Kronecker)
    ensures IsLowerTriangular(New(0)) == Structure.LowerTriangular(0, 0, Kronecker)
    ensures IsUnilowerTriangular(New(0)) == Structure.UnitLowerTriangular(0, 0, Kronecker)
    ensures IsLowerHessenberg(New(0)) == Structure.LowerHessenberg(0, 0, Kronecker)
    ensures IsUpperTriangular(New(0)) == Structure.UpperTriangular(0, 0, Kronecker)
    ensures IsUniupperTriangular(New(0)) == Structure.UnitUpperTriangular(0, 0, Kronecker)
    ensures IsUpperHessenberg(New(0)) == Structure.UpperHessenberg(0, 0, Kronecker)
    ensures !IsStrictlyLowerTriangular(New(0)) && Structure.StrictlyLowerTriangular(0, 0, Kronecker)
    ensures !IsStrictlyUpperTriangular(New(0)) && Structure.StrictlyUpperTriangular(0, 0, Kronecker)
  {
  }

  /** The row-major listing the iterator walks: position k is the cell
      (k / n, k % n), and that cell is on the diagonal exactly when
      k is a multiple of n + 1. */
  lemma DiagonalOffsets(n: nat, k: nat)
    requires k < n * n
    ensures k / n < n && k % n < n
    ensures (k % (n + 1) == 0) <==> (k / n == k % n)
  {
    Index.RowMajorSplit(k, n, n);
    var i, j := k / n, k % n;
    assert k == Index.At(i, j, n);
    if i == j {
      Index.DiagonalAt(i, n);
    } else if k % (n + 1) == 0 {
      Index.MultipleBelowSquare(k, n);
      var p := k / (n + 1);
      Index.AtInjective(p, p, i, j, n);
    }
  }

  /** Intended `elements`: the n*n entries in row-major order, writing one at
      the diagonal offsets i*n + i. */
  method ElementsIntended(id: IdentityMatrix) returns (v: seq<int>)
    ensures |v| == id.n * id.n
    ensures forall i: nat, j: nat :: i < id.n && j < id.n ==>
      Index.At(i, j, id.n) < |v| && v[Index.At(i, j, id.n)] == Kronecker(i, j)
  {
    var n := id.n;
    var a := new int[n * n](_ => 0);
    forall p: nat, q: nat | p < n && q < n
      ensures Index.At(p, q, n) < a.Length
    {
      Index.AtBound(p, q, n, n);
    }
    for i := 0 to n
      invariant forall p: nat, q: nat :: p < n && q < n ==>
        a[Index.At(p, q, n)] == (if p == q && p < i then 1 else 0)
    {
      forall p: nat, q: nat | p < n && q < n
        ensures Index.At(p, q, n) == Index.At(i, i, n) <==> p == i && q == i
      {
        Index.AtInjective(p, q, i, i, n);
      }
      a[Index.At(i, i, n)] := 1;
    }
    v := a[..];
  }

  /** What `elements` computes as written: the loop writes `v[i]` instead of
      the diagonal offset, so the first n positions hold one. */
  function WrittenElements(n: nat): (r: seq<int>)
  {
    seq(n * n, k => if k < n then 1 else 0)
  }

  method Elements(id: IdentityMatrix) returns (v: seq<int>)
    ensures v == WrittenElements(id.n)
  {
    var n := id.n;
    var a := new int[n * n](_ => 0);
    if n > 0 {
      Index.MulMonotone(1, n, n);
    }
    for i := 0 to n
      invariant forall k :: 0 <= k < a.Length ==> a[k] == (if k < i then 1 else 0)
    {
      for j := 0 to n
        invariant forall k :: 0 <= k < a.Length ==> a[k] == (if k < i || (k == i && i < j) then 1 else 0)
      {
        if i == j {
          a[i] := 1;
        }
      }
    }
    v := a[..];
  }

  /** As written, `elements` of an identity matrix of dimension two or more
      puts a one at row-major position 1, which is the off-diagonal cell
      (0, 1), and a zero at the last diagonal cell. */
  lemma WrittenElementsMisplaceDiagonal(n: nat)
    requires n >= 2
    ensures WrittenElements(n)[1] == 1 && Get(IdentityMatrix(n), 0, 1) == Some(0)
    ensures WrittenElements(n)[(n - 1) * n + (n - 1)] == 0 && Get(IdentityMatrix(n), n - 1, n - 1) == Some(1)
  {
    Index.RowMajorBound(n - 1, n - 1, n, n);
    Index.MulMonotone(2, n, n);
    assert (n - 1) * n + (n - 1) >= n by {
      Index.MulMonotone(1, n - 1, n);
    }
  }

  /** The consuming iterator: it walks the n*n entries by a running index. */
  class IdentityIter {
    const mat: IdentityMatrix
    var index: nat

    constructor (mat: IdentityMatrix)
      ensures this.mat == mat && index == 0
    {
      this.mat := mat;
      index := 0;
    }

    /** Yields entry index in row-major order, then None once all n*n
        entries are spent. */
    method Next() returns (r: Option<int>)
      modifies this
      ensures index == old(index) + 1
      ensures r.Some? <==> old(index) < mat.n * mat.n
      ensures r.Some? ==> r.value == (if old(index) % (mat.n + 1) == 0 then 1 else 0)
      ensures r.Some? ==> old(index) / mat.n < mat.n && old(index) % mat.n < mat.n
      ensures r.Some? ==> r == Get(mat, old(index) / mat.n, old(index) % mat.n)
    {
      r := None;
      if index < Rows(mat) * Cols(mat) {
        DiagonalOffsets(mat.n, index);
        if index % (Cols(mat) + 1) == 0 {
          r := Some(1);
        } else {
          r := Some(0);
        }
      }
      index := index + 1;
    }
  }

  /** The crate's own check of the iterator on the 2×2 identity. */
  method IterOfTwo()
  {
    var it := new IdentityIter(New(2));
    var a := it.Next();
    var b := it.Next();
    var c := it.Next();
    var d := it.Next();
    var e := it.Next();
    assert [a, b, c, d, e] == [Some(1), Some(0), Some(0), Some(1), None];
  }
}
