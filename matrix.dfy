/** Any of the four representations, with the accessor they share: rows,
    cols and the entry at (i, j). This is the logical matrix the cross-type
    operators are measured against. */
module Matrix {
  import opened Common
  import Dense
  import Sparse
  import Identity
  import Zero

  datatype AnyMatrix =
    | DenseM(d: Dense.DenseMatrix)
    | SparseM(s: Sparse.SparseMatrix)
    | IdentityM(id: Identity.IdentityMatrix)
    | ZeroM(z: Zero.ZeroMatrix)
  {
    /** The heap objects the matrix reads: the sparse map's owner. */
    function Footprint(): set<object>
    {
      if SparseM? then {s} else {}
    }

    function Rows(): nat
      reads Footprint()
    {
      match this
      case DenseM(d) => Dense.Rows(d)
      case SparseM(s) => s.Rows()
      case IdentityM(id) => Identity.Rows(id)
      case ZeroM(z) => Zero.Rows(z)
    }

    function Cols(): nat
      reads Footprint()
    {
      match this
      case DenseM(d) => Dense.Cols(d)
      case SparseM(s) => s.Cols()
      case IdentityM(id) => Identity.Cols(id)
      case ZeroM(z) => Zero.Cols(z)
    }

    function Dims(): (nat, nat)
      reads Footprint()
    {
      (Rows(), Cols())
    }

    /** Every entry inside the grid can be read without failing. */
    predicate Readable()
      reads Footprint()
    {
      DenseM? ==> Dense.Readable(d)
    }

    /** The shared accessor (`element` on some types, `get` on others):
        None outside rows×cols. */
    function Entry(i: nat, j: nat): (r: Option<int>)
      reads Footprint()
      requires Readable()
      ensures r.Some? <==> i < Rows() && j < Cols()
    {
      match this
      case DenseM(d) => if i < Dense.Rows(d) && j < Dense.Cols(d) then Dense.Element(d, i, j) else None
      case SparseM(s) => s.Get(i, j)
      case IdentityM(id) => Identity.Get(id, i, j)
      case ZeroM(z) => Zero.Element(z, i, j)
    }

    /** The entry as a number, zero outside the grid. */
    function Value(i: nat, j: nat): int
      reads Footprint()
      requires Readable()
    {
      if i < Rows() && j < Cols() then Entry(i, j).value else 0
    }
  }

  /** Two matrices are the same logical matrix: equal dimensions and equal
      entries everywhere inside the grid. */
  predicate Same(a: AnyMatrix, b: AnyMatrix)
    reads a.Footprint(), b.Footprint()
    requires a.Readable() && b.Readable()
  {
    a.Dims() == b.Dims() &&
    forall i: nat, j: nat :: i < a.Rows() && j < a.Cols() ==> a.Entry(i, j) == b.Entry(i, j)
  }

  lemma SameSymmetric(a: AnyMatrix, b: AnyMatrix)
    requires a.Readable() && b.Readable()
    ensures Same(a, b) == Same(b, a)
  {
  }

  /** Row i of a times column j of b, over the first k terms. */
  function RowTimesCol(a: AnyMatrix, b: AnyMatrix, i: nat, j: nat, k: nat): int
    reads a.Footprint(), b.Footprint()
    requires a.Readable() && b.Readable()
  {
    if k == 0 then 0 else RowTimesCol(a, b, i, j, k - 1) + a.Value(i, k - 1) * b.Value(k - 1, j)
  }
}
