/** Shared vocabulary of the matrix crate: optional results, the construction
    error, the fatal conditions of the arithmetic layer, the read order flag
    and a left-to-right sum. */
module Common {

  datatype Option<T> = None | Some(value: T)

  /** The crate's only recoverable error: a matrix built from rows that do
      not form a rectangle. */
  datatype Error = InvalidDimensions

  datatype Result<T> = Ok(value: T) | Err(error: Error)

  /** Conditions on which the crate panics at the call site. */
  datatype Fatal =
    | DimensionMismatch    // operands of +, * or a vector product do not fit
    | UnsupportedMutation  // `set` on a structural matrix

  /** The outcome of an operation that either completes or aborts. */
  datatype Checked<T> = Pass(value: T) | Abort(cause: Fatal)

  /** How a flat storage, or the keys of a sparse map, is read: row-major
      storage read as column-major is the transpose. */
  datatype ReadOrder = RowMajor | ColMajor {
    function Flip(): (r: ReadOrder)
      ensures r != this
    {
      match this
      case RowMajor => ColMajor
      case ColMajor => RowMajor
    }
  }

  lemma FlipInvolution(o: ReadOrder)
    ensures o.Flip().Flip() == o
  {
  }

  /** Sum of a sequence. */
  function Sum(s: seq<int>): int
  {
    if s == [] then 0 else s[0] + Sum(s[1..])
  }

  lemma {:induction false} SumAllZero(s: seq<int>)
    requires forall k :: 0 <= k < |s| ==> s[k] == 0
    ensures Sum(s) == 0
  {
    if s != [] {
      SumAllZero(s[1..]);
    }
  }

  lemma {:induction false} SumAllOne(s: seq<int>)
    requires forall k :: 0 <= k < |s| ==> s[k] == 1
    ensures Sum(s) == |s|
  {
    if s != [] {
      SumAllOne(s[1..]);
    }
  }
}
