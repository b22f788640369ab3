/** Dense row and column vectors: a fixed-length buffer whose cells are
    overwritten in place by `set`. Transposing hands the same buffer to a
    vector of the other orientation. */
module Vectors {
  import opened Common

  class DenseRow {
    const elems: array<int>

    /** A row over the given buffer, as `transpose` of a column builds it. */
    constructor (elems: array<int>)
      ensures this.elems == elems
    {
      this.elems := elems;
    }

    /** `zeros(size)`: size zeros. */
    constructor Zeros(size: nat)
      ensures fresh(elems) && elems.Length == size
      ensures forall i: nat :: i < size ==> Get(i) == Some(0)
    {
      elems := new int[size](_ => 0);
    }

    /** `from_vec`: the values in their order. */
    constructor FromVec(v: seq<int>)
      ensures fresh(elems) && elems[..] == v
    {
      elems := new int[|v|](i requires 0 <= i < |v| => v[i]);
    }

    function Len(): nat
      reads this
    {
      elems.Length
    }

    /** Some value exactly at the positions below the length. */
    function Get(i: nat): (r: Option<int>)
      reads this, elems
      ensures r.Some? <==> i < Len()
      ensures r.Some? ==> r.value == elems[..][i]
    {
      if i < elems.Length then Some(elems[i]) else None
    }

    /** `set`: in range, only position i changes; out of range, nothing. The
        length never changes. */
    method Set(i: nat, val: int) returns (r: Option<int>)
      modifies elems
      ensures Len() == old(Len())
      ensures r.Some? <==> i < Len()
      ensures r.Some? ==> r.value == val && elems[..] == old(elems[..])[i := val]
      ensures r.None? ==> elems[..] == old(elems[..])
      ensures r.Some? ==> Get(i) == Some(val)
      ensures forall k: nat :: k != i ==> Get(k) == old(Get(k))
    {
      if i < elems.Length {
        elems[i] := val;
        r := Some(val);
      } else {
        r := None;
      }
    }

    /** `transpose`: a column over the very same buffer. */
    method Transpose() returns (c: DenseColumn)
      ensures fresh(c) && c.elems == elems
      ensures c.Len() == Len() && forall i: nat :: c.Get(i) == Get(i)
    {
      c := new DenseColumn(elems);
    }
  }

  class DenseColumn {
    const elems: array<int>

    /** A column over the given buffer, as `transpose` of a row builds it. */
    constructor (elems: array<int>)
      ensures this.elems == elems
    {
      this.elems := elems;
    }

    /** `zeros(size)`: size zeros. */
    constructor Zeros(size: nat)
      ensures fresh(elems) && elems.Length == size
      ensures forall i: nat :: i < size ==> Get(i) == Some(0)
    {
      elems := new int[size](_ => 0);
    }

    /** `from_vec`: the values in their order. */
    constructor FromVec(v: seq<int>)
      ensures fresh(elems) && elems[..] == v
    {
      elems := new int[|v|](i requires 0 <= i < |v| => v[i]);
    }

    function Len(): nat
      reads this
    {
      elems.Length
    }

    /** Some value exactly at the positions below the length. */
    function Get(i: nat): (r: Option<int>)
      reads this, elems
      ensures r.Some? <==> i < Len()
      ensures r.Some? ==> r.value == elems[..][i]
    {
      if i < elems.Length then Some(elems[i]) else None
    }

    /** `set`: in range, only position i changes; out of range, nothing. The
        length never changes. */
    method Set(i: nat, val: int) returns (r: Option<int>)
      modifies elems
      ensures Len() == old(Len())
      ensures r.Some? <==> i < Len()
      ensures r.Some? ==> r.value == val && elems[..] == old(elems[..])[i := val]
      ensures r.None? ==> elems[..] == old(elems[..])
      ensures r.Some? ==> Get(i) == Some(val)
      ensures forall k: nat :: k != i ==> Get(k) == old(Get(k))
    {
      if i < elems.Length {
        elems[i] := val;
        r := Some(val);
      } else {
        r := None;
      }
    }

    /** `transpose`: a row over the very same buffer. */
    method Transpose() returns (r: DenseRow)
      ensures fresh(r) && r.elems == elems
      ensures r.Len() == Len() && forall i: nat :: r.Get(i) == Get(i)
    {
      r := new DenseRow(elems);
    }
  }

  /** Transposing a row twice gives a row over the original buffer, reading
      the same values. */
  method TransposeRowTwice(row: DenseRow) returns (back: DenseRow)
    ensures back.elems == row.elems
    ensures forall i: nat :: back.Get(i) == row.Get(i)
  {
    var col := row.Transpose();
    back := col.Transpose();
  }

  /** A write made before the transpose is carried over to the column, and a
      write out of range changes nothing. */
  method SetThenTranspose()
  {
    var row := new DenseRow.FromVec([1, 2, 3]);
    var r := row.Set(1, 7);
    var s := row.Set(3, 9);
    var col := row.Transpose();
    assert r == Some(7) && s == None;
    assert col.Get(1) == Some(7) && col.Get(0) == Some(1) && col.Get(2) == Some(3) && col.Get(3) == None;
  }
}
