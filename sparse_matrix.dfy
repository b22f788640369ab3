/** The sparse matrix: a map from storage coordinates to values; a
    coordinate with no entry reads as zero. Under ColMajor the logical cell
    (i, j) lives at key (j, i), so transposing only flips the read order. */
module Sparse {
  import opened Common
  import Index

  /** The map `from_tuple` builds: the triples inserted one after another,
      so a later triple for the same coordinate replaces an earlier one. */
  function Inserted(triples: seq<(nat, nat, int)>): map<(nat, nat), int>
  {
    if triples == [] then map[]
    else
      var last := triples[|triples| - 1];
      Inserted(triples[..|triples| - 1])[(last.0, last.1) := last.2]
  }

  /** A coordinate is stored exactly when some triple names it, and it holds
      the value of the last triple that does. */
  lemma {:induction false} InsertedLookup(triples: seq<(nat, nat, int)>, key: (nat, nat))
    ensures key in Inserted(triples) <==> exists k :: 0 <= k < |triples| && (triples[k].0, triples[k].1) == key
    ensures key in Inserted(triples) ==> exists k :: (0 <= k < |triples| && (triples[k].0, triples[k].1) == key &&
      Inserted(triples)[key] == triples[k].2 &&
      forall l :: k < l < |triples| ==> (triples[l].0, triples[l].1) != key)
  {
    if triples != [] {
      var n := |triples| - 1;
      var init, last := triples[..n], triples[n];
      InsertedLookup(init, key);
      assert forall k :: 0 <= k < |init| ==> init[k] == triples[k];
      assert Inserted(triples) == Inserted(init)[(last.0, last.1) := last.2];
      if (last.0, last.1) == key {
        assert Inserted(triples)[key] == triples[n].2;
      } else if key in Inserted(init) {
        var k :| 0 <= k < |init| && (init[k].0, init[k].1) == key && Inserted(init)[key] == init[k].2 &&
          forall l :: k < l < |init| ==> (init[l].0, init[l].1) != key;
        assert (triples[k].0, triples[k].1) == key && Inserted(triples)[key] == triples[k].2;
      }
    }
  }

  class SparseMatrix {
    var readOrder: ReadOrder
    const m: nat
    const n: nat
    var entries: map<(nat, nat), int>

    /** `new(m, n)`: no entries, read row by row, so every cell inside the
        grid reads zero. */
    constructor New(m: nat, n: nat)
      ensures this.m == m && this.n == n && readOrder == RowMajor && entries == map[]
      ensures forall i: nat, j: nat :: i < m && j < n ==> Get(i, j) == Some(0)
    {
      this.m := m;
      this.n := n;
      readOrder := RowMajor;
      entries := map[];
    }

    /** `from_tuple`: inserts the (i, j, value) triples in order, read row by
        row. Coordinates are not checked against the dimensions. */
    constructor FromTuple(triples: seq<(nat, nat, int)>, m: nat, n: nat)
      ensures this.m == m && this.n == n && readOrder == RowMajor
      ensures entries == Inserted(triples)
    {
      this.m := m;
      this.n := n;
      readOrder := RowMajor;
      var built: map<(nat, nat), int> := map[];
      for k := 0 to |triples|
        invariant built == Inserted(triples[..k])
      {
        assert triples[..k + 1][..k] == triples[..k];
        built := built[(triples[k].0, triples[k].1) := triples[k].2];
      }
      assert triples[..|triples|] == triples;
      entries := built;
    }

    function Rows(): nat
      reads this
    {
      match readOrder
      case RowMajor => m
      case ColMajor => n
    }

    function Cols(): nat
      reads this
    {
      match readOrder
      case RowMajor => n
      case ColMajor => m
    }

    function Dims(): (nat, nat)
      reads this
    {
      (Rows(), Cols())
    }

    /** The storage key of the logical cell (i, j). */
    function Key(i: nat, j: nat): (nat, nat)
      reads this
    {
      match readOrder
      case RowMajor => (i, j)
      case ColMajor => (j, i)
    }

    /** The logical cell whose value is stored under the key k. */
    function CellAt(k: (nat, nat)): (c: (nat, nat))
      reads this
      ensures Key(c.0, c.1) == k
    {
      match readOrder
      case RowMajor => k
      case ColMajor => (k.1, k.0)
    }

    /** None outside rows×cols; inside, the stored value or zero. */
    function Get(i: nat, j: nat): (r: Option<int>)
      reads this
      ensures r.None? <==> i >= Rows() || j >= Cols()
      ensures r.Some? && Key(i, j) !in entries ==> r.value == 0
      ensures r.Some? && Key(i, j) in entries ==> r.value == entries[Key(i, j)]
    {
      if i >= Rows() || j >= Cols() then None
      else if Key(i, j) in entries then Some(entries[Key(i, j)])
      else Some(0)
    }

    /** Every stored key lies inside the m×n storage grid. */
    predicate KeysInRange()
      reads this
    {
      forall k :: k in entries ==> k.0 < m && k.1 < n
    }

    /** `set`: outside the grid nothing changes; inside, the value is stored
        at the cell's key and every other cell keeps its value. */
    method Set(i: nat, j: nat, val: int) returns (r: Option<int>)
      modifies this
      ensures readOrder == old(readOrder)
      ensures r.None? <==> i >= Rows() || j >= Cols()
      ensures r.None? ==> entries == old(entries)
      ensures r.Some? ==> r.value == val && entries == old(entries)[old(Key(i, j)) := val]
      ensures r.Some? ==> Get(i, j) == Some(val)
      ensures forall p: nat, q: nat :: (p != i || q != j) ==> Get(p, q) == old(Get(p, q))
      ensures old(KeysInRange()) ==> KeysInRange()
    {
      if i >= Rows() || j >= Cols() {
        return None;
      }
      entries := entries[Key(i, j) := val];
      r := Some(val);
    }

    /** `flip_read_order` and `transpose`: the entries stay, rows and
        columns swap, and cell (j, i) now reads what cell (i, j) read. */
    method Transpose()
      modifies this
      ensures readOrder == old(readOrder).Flip() && entries == old(entries)
      ensures Rows() == old(Cols()) && Cols() == old(Rows())
      ensures forall i: nat, j: nat :: Get(j, i) == old(Get(i, j))
    {
      readOrder := readOrder.Flip();
    }

    /** `is_diagonal`: no stored key off the diagonal, whatever its value. */
    predicate IsDiagonal()
      reads this
    {
      forall k :: k in entries ==> k.0 == k.1
    }

    /** The shortest side of the logical grid. */
    function MinDim(): nat
      reads this
    {
      if Rows() < Cols() then Rows() else Cols()
    }

    /** The diagonal: get(i, i) for i below min(rows, cols). */
    function Diags(): (r: seq<int>)
      reads this
      ensures |r| == MinDim()
      ensures forall i :: 0 <= i < |r| ==> Get(i, i) == Some(r[i])
    {
      seq(MinDim(), i reads this requires 0 <= i < MinDim() => Get(i, i).value)
    }

    /** `trace`: sums get(i, i) from i = 0 until get answers None. */
    method Trace() returns (t: int)
      ensures t == Sum(Diags())
    {
      var diags := Diags();
      t := 0;
      var i: nat := 0;
      while Get(i, i).Some?
        invariant i <= MinDim()
        invariant t + Sum(diags[i..]) == Sum(diags)
        decreases MinDim() - i
      {
        assert diags[i..][1..] == diags[i + 1..];
        t := t + Get(i, i).value;
        i := i + 1;
      }
      assert diags[i..] == [];
    }

    /** `elements` walks rows 0..m and columns 0..n of the storage and unwraps
        each `get`; every such cell is inside the logical grid when the
        matrix is read row by row or is square. */
    predicate ElementsInRange()
      reads this
    {
      m == 0 || n == 0 || readOrder == RowMajor || m == n
    }

    method Elements() returns (es: seq<int>)
      requires ElementsInRange()
      ensures |es| == m * n
      ensures forall i: nat, j: nat :: i < m && j < n ==>
        Index.At(i, j, n) < |es| && Get(i, j) == Some(es[Index.At(i, j, n)])
    {
      es := [];
      for i := 0 to m
        invariant |es| == i * n
        invariant forall p: nat, q: nat :: p < i && q < n ==>
          Index.At(p, q, n) < |es| && Get(p, q) == Some(es[Index.At(p, q, n)])
      {
        for j := 0 to n
          invariant |es| == i * n + j
          invariant forall p: nat, q: nat :: p < i && q < n ==>
            Index.At(p, q, n) < |es| && Get(p, q) == Some(es[Index.At(p, q, n)])
          invariant forall q: nat :: q < j ==>
            Index.At(i, q, n) < |es| && Get(i, q) == Some(es[Index.At(i, q, n)])
        {
          es := es + [Get(i, j).value];
        }
        assert (i + 1) * n == i * n + n;
      }
    }
  }

  /** A diagonal sparse matrix reads zero at every logical cell off the
      diagonal, and conversely, as long as no zero is stored off the
      diagonal and every key is inside the grid. */
  lemma IsDiagonalMeansOffDiagonalZero(s: SparseMatrix)
    ensures s.IsDiagonal() ==>
      forall i: nat, j: nat :: i < s.Rows() && j < s.Cols() && i != j ==> s.Get(i, j) == Some(0)
    ensures s.KeysInRange() && (forall k :: k in s.entries && k.0 != k.1 ==> s.entries[k] != 0) &&
      (forall i: nat, j: nat :: i < s.Rows() && j < s.Cols() && i != j ==> s.Get(i, j) == Some(0))
      ==> s.IsDiagonal()
  {
    if s.KeysInRange() && (forall k :: k in s.entries && k.0 != k.1 ==> s.entries[k] != 0) &&
      (forall i: nat, j: nat :: i < s.Rows() && j < s.Cols() && i != j ==> s.Get(i, j) == Some(0))
    {
      forall k | k in s.entries
        ensures k.0 == k.1
      {
        var cell := if s.readOrder == RowMajor then k else (k.1, k.0);
        assert s.Key(cell.0, cell.1) == k;
        assert s.Get(cell.0, cell.1) == Some(s.entries[k]);
      }
    }
  }

  /** `from_tuple` keeps the value of the last triple for each coordinate:
      reading a stored coordinate inside the grid gives that value. */
  lemma FromTupleGet(s: SparseMatrix, triples: seq<(nat, nat, int)>, k: nat)
    requires s.readOrder == RowMajor && s.entries == Inserted(triples)
    requires k < |triples| && triples[k].0 < s.m && triples[k].1 < s.n
    requires forall l :: k < l < |triples| ==> (triples[l].0, triples[l].1) != (triples[k].0, triples[k].1)
    ensures s.Get(triples[k].0, triples[k].1) == Some(triples[k].2)
  {
    var key := (triples[k].0, triples[k].1);
    InsertedLookup(triples, key);
    var w :| 0 <= w < |triples| && (triples[w].0, triples[w].1) == key &&
      Inserted(triples)[key] == triples[w].2 &&
      forall l :: w < l < |triples| ==> (triples[l].0, triples[l].1) != key;
    assert w == k;
  }

  /** The crate's double transpose gives back the same matrix. */
  method TransposeTwice(s: SparseMatrix)
    modifies s
    ensures s.readOrder == old(s.readOrder) && s.entries == old(s.entries)
    ensures forall i: nat, j: nat :: s.Get(i, j) == old(s.Get(i, j))
  {
    s.Transpose();
    s.Transpose();
    FlipInvolution(old(s.readOrder));
  }
}
